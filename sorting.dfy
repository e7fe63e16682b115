/** Python's `sorted(..., key=...)` (a stable sort) and `itertools.groupby`
    (maximal runs of equal keys) on record sequences, with the facts the
    analysis relies on: sorting is a stable permutation, and grouping a sorted
    sequence yields one run per distinct key, in ascending key order, holding
    exactly the records with that key. */
module Sorting {
  import opened Strings
  import opened Seqs
  import opened Records

  /** Inserts `x` into the sorted `s` in front of the first record whose key
      is not smaller than that of `x`. */
  function Insert(x: StatRecord, s: seq<StatRecord>, f: Field): (r: seq<StatRecord>)
    ensures |r| == |s| + 1
    ensures multiset(r) == multiset(s) + multiset{x}
  {
    if s == [] then [x]
    else if LessEq(Key(x, f), Key(s[0], f)) then [x] + s
    else
      assert s == [s[0]] + s[1..];
      [s[0]] + Insert(x, s[1..], f)
  }

  /** `sorted(s, key=lambda r: <field f of r>)`. */
  function SortBy(s: seq<StatRecord>, f: Field): (r: seq<StatRecord>)
    ensures |r| == |s|
    ensures multiset(r) == multiset(s)
  {
    if s == [] then []
    else
      assert s == [s[0]] + s[1..];
      Insert(s[0], SortBy(s[1..], f), f)
  }

  lemma TailSorted(s: seq<StatRecord>, f: Field)
    requires SortedBy(s, f) && s != []
    ensures SortedBy(s[1..], f)
  {
    forall i, j | 0 <= i < j < |s[1..]|
      ensures LessEq(Key(s[1..][i], f), Key(s[1..][j], f))
    {
      assert s[1..][i] == s[i + 1] && s[1..][j] == s[j + 1];
    }
  }

  /** A record whose key is at most every key of a sorted sequence can go in front. */
  lemma ConsSorted(y: StatRecord, t: seq<StatRecord>, f: Field)
    requires SortedBy(t, f)
    requires forall j :: 0 <= j < |t| ==> LessEq(Key(y, f), Key(t[j], f))
    ensures SortedBy([y] + t, f)
  {
    var r := [y] + t;
    forall i, j | 0 <= i < j < |r|
      ensures LessEq(Key(r[i], f), Key(r[j], f))
    {
      assert r[j] == t[j - 1];
      if i > 0 {
        assert r[i] == t[i - 1];
      }
    }
  }

  /** Every record of `Insert(x, s, f)` is `x` or a record of `s`. */
  lemma InsertFrom(x: StatRecord, s: seq<StatRecord>, f: Field, j: nat)
    requires j < |Insert(x, s, f)|
    ensures Insert(x, s, f)[j] == x || Insert(x, s, f)[j] in s
  {
    var y := Insert(x, s, f)[j];
    assert y in multiset(Insert(x, s, f));
  }

  lemma {:induction false} InsertSorted(x: StatRecord, s: seq<StatRecord>, f: Field)
    requires SortedBy(s, f)
    ensures SortedBy(Insert(x, s, f), f)
  {
    if s == [] {
      assert Insert(x, s, f) == [x];
    } else if LessEq(Key(x, f), Key(s[0], f)) {
      forall j | 0 <= j < |s| ensures LessEq(Key(x, f), Key(s[j], f)) {
        if j > 0 {
          LessEqTransitive(Key(x, f), Key(s[0], f), Key(s[j], f));
        }
      }
      ConsSorted(x, s, f);
    } else {
      TailSorted(s, f);
      InsertSorted(x, s[1..], f);
      var t := Insert(x, s[1..], f);
      NotLessEq(Key(x, f), Key(s[0], f));
      forall j | 0 <= j < |t| ensures LessEq(Key(s[0], f), Key(t[j], f)) {
        InsertFrom(x, s[1..], f, j);
        if t[j] != x {
          var m :| 0 <= m < |s[1..]| && s[1..][m] == t[j];
          assert s[m + 1] == t[j];
        }
      }
      ConsSorted(s[0], t, f);
    }
  }

  /** `x` lands in front of every record of `s` with the same key, and all
      other keys keep their records in the same order. */
  lemma {:induction false} InsertSelect(x: StatRecord, s: seq<StatRecord>, f: Field, k: string)
    ensures Select(Insert(x, s, f), f, k)
         == if Key(x, f) == k then [x] + Select(s, f, k) else Select(s, f, k)
  {
    if s == [] {
      SelectCons(x, s, f, k);
    } else if LessEq(Key(x, f), Key(s[0], f)) {
      SelectCons(x, s, f, k);
    } else {
      var t := Insert(x, s[1..], f);
      assert Insert(x, s, f) == [s[0]] + t;
      InsertSelect(x, s[1..], f, k);
      SelectCons(s[0], t, f, k);
      NotLessEq(Key(x, f), Key(s[0], f));
      if Key(x, f) == k {
        LessIrreflexive(k);
        assert Select(s, f, k) == Select(s[1..], f, k);
      }
    }
  }

  /** `sorted` orders by the key. */
  lemma {:induction false} SortBySorted(s: seq<StatRecord>, f: Field)
    ensures SortedBy(SortBy(s, f), f)
  {
    if s != [] {
      SortBySorted(s[1..], f);
      InsertSorted(s[0], SortBy(s[1..], f), f);
    }
  }

  /** `sorted` is stable: the records with any one key keep their order. */
  lemma {:induction false} SortByStable(s: seq<StatRecord>, f: Field, k: string)
    ensures Select(SortBy(s, f), f, k) == Select(s, f, k)
  {
    if s != [] {
      SortByStable(s[1..], f, k);
      InsertSelect(s[0], SortBy(s[1..], f), f, k);
    }
  }

  lemma SortByStableAll(s: seq<StatRecord>, f: Field)
    ensures forall k :: Select(SortBy(s, f), f, k) == Select(s, f, k)
  {
    forall k ensures Select(SortBy(s, f), f, k) == Select(s, f, k) {
      SortByStable(s, f, k);
    }
  }

  /** One group of `itertools.groupby`: its key and its records. */
  datatype Run = Run(key: string, items: seq<StatRecord>)

  function Flatten(runs: seq<Run>): seq<StatRecord>
  {
    if runs == [] then [] else runs[0].items + Flatten(runs[1..])
  }

  /** `groupby(s, lambda r: <field f of r>)`: the maximal runs of
      consecutive records with equal keys. */
  function GroupBy(s: seq<StatRecord>, f: Field): (runs: seq<Run>)
    ensures s == [] <==> runs == []
    ensures s != [] ==> runs[0].key == Key(s[0], f)
    ensures forall i :: 0 <= i < |runs| ==> runs[i].items != []
  {
    if s == [] then []
    else
      var rest := GroupBy(s[1..], f);
      var k := Key(s[0], f);
      if rest != [] && rest[0].key == k then [Run(k, [s[0]] + rest[0].items)] + rest[1..]
      else [Run(k, [s[0]])] + rest
  }

  /** Every record of a run has the run's key. */
  ghost predicate Uniform(runs: seq<Run>, f: Field)
  {
    forall i, x :: 0 <= i < |runs| && x in runs[i].items ==> Key(x, f) == runs[i].key
  }

  /** No two neighbouring runs share a key: each run is as long as it can be. */
  ghost predicate Maximal(runs: seq<Run>)
  {
    forall i :: 0 <= i < |runs| - 1 ==> runs[i].key != runs[i + 1].key
  }

  /** Whatever the order of `s`, each group holds records of one key only. */
  lemma {:induction false} GroupByUniform(s: seq<StatRecord>, f: Field)
    ensures Uniform(GroupBy(s, f), f)
  {
    if s != [] {
      GroupByUniform(s[1..], f);
      var rest := GroupBy(s[1..], f);
      var runs := GroupBy(s, f);
      var k := Key(s[0], f);
      if rest != [] && rest[0].key == k {
        assert runs == [Run(k, [s[0]] + rest[0].items)] + rest[1..];
        forall i, x | 0 <= i < |runs| && x in runs[i].items ensures Key(x, f) == runs[i].key {
          if i == 0 {
            if x != s[0] {
              assert x in rest[0].items;
            }
          } else {
            assert runs[i] == rest[i];
          }
        }
      } else {
        assert runs == [Run(k, [s[0]])] + rest;
        forall i, x | 0 <= i < |runs| && x in runs[i].items ensures Key(x, f) == runs[i].key {
          if i > 0 {
            assert runs[i] == rest[i - 1];
          }
        }
      }
    }
  }

  /** Whatever the order of `s`, neighbouring groups have different keys. */
  lemma {:induction false} GroupByMaximal(s: seq<StatRecord>, f: Field)
    ensures Maximal(GroupBy(s, f))
  {
    if s != [] {
      GroupByMaximal(s[1..], f);
      var rest := GroupBy(s[1..], f);
      var runs := GroupBy(s, f);
      var k := Key(s[0], f);
      if rest != [] && rest[0].key == k {
        assert runs == [Run(k, [s[0]] + rest[0].items)] + rest[1..];
        forall i | 0 <= i < |runs| - 1 ensures runs[i].key != runs[i + 1].key {
          assert runs[i + 1] == rest[i + 1];
          if i > 0 {
            assert runs[i] == rest[i];
          }
        }
      } else {
        assert runs == [Run(k, [s[0]])] + rest;
        forall i | 0 <= i < |runs| - 1 ensures runs[i].key != runs[i + 1].key {
          assert runs[i + 1] == rest[i];
          if i > 0 {
            assert runs[i] == rest[i - 1];
          }
        }
      }
    }
  }

  lemma FlattenCons(r: Run, rest: seq<Run>)
    ensures Flatten([r] + rest) == r.items + Flatten(rest)
  {
    assert ([r] + rest)[1..] == rest;
  }

  /** Putting `x` in front of the first run puts it in front of the flattening. */
  lemma FlattenGrow(x: StatRecord, k: string, rest: seq<Run>)
    requires rest != []
    ensures Flatten([Run(k, [x] + rest[0].items)] + rest[1..]) == [x] + Flatten(rest)
  {
    var items := rest[0].items;
    var tail := Flatten(rest[1..]);
    FlattenCons(Run(k, [x] + items), rest[1..]);
    assert Flatten(rest) == items + tail;
    ConsAppend(x, items, tail);
  }

  /** The inductive step of `GroupByFlatten`. */
  lemma GroupByFlattenStep(s: seq<StatRecord>, f: Field)
    requires s != [] && Flatten(GroupBy(s[1..], f)) == s[1..]
    ensures Flatten(GroupBy(s, f)) == s
  {
    var rest := GroupBy(s[1..], f);
    var k := Key(s[0], f);
    TailOfAppend(s, []);
    assert s + [] == s;
    if rest != [] && rest[0].key == k {
      assert GroupBy(s, f) == [Run(k, [s[0]] + rest[0].items)] + rest[1..];
      FlattenGrow(s[0], k, rest);
    } else {
      assert GroupBy(s, f) == [Run(k, [s[0]])] + rest;
      FlattenCons(Run(k, [s[0]]), rest);
    }
  }

  /** Whatever the order of `s`, the groups laid end to end give back `s`. */
  lemma {:induction false} GroupByFlatten(s: seq<StatRecord>, f: Field)
    ensures Flatten(GroupBy(s, f)) == s
  {
    if s != [] {
      GroupByFlatten(s[1..], f);
      GroupByFlattenStep(s, f);
    }
  }

  /** Run keys strictly ascend. */
  ghost predicate Ascending(runs: seq<Run>)
  {
    forall i, j :: 0 <= i < j < |runs| ==> Less(runs[i].key, runs[j].key)
  }

  /** Each run holds exactly the records of `s` with its key, in order. */
  ghost predicate Exact(runs: seq<Run>, s: seq<StatRecord>, f: Field)
  {
    forall i :: 0 <= i < |runs| ==> runs[i].items == Select(s, f, runs[i].key)
  }

  /** Every key present in `s` has a run. */
  ghost predicate Covering(runs: seq<Run>, s: seq<StatRecord>, f: Field)
  {
    forall k :: Select(s, f, k) != [] ==> exists i :: 0 <= i < |runs| && runs[i].key == k
  }

  /** The records of `s` grouped by key: one run per distinct key, in
      ascending key order, each holding that key's records in order. */
  ghost predicate GroupsOf(runs: seq<Run>, s: seq<StatRecord>, f: Field)
  {
    Ascending(runs) && Exact(runs, s, f) && Covering(runs, s, f)
  }

  /** The first record of a sorted sequence has a key no larger than any run's. */
  lemma FirstKeyLowest(s: seq<StatRecord>, f: Field, rest: seq<Run>)
    requires SortedBy(s, f) && s != [] && Exact(rest, s[1..], f)
    requires forall i :: 0 <= i < |rest| ==> rest[i].items != []
    ensures forall i :: 0 <= i < |rest| ==> LessEq(Key(s[0], f), rest[i].key)
  {
    SelectMembers(s[1..], f);
    forall i | 0 <= i < |rest| ensures LessEq(Key(s[0], f), rest[i].key) {
      var y := rest[i].items[0];
      assert y in rest[i].items;
      assert y in Select(s[1..], f, rest[i].key);
      assert y in s[1..];
      var m :| 0 <= m < |s[1..]| && s[1..][m] == y;
      assert s[m + 1] == y;
    }
  }

  /** Inductive step of GroupBySorted when the first record joins the first run. */
  lemma GroupByJoin(s: seq<StatRecord>, f: Field, rest: seq<Run>)
    requires s != [] && GroupsOf(rest, s[1..], f)
    requires rest != [] && rest[0].key == Key(s[0], f)
    ensures GroupsOf([Run(Key(s[0], f), [s[0]] + rest[0].items)] + rest[1..], s, f)
  {
    var k0 := Key(s[0], f);
    var runs := [Run(k0, [s[0]] + rest[0].items)] + rest[1..];
    assert forall i :: 0 <= i < |runs| ==> runs[i].key == rest[i].key;
    forall i | 0 <= i < |runs| ensures runs[i].items == Select(s, f, runs[i].key) {
      if i > 0 {
        assert Less(rest[0].key, rest[i].key);
        LessIrreflexive(k0);
        assert runs[i] == rest[i];
      }
    }
    forall k | Select(s, f, k) != []
      ensures exists i :: 0 <= i < |runs| && runs[i].key == k
    {
      if k != k0 {
        assert Select(s[1..], f, k) != [];
        var i :| 0 <= i < |rest| && rest[i].key == k;
        assert runs[i].key == k;
      } else {
        assert runs[0].key == k;
      }
    }
  }

  /** The facts about the first key that the three parts of `GroupByStart`
      share: it is below every later run's key and has no record after the
      first. */
  lemma StartKeyFresh(s: seq<StatRecord>, f: Field, rest: seq<Run>)
    requires s != [] && GroupsOf(rest, s[1..], f)
    requires rest != [] ==> rest[0].key != Key(s[0], f)
    requires forall i :: 0 <= i < |rest| ==> LessEq(Key(s[0], f), rest[i].key)
    ensures forall i :: 0 <= i < |rest| ==> Less(Key(s[0], f), rest[i].key)
    ensures Select(s[1..], f, Key(s[0], f)) == []
  {
    var k0 := Key(s[0], f);
    forall i | 0 <= i < |rest| ensures Less(k0, rest[i].key) {
      if i > 0 {
        LessFromLessEq(k0, rest[0].key, rest[i].key);
      }
    }
    if Select(s[1..], f, k0) != [] {
      var i :| 0 <= i < |rest| && rest[i].key == k0;
      LessIrreflexive(k0);
    }
  }

  lemma StartAscending(k0: string, r0: Run, rest: seq<Run>)
    requires r0.key == k0 && Ascending(rest)
    requires forall i :: 0 <= i < |rest| ==> Less(k0, rest[i].key)
    ensures Ascending([r0] + rest)
  {
    var runs := [r0] + rest;
    forall i, j | 0 <= i < j < |runs| ensures Less(runs[i].key, runs[j].key) {
      assert runs[j] == rest[j - 1];
      if i > 0 {
        assert runs[i] == rest[i - 1];
      }
    }
  }

  lemma StartExact(s: seq<StatRecord>, f: Field, rest: seq<Run>)
    requires s != [] && Exact(rest, s[1..], f)
    requires forall i :: 0 <= i < |rest| ==> Less(Key(s[0], f), rest[i].key)
    requires Select(s[1..], f, Key(s[0], f)) == []
    ensures Exact([Run(Key(s[0], f), [s[0]])] + rest, s, f)
  {
    var k0 := Key(s[0], f);
    var runs := [Run(k0, [s[0]])] + rest;
    forall i | 0 <= i < |runs| ensures runs[i].items == Select(s, f, runs[i].key) {
      if i > 0 {
        assert runs[i] == rest[i - 1];
        LessIrreflexive(k0);
      }
    }
  }

  lemma StartCovering(s: seq<StatRecord>, f: Field, rest: seq<Run>)
    requires s != [] && Covering(rest, s[1..], f)
    ensures Covering([Run(Key(s[0], f), [s[0]])] + rest, s, f)
  {
    var k0 := Key(s[0], f);
    var runs := [Run(k0, [s[0]])] + rest;
    forall k | Select(s, f, k) != []
      ensures exists i :: 0 <= i < |runs| && runs[i].key == k
    {
      if k != k0 {
        assert Select(s[1..], f, k) != [];
        var i :| 0 <= i < |rest| && rest[i].key == k;
        assert runs[i + 1].key == k;
      } else {
        assert runs[0].key == k;
      }
    }
  }

  /** A first record with a key of its own, below all later keys, opens a
      run of its own in front of the groups of the rest. */
  lemma GroupByStart(s: seq<StatRecord>, f: Field, rest: seq<Run>)
    requires s != [] && GroupsOf(rest, s[1..], f)
    requires rest != [] ==> rest[0].key != Key(s[0], f)
    requires forall i :: 0 <= i < |rest| ==> LessEq(Key(s[0], f), rest[i].key)
    ensures GroupsOf([Run(Key(s[0], f), [s[0]])] + rest, s, f)
  {
    StartKeyFresh(s, f, rest);
    StartAscending(Key(s[0], f), Run(Key(s[0], f), [s[0]]), rest);
    StartExact(s, f, rest);
    StartCovering(s, f, rest);
  }

  /** Grouping a sorted sequence yields exactly its groups. */
  lemma {:induction false} GroupBySorted(s: seq<StatRecord>, f: Field)
    requires SortedBy(s, f)
    ensures GroupsOf(GroupBy(s, f), s, f)
  {
    if s != [] {
      var rest := GroupBy(s[1..], f);
      TailSorted(s, f);
      GroupBySorted(s[1..], f);
      FirstKeyLowest(s, f, rest);
      if rest != [] && rest[0].key == Key(s[0], f) {
        GroupByJoin(s, f, rest);
      } else {
        GroupByStart(s, f, rest);
      }
    }
  }

  /** `groupby(sorted(s, key), key)`: the runs a caller iterates over. */
  function SortedRuns(s: seq<StatRecord>, f: Field): (runs: seq<Run>)
    ensures forall i :: 0 <= i < |runs| ==> runs[i].items != []
  {
    GroupBy(SortBy(s, f), f)
  }

  /** The Python idiom `groupby(sorted(s, key), key)` groups `s` by key: one
      run per distinct key, keys strictly ascending, and each run holds the
      records of `s` with that key in their original order. */
  lemma SortedRunsGroup(s: seq<StatRecord>, f: Field)
    ensures GroupsOf(SortedRuns(s, f), s, f)
  {
    var t := SortBy(s, f);
    var runs := GroupBy(t, f);
    SortBySorted(s, f);
    GroupBySorted(t, f);
    forall k ensures Select(t, f, k) == Select(s, f, k) {
      SortByStable(s, f, k);
    }
    assert Exact(runs, s, f);
    forall k | Select(s, f, k) != []
      ensures exists i :: 0 <= i < |runs| && runs[i].key == k
    {
      assert Select(t, f, k) != [];
    }
  }
}
