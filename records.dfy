/** The records that flow through the trend analysis: the raw documents of the
    metric store, the normalised `StatRecord`s and the smoothed series emitted
    per (branch, metric) pair; plus the views of a record sequence by one field. */
module Records {
  import opened Strings

  /** The `_source` part of one search hit of the performance-report index. */
  datatype SourceRecord = SourceRecord(
    branch: string,
    build: string,
    metricType: string,
    name: string,
    nameWithTest: string,
    datetime: string,
    median: real)

  /** One measurement after normalisation. `timestamp` is the store's ISO
      date-time text, which orders chronologically as a string. */
  datatype StatRecord = StatRecord(branch: string, name: string, timestamp: string, value: real)

  /** One smoothed series, emitted per (branch, metric name) pair. */
  datatype MovingAverageRecord = MovingAverageRecord(branch: string, name: string, value: seq<real>)

  /** The fields the analysis sorts and groups by. */
  datatype Field = Branch | Name | Timestamp

  function Key(r: StatRecord, f: Field): string
  {
    match f
    case Branch => r.branch
    case Name => r.name
    case Timestamp => r.timestamp
  }

  /** The records of `s` whose field `f` equals `k`, in their order in `s`. */
  function Select(s: seq<StatRecord>, f: Field, k: string): (r: seq<StatRecord>)
    ensures |r| <= |s|
  {
    if s == [] then []
    else (if Key(s[0], f) == k then [s[0]] else []) + Select(s[1..], f, k)
  }

  /** `Select` takes the first record or not, then goes on with the rest. */
  lemma SelectCons(y: StatRecord, t: seq<StatRecord>, f: Field, k: string)
    ensures Select([y] + t, f, k) == (if Key(y, f) == k then [y] else []) + Select(t, f, k)
  {
    assert ([y] + t)[1..] == t;
  }

  lemma {:induction false} SelectMember(s: seq<StatRecord>, f: Field, k: string, x: StatRecord)
    requires x in Select(s, f, k)
    ensures x in s && Key(x, f) == k
  {
    var head := if Key(s[0], f) == k then [s[0]] else [];
    assert Select(s, f, k) == head + Select(s[1..], f, k);
    if x !in head {
      SelectMember(s[1..], f, k, x);
      assert x in s[1..];
    }
  }

  lemma SelectMembers(s: seq<StatRecord>, f: Field)
    ensures forall k, x :: x in Select(s, f, k) ==> x in s && Key(x, f) == k
  {
    forall k, x | x in Select(s, f, k) ensures x in s && Key(x, f) == k {
      SelectMember(s, f, k, x);
    }
  }

  /** The records of `s` with branch `b` and name `n`, in their order in `s`. */
  function Group(s: seq<StatRecord>, b: string, n: string): seq<StatRecord>
  {
    Select(Select(s, Branch, b), Name, n)
  }

  function Values(s: seq<StatRecord>): (v: seq<real>)
    ensures |v| == |s|
    ensures forall i :: 0 <= i < |s| ==> v[i] == s[i].value
  {
    if s == [] then [] else [s[0].value] + Values(s[1..])
  }

  ghost predicate SortedBy(s: seq<StatRecord>, f: Field)
  {
    forall i, j :: 0 <= i < j < |s| ==> LessEq(Key(s[i], f), Key(s[j], f))
  }

  /** `a` is `b` with some elements deleted. */
  predicate IsSubsequence(a: seq<StatRecord>, b: seq<StatRecord>)
  {
    if a == [] then true
    else if b == [] then false
    else if a[0] == b[0] then IsSubsequence(a[1..], b[1..])
    else IsSubsequence(a, b[1..])
  }

  lemma {:induction false} SelectIsSubsequence(s: seq<StatRecord>, f: Field, k: string)
    ensures IsSubsequence(Select(s, f, k), s)
  {
    if s != [] {
      SelectIsSubsequence(s[1..], f, k);
      var rest := Select(s[1..], f, k);
      if Key(s[0], f) == k {
        assert ([s[0]] + rest)[1..] == rest;
      } else {
        assert Select(s, f, k) == rest;
        if rest != [] {
          SelectMembers(s[1..], f);
          assert rest[0] in rest;
          assert rest[0] != s[0];
        }
      }
    }
  }

  /** Selecting by one field keeps the order of any other. */
  lemma SelectKeepsSorted(s: seq<StatRecord>, f: Field, k: string, g: Field)
    requires SortedBy(s, g)
    ensures SortedBy(Select(s, f, k), g)
  {
    SelectIsSubsequence(s, f, k);
    SubsequenceKeepsSorted(Select(s, f, k), s, g);
  }

  /** A subsequence of a sorted sequence is sorted. */
  lemma {:induction false} SubsequenceKeepsSorted(a: seq<StatRecord>, b: seq<StatRecord>, g: Field)
    requires IsSubsequence(a, b) && SortedBy(b, g)
    ensures SortedBy(a, g)
    ensures forall x :: x in a ==> x in b
  {
    if a != [] && b != [] {
      assert SortedBy(b[1..], g) by {
        forall i, j | 0 <= i < j < |b[1..]|
          ensures LessEq(Key(b[1..][i], g), Key(b[1..][j], g))
        {
          assert b[1..][i] == b[i + 1] && b[1..][j] == b[j + 1];
        }
      }
      if a[0] == b[0] {
        SubsequenceKeepsSorted(a[1..], b[1..], g);
        forall i, j | 0 <= i < j < |a|
          ensures LessEq(Key(a[i], g), Key(a[j], g))
        {
          if i == 0 {
            assert a[j] == a[1..][j - 1];
            assert a[j] in b[1..];
            var m :| 0 <= m < |b[1..]| && b[1..][m] == a[j];
            assert b[m + 1] == a[j];
          } else {
            assert a[i] == a[1..][i - 1] && a[j] == a[1..][j - 1];
          }
        }
        forall x | x in a ensures x in b {
          if x != a[0] {
            assert x in a[1..];
          }
        }
      } else {
        SubsequenceKeepsSorted(a, b[1..], g);
      }
    }
  }
}
