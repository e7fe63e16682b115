/** `get_moving_averages`: group the records by branch, then by metric name,
    skip every group with fewer than `2 * window` values, and smooth the rest.
    The generator's nested loops are the method; the function of the same
    shape is its specification, and the lemmas say what the output means in
    terms of the input records alone. */
module MovingAverages {
  import opened Strings
  import opened Seqs
  import opened Records
  import opened Sorting
  import opened Smoothing

  /** The slope weight the analysis passes to the smoothing. */
  const BETA: real := 0.3

  /** What one (branch, name) group contributes: nothing when it is shorter
      than `2 * window`, else its smoothed values. */
  function EmitRun(branch: string, run: Run, window: nat): seq<MovingAverageRecord>
    requires run.items != []
  {
    if |run.items| < 2 * window then []
    else [MovingAverageRecord(branch, run.key, Levels(Values(run.items), window, BETA))]
  }

  /** What the inner loop emits for the name groups `runs` of one branch. */
  function EmitBranch(branch: string, runs: seq<Run>, window: nat): seq<MovingAverageRecord>
    requires forall i :: 0 <= i < |runs| ==> runs[i].items != []
  {
    if runs == [] then []
    else EmitBranch(branch, runs[..|runs| - 1], window) + EmitRun(branch, runs[|runs| - 1], window)
  }

  /** What the inner loop emits for one branch group. */
  function BranchRecords(run: Run, window: nat): seq<MovingAverageRecord>
  {
    EmitBranch(run.key, SortedRuns(run.items, Name), window)
  }

  /** The outer loop's output, one block per branch group. */
  function Blocks(branchRuns: seq<Run>, window: nat): (blocks: seq<seq<MovingAverageRecord>>)
    ensures |blocks| == |branchRuns|
    ensures forall j :: 0 <= j < |branchRuns| ==> blocks[j] == BranchRecords(branchRuns[j], window)
  {
    if branchRuns == [] then []
    else Blocks(branchRuns[..|branchRuns| - 1], window) + [BranchRecords(branchRuns[|branchRuns| - 1], window)]
  }

  function MovingAverages(stats: seq<StatRecord>, window: nat): seq<MovingAverageRecord>
  {
    Concat(Blocks(SortedRuns(stats, Branch), window))
  }

  // ---------------------------------------------------------------------
  // What the output means

  /** By branch, then by name, as the two sorts order them. */
  predicate PairLess(a: MovingAverageRecord, b: MovingAverageRecord)
  {
    Less(a.branch, b.branch) || (a.branch == b.branch && Less(a.name, b.name))
  }

  ghost predicate StrictlyAscending(out: seq<MovingAverageRecord>)
  {
    forall i, j :: 0 <= i < j < |out| ==> PairLess(out[i], out[j])
  }

  /** `v` is the smoothing of the values of the non-empty group `g`, which is
      long enough to be analysed. */
  ghost predicate IsSmoothing(v: seq<real>, g: seq<StatRecord>, window: nat)
  {
    g != [] && |g| >= 2 * window && v == Levels(Values(g), window, BETA)
  }

  /** Each record of `out` is the smoothing of its (branch, name) group. */
  ghost predicate AllSmooth(out: seq<MovingAverageRecord>, stats: seq<StatRecord>, window: nat)
  {
    forall i :: 0 <= i < |out| ==> IsSmoothing(out[i].value, Group(stats, out[i].branch, out[i].name), window)
  }

  /** Every group long enough to be analysed has a record in `out`. */
  ghost predicate Complete(out: seq<MovingAverageRecord>, stats: seq<StatRecord>, window: nat)
  {
    forall b, n :: Group(stats, b, n) != [] && |Group(stats, b, n)| >= 2 * window ==> HasRecord(out, b, n)
  }

  /** `out` has a record for branch `b` and name `n`. */
  ghost predicate HasRecord(out: seq<MovingAverageRecord>, b: string, n: string)
  {
    exists i :: 0 <= i < |out| && out[i].branch == b && out[i].name == n
  }

  // ---------------------------------------------------------------------
  // The inner loop

  ghost predicate NamesAscending(e: seq<MovingAverageRecord>)
  {
    forall i, j :: 0 <= i < j < |e| ==> Less(e[i].name, e[j].name)
  }

  ghost predicate NamesFromRuns(e: seq<MovingAverageRecord>, runs: seq<Run>)
  {
    forall i :: 0 <= i < |e| ==> exists j :: 0 <= j < |runs| && runs[j].key == e[i].name
  }

  ghost predicate RunsEmitted(e: seq<MovingAverageRecord>, runs: seq<Run>, window: nat)
  {
    forall j :: 0 <= j < |runs| && |runs[j].items| >= 2 * window ==>
      exists i :: 0 <= i < |e| && e[i].name == runs[j].key
  }

  ghost predicate SmoothsBranch(e: seq<MovingAverageRecord>, branch: string, records: seq<StatRecord>, window: nat)
  {
    forall i :: 0 <= i < |e| ==> e[i].branch == branch && IsSmoothing(e[i].value, Select(records, Name, e[i].name), window)
  }

  /** Unfolds EmitBranch one run from the end. */
  lemma EmitBranchLast(branch: string, runs: seq<Run>, window: nat)
    requires runs != [] && forall j :: 0 <= j < |runs| ==> runs[j].items != []
    ensures EmitBranch(branch, runs, window)
         == EmitBranch(branch, runs[..|runs| - 1], window) + EmitRun(branch, runs[|runs| - 1], window)
  {
  }

  lemma {:induction false} EmitBranchNames(branch: string, runs: seq<Run>, window: nat)
    requires forall j :: 0 <= j < |runs| ==> runs[j].items != []
    requires Ascending(runs)
    ensures NamesAscending(EmitBranch(branch, runs, window))
    ensures NamesFromRuns(EmitBranch(branch, runs, window), runs)
  {
    if runs != [] {
      var m := |runs| - 1;
      var init := runs[..m];
      assert forall j :: 0 <= j < m ==> init[j] == runs[j];
      EmitBranchNames(branch, init, window);
      var e0 := EmitBranch(branch, init, window);
      var r := EmitRun(branch, runs[m], window);
      var e := e0 + r;
      EmitBranchLast(branch, runs, window);
      forall i, j | 0 <= i < j < |e| ensures Less(e[i].name, e[j].name) {
        if j >= |e0| {
          assert e[j] == r[0] && e[i] == e0[i];
          var jj :| 0 <= jj < |init| && init[jj].key == e0[i].name;
          assert Less(runs[jj].key, runs[m].key);
        } else {
          assert e[i] == e0[i] && e[j] == e0[j];
        }
      }
      forall i | 0 <= i < |e| ensures exists j :: 0 <= j < |runs| && runs[j].key == e[i].name {
        if i >= |e0| {
          assert e[i] == r[0];
          assert runs[m].key == e[i].name;
        } else {
          assert e[i] == e0[i];
          var jj :| 0 <= jj < |init| && init[jj].key == e0[i].name;
          assert runs[jj].key == e[i].name;
        }
      }
    }
  }

  /** Every record emitted for a branch carries that branch. */
  lemma {:induction false} EmitBranchTagged(branch: string, runs: seq<Run>, window: nat)
    requires forall j :: 0 <= j < |runs| ==> runs[j].items != []
    ensures forall i :: 0 <= i < |EmitBranch(branch, runs, window)| ==> EmitBranch(branch, runs, window)[i].branch == branch
  {
    if runs != [] {
      var m := |runs| - 1;
      var init := runs[..m];
      assert forall j :: 0 <= j < m ==> init[j] == runs[j];
      EmitBranchTagged(branch, init, window);
      EmitBranchLast(branch, runs, window);
    }
  }

  lemma {:induction false} EmitBranchEmits(branch: string, runs: seq<Run>, window: nat)
    requires forall j :: 0 <= j < |runs| ==> runs[j].items != []
    ensures RunsEmitted(EmitBranch(branch, runs, window), runs, window)
  {
    if runs != [] {
      var m := |runs| - 1;
      var init := runs[..m];
      assert forall j :: 0 <= j < m ==> init[j] == runs[j];
      EmitBranchEmits(branch, init, window);
      var e0 := EmitBranch(branch, init, window);
      var r := EmitRun(branch, runs[m], window);
      var e := e0 + r;
      EmitBranchLast(branch, runs, window);
      forall j | 0 <= j < |runs| && |runs[j].items| >= 2 * window
        ensures exists i :: 0 <= i < |e| && e[i].name == runs[j].key
      {
        if j == m {
          assert e[|e0|] == r[0];
        } else {
          var i :| 0 <= i < |e0| && e0[i].name == init[j].key;
          assert e[i] == e0[i];
        }
      }
    }
  }

  lemma {:induction false} EmitBranchSmooths(branch: string, runs: seq<Run>, records: seq<StatRecord>, window: nat)
    requires forall j :: 0 <= j < |runs| ==> runs[j].items != []
    requires Exact(runs, records, Name)
    ensures SmoothsBranch(EmitBranch(branch, runs, window), branch, records, window)
  {
    if runs != [] {
      var m := |runs| - 1;
      var init := runs[..m];
      assert forall j :: 0 <= j < m ==> init[j] == runs[j];
      EmitBranchSmooths(branch, init, records, window);
      var e0 := EmitBranch(branch, init, window);
      var r := EmitRun(branch, runs[m], window);
      var e := e0 + r;
      EmitBranchLast(branch, runs, window);
      forall i | 0 <= i < |e|
        ensures e[i].branch == branch && IsSmoothing(e[i].value, Select(records, Name, e[i].name), window)
      {
        if i >= |e0| {
          assert e[i] == r[0];
        } else {
          assert e[i] == e0[i];
        }
      }
    }
  }

  // ---------------------------------------------------------------------
  // One branch group

  /** The records emitted for one branch group carry its branch. */
  lemma OneBranchTagged(run: Run, window: nat)
    ensures forall i :: 0 <= i < |BranchRecords(run, window)| ==> BranchRecords(run, window)[i].branch == run.key
  {
    EmitBranchTagged(run.key, SortedRuns(run.items, Name), window);
  }

  /** The records emitted for one branch group have ascending names. */
  lemma OneBranchNames(run: Run, window: nat)
    ensures NamesAscending(BranchRecords(run, window))
  {
    SortedRunsGroup(run.items, Name);
    EmitBranchNames(run.key, SortedRuns(run.items, Name), window);
  }

  /** Each record emitted for one branch group smooths its name group. */
  lemma OneBranchSmooths(run: Run, window: nat)
    ensures SmoothsBranch(BranchRecords(run, window), run.key, run.items, window)
  {
    SortedRunsGroup(run.items, Name);
    EmitBranchSmooths(run.key, SortedRuns(run.items, Name), run.items, window);
  }

  /** Every long enough name group of one branch group is emitted. */
  lemma OneBranchEmits(run: Run, window: nat)
    ensures forall n :: Select(run.items, Name, n) != [] && |Select(run.items, Name, n)| >= 2 * window ==>
      exists i :: 0 <= i < |BranchRecords(run, window)| && BranchRecords(run, window)[i].name == n
  {
    var nameRuns := SortedRuns(run.items, Name);
    SortedRunsGroup(run.items, Name);
    EmitBranchEmits(run.key, nameRuns, window);
    var e := EmitBranch(run.key, nameRuns, window);
    forall n | Select(run.items, Name, n) != [] && |Select(run.items, Name, n)| >= 2 * window
      ensures exists i :: 0 <= i < |e| && e[i].name == n
    {
      var jj :| 0 <= jj < |nameRuns| && nameRuns[jj].key == n;
      assert nameRuns[jj].items == Select(run.items, Name, n);
    }
    assert e == BranchRecords(run, window);
  }

  // ---------------------------------------------------------------------
  // The outer loop, on blocks of records

  /** A record is in the concatenation iff it is in one of the blocks. */
  lemma {:induction false} ConcatIn(blocks: seq<seq<MovingAverageRecord>>, x: MovingAverageRecord)
    ensures x in Concat(blocks) <==> exists j :: 0 <= j < |blocks| && x in blocks[j]
  {
    if blocks != [] {
      var m := |blocks| - 1;
      var init := blocks[..m];
      ConcatIn(init, x);
      assert forall j :: 0 <= j < m ==> init[j] == blocks[j];
      if x in Concat(blocks) && x !in blocks[m] {
        assert x in Concat(init);
      }
    }
  }

  /** Blocks whose branches ascend and whose names ascend within each block
      concatenate to records in ascending (branch, name) order. */
  lemma {:induction false} ConcatOrder(blocks: seq<seq<MovingAverageRecord>>, keys: seq<string>)
    requires |keys| == |blocks|
    requires forall i, j :: 0 <= i < j < |keys| ==> Less(keys[i], keys[j])
    requires forall j, i :: 0 <= j < |blocks| && 0 <= i < |blocks[j]| ==> blocks[j][i].branch == keys[j]
    requires forall j :: 0 <= j < |blocks| ==> NamesAscending(blocks[j])
    ensures StrictlyAscending(Concat(blocks))
  {
    if blocks != [] {
      var m := |blocks| - 1;
      var init := blocks[..m];
      var o0 := Concat(init);
      var e := blocks[m];
      var out := o0 + e;
      assert out == Concat(blocks);
      assert forall j :: 0 <= j < m ==> init[j] == blocks[j];
      ConcatOrder(init, keys[..m]);
      forall i, j | 0 <= i < j < |out| ensures PairLess(out[i], out[j]) {
        if i >= |o0| {
          assert out[i] == e[i - |o0|] && out[j] == e[j - |o0|];
        } else if j >= |o0| {
          assert out[i] == o0[i] && out[j] == e[j - |o0|];
          ConcatIn(init, o0[i]);
          var jj :| 0 <= jj < m && o0[i] in init[jj];
          var ii :| 0 <= ii < |blocks[jj]| && blocks[jj][ii] == o0[i];
          assert Less(keys[jj], keys[m]);
        } else {
          assert out[i] == o0[i] && out[j] == o0[j];
        }
      }
    }
  }

  /** The keys of the branch groups, in order. */
  function Keys(runs: seq<Run>): (keys: seq<string>)
    ensures |keys| == |runs|
    ensures forall j :: 0 <= j < |runs| ==> keys[j] == runs[j].key
  {
    seq(|runs|, j requires 0 <= j < |runs| => runs[j].key)
  }

  /** What `get_moving_averages` yields: records in ascending (branch, name)
      order, so at most one per pair; each one the smoothing of the values of
      its group -- the input records of that branch and name, in input order --
      which has at least `2 * window` values; and every such group has one. */
  lemma MovingAveragesSpec(stats: seq<StatRecord>, window: nat)
    ensures StrictlyAscending(MovingAverages(stats, window))
    ensures forall i, j :: 0 <= i < j < |MovingAverages(stats, window)| ==>
      (MovingAverages(stats, window)[i].branch, MovingAverages(stats, window)[i].name)
      != (MovingAverages(stats, window)[j].branch, MovingAverages(stats, window)[j].name)
    ensures AllSmooth(MovingAverages(stats, window), stats, window)
    ensures Complete(MovingAverages(stats, window), stats, window)
  {
    MovingAveragesOrder(stats, window);
    MovingAveragesDistinct(MovingAverages(stats, window));
    MovingAveragesSmooth(stats, window);
    MovingAveragesComplete(stats, window);
  }

  /** Ascending order leaves at most one record per (branch, name) pair. */
  lemma MovingAveragesDistinct(out: seq<MovingAverageRecord>)
    requires StrictlyAscending(out)
    ensures forall i, j :: 0 <= i < j < |out| ==> (out[i].branch, out[i].name) != (out[j].branch, out[j].name)
  {
    forall i, j | 0 <= i < j < |out|
      ensures (out[i].branch, out[i].name) != (out[j].branch, out[j].name)
    {
      assert PairLess(out[i], out[j]);
      LessIrreflexive(out[i].branch);
      LessIrreflexive(out[i].name);
    }
  }

  /** Each record smooths the values of its (branch, name) group. */
  lemma MovingAveragesSmooth(stats: seq<StatRecord>, window: nat)
    ensures AllSmooth(MovingAverages(stats, window), stats, window)
  {
    var branchRuns := SortedRuns(stats, Branch);
    var blocks := Blocks(branchRuns, window);
    var out := Concat(blocks);
    assert out == MovingAverages(stats, window);
    SortedRunsGroup(stats, Branch);
    forall i | 0 <= i < |out|
      ensures IsSmoothing(out[i].value, Group(stats, out[i].branch, out[i].name), window)
    {
      ConcatIn(blocks, out[i]);
      var j :| 0 <= j < |blocks| && out[i] in blocks[j];
      var run := branchRuns[j];
      OneBranchTagged(run, window);
      OneBranchSmooths(run, window);
      var k :| 0 <= k < |blocks[j]| && blocks[j][k] == out[i];
      assert run.items == Select(stats, Branch, run.key);
    }
  }

  /** Every (branch, name) group with at least `2 * window` records has a record. */
  lemma MovingAveragesComplete(stats: seq<StatRecord>, window: nat)
    ensures Complete(MovingAverages(stats, window), stats, window)
  {
    forall b, n | Group(stats, b, n) != [] && |Group(stats, b, n)| >= 2 * window
      ensures HasRecord(MovingAverages(stats, window), b, n)
    {
      GroupEmitted(stats, window, b, n);
    }
  }

  lemma GroupEmitted(stats: seq<StatRecord>, window: nat, b: string, n: string)
    requires Group(stats, b, n) != [] && |Group(stats, b, n)| >= 2 * window
    ensures HasRecord(MovingAverages(stats, window), b, n)
  {
    var branchRuns := SortedRuns(stats, Branch);
    var blocks := Blocks(branchRuns, window);
    var j := BranchRunOf(stats, b);
    var run := branchRuns[j];
    assert Group(stats, b, n) == Select(run.items, Name, n);
    OneBranchTagged(run, window);
    OneBranchEmits(run, window);
    assert blocks[j] == BranchRecords(run, window);
    var k :| 0 <= k < |blocks[j]| && blocks[j][k].name == n;
    InBlock(blocks, j, k);
    var i :| 0 <= i < |Concat(blocks)| && Concat(blocks)[i] == blocks[j][k];
    assert MovingAverages(stats, window) == Concat(blocks);
    assert MovingAverages(stats, window)[i] == blocks[j][k];
  }

  /** The branch group of a branch that occurs in `stats`. */
  lemma BranchRunOf(stats: seq<StatRecord>, b: string) returns (j: nat)
    requires Select(stats, Branch, b) != []
    ensures j < |SortedRuns(stats, Branch)| && SortedRuns(stats, Branch)[j].key == b
    ensures SortedRuns(stats, Branch)[j].items == Select(stats, Branch, b)
  {
    SortedRunsGroup(stats, Branch);
    var runs := SortedRuns(stats, Branch);
    j :| 0 <= j < |runs| && runs[j].key == b;
  }

  /** A record of one block appears in the concatenation. */
  lemma InBlock(blocks: seq<seq<MovingAverageRecord>>, j: nat, k: nat)
    requires j < |blocks| && k < |blocks[j]|
    ensures exists i :: 0 <= i < |Concat(blocks)| && Concat(blocks)[i] == blocks[j][k]
  {
    ConcatIn(blocks, blocks[j][k]);
    assert blocks[j][k] in Concat(blocks);
  }

  /** The records come out in ascending (branch, name) order. */
  lemma MovingAveragesOrder(stats: seq<StatRecord>, window: nat)
    ensures StrictlyAscending(MovingAverages(stats, window))
  {
    var branchRuns := SortedRuns(stats, Branch);
    var blocks := Blocks(branchRuns, window);
    SortedRunsGroup(stats, Branch);
    forall j | 0 <= j < |blocks|
      ensures NamesAscending(blocks[j])
      ensures forall i :: 0 <= i < |blocks[j]| ==> blocks[j][i].branch == branchRuns[j].key
    {
      OneBranchNames(branchRuns[j], window);
      OneBranchTagged(branchRuns[j], window);
    }
    ConcatOrder(blocks, Keys(branchRuns));
  }

  /** One more name group in the inner loop. */
  lemma EmitBranchStep(branch: string, runs: seq<Run>, j: nat, window: nat)
    requires j < |runs| && forall i :: 0 <= i < |runs| ==> runs[i].items != []
    ensures EmitBranch(branch, runs[..j + 1], window) == EmitBranch(branch, runs[..j], window) + EmitRun(branch, runs[j], window)
  {
    assert runs[..j + 1][..j] == runs[..j];
    EmitBranchLast(branch, runs[..j + 1], window);
  }

  /** One more block in the outer loop. */
  lemma ConcatStep(blocks: seq<seq<MovingAverageRecord>>, i: nat)
    requires i < |blocks|
    ensures Concat(blocks[..i + 1]) == Concat(blocks[..i]) + blocks[i]
  {
    assert blocks[..i + 1][..i] == blocks[..i];
  }

  /** `get_moving_averages(stats_data, window)`: the outer loop over the
      branch groups. What its output means is `MovingAveragesSpec`. */
  method GetMovingAverages(stats: seq<StatRecord>, window: nat) returns (out: seq<MovingAverageRecord>)
    ensures out == MovingAverages(stats, window)
  {
    out := [];
    var branchRuns := SortedRuns(stats, Branch);
    ghost var blocks := Blocks(branchRuns, window);
    for i := 0 to |branchRuns|
      invariant out == Concat(blocks[..i])
    {
      var records := BranchMovingAverages(branchRuns[i].key, SortedRuns(branchRuns[i].items, Name), window);
      out := out + records;
      ConcatStep(blocks, i);
    }
    assert blocks[..|branchRuns|] == blocks;
  }

  /** The inner loop of `get_moving_averages` over the name groups of one branch. */
  method BranchMovingAverages(branch: string, nameRuns: seq<Run>, window: nat) returns (out: seq<MovingAverageRecord>)
    requires forall j :: 0 <= j < |nameRuns| ==> nameRuns[j].items != []
    ensures out == EmitBranch(branch, nameRuns, window)
  {
    out := [];
    for j := 0 to |nameRuns|
      invariant out == EmitBranch(branch, nameRuns[..j], window)
    {
      EmitBranchStep(branch, nameRuns, j, window);
      var values := Values(nameRuns[j].items);
      if |values| < 2 * window {
        continue;
      }
      var movingAverage := HoltWintersSecondOrderEwma(values, window, BETA);
      out := out + [MovingAverageRecord(branch, nameRuns[j].key, movingAverage[..])];
    }
    assert nameRuns[..|nameRuns|] == nameRuns;
  }
}
