/** Polls, chunks and crashes: how the indexer's cursor walks the chain. */
module Polling {
  import opened Common
  import opened Events
  import opened Database
  import opened Replay

  /** The logs of every block, by block number. The chain only grows at its end. */
  type Blocks = seq<seq<Log>>

  /** The tables with the cursor: `next` is one more than the last committed block, or
      the configured start block while there is no cursor yet. */
  datatype Indexer = Indexer(db: Db, next: nat)

  /** All logs of blocks lo up to but not including hi, in order. */
  function Range(blocks: Blocks, lo: nat, hi: nat): (logs: seq<Log>)
    requires lo <= hi <= |blocks|
    decreases hi - lo
  {
    if lo == hi then [] else Range(blocks, lo, hi - 1) + blocks[hi - 1]
  }

  lemma {:induction false} RangeSplit(blocks: Blocks, lo: nat, mid: nat, hi: nat)
    requires lo <= mid <= hi <= |blocks|
    ensures Range(blocks, lo, hi) == Range(blocks, lo, mid) + Range(blocks, mid, hi)
    decreases hi
  {
    if mid < hi {
      RangeSplit(blocks, lo, mid, hi - 1);
    }
  }

  /** Every block stands in the range whole, between the blocks before and after it. */
  lemma BlockInRange(blocks: Blocks, lo: nat, b: nat, hi: nat)
    requires lo <= b < hi <= |blocks|
    ensures Range(blocks, lo, hi) == Range(blocks, lo, b) + blocks[b] + Range(blocks, b + 1, hi)
  {
    OneBlock(blocks, b);
    hide Range;
    RangeSplit(blocks, lo, b, hi);
    RangeSplit(blocks, b, b + 1, hi);
  }

  lemma OneBlock(blocks: Blocks, b: nat)
    requires b < |blocks|
    ensures Range(blocks, b, b + 1) == blocks[b]
  {
    assert Range(blocks, b, b) == [];
  }

  /** How many logs there are from block lo up to block b. */
  function Count(blocks: Blocks, lo: nat, b: nat): nat
    requires lo <= b <= |blocks|
  {
    if lo == b then 0 else Count(blocks, lo, b - 1) + |blocks[b - 1]|
  }

  /** Each log of each block from lo up to hi is there at its own place, in the order of the
      chain, and there are no more places. */
  ghost predicate HoldsEachLog(blocks: Blocks, lo: nat, hi: nat, logs: seq<Log>)
    requires lo <= hi <= |blocks|
  {
    && |logs| == Count(blocks, lo, hi)
    && forall b, i | lo <= b < hi && 0 <= i < |blocks[b]| ::
         Count(blocks, lo, b) + i < |logs| && logs[Count(blocks, lo, b) + i] == blocks[b][i]
  }

  lemma {:induction false} EachLogOnce(blocks: Blocks, lo: nat, hi: nat)
    requires lo <= hi <= |blocks|
    ensures HoldsEachLog(blocks, lo, hi, Range(blocks, lo, hi))
    decreases hi
  {
    if lo < hi {
      EachLogOnce(blocks, lo, hi - 1);
    }
  }

  /** And every place of the range is one of these. */
  lemma {:induction false} PlaceInRange(blocks: Blocks, lo: nat, hi: nat, k: nat) returns (b: nat, i: nat)
    requires lo <= hi <= |blocks| && k < |Range(blocks, lo, hi)|
    ensures lo <= b < hi && i < |blocks[b]| && k == Count(blocks, lo, b) + i
    decreases hi
  {
    EachLogOnce(blocks, lo, hi - 1);
    if k < Count(blocks, lo, hi - 1) {
      b, i := PlaceInRange(blocks, lo, hi - 1, k);
    } else {
      b, i := hi - 1, k - Count(blocks, lo, hi - 1);
    }
  }

  /** New blocks do not change what was already there. */
  lemma {:induction false} RangeAppendOnly(blocks: Blocks, more: Blocks, lo: nat, hi: nat)
    requires lo <= hi <= |blocks|
    ensures Range(blocks + more, lo, hi) == Range(blocks, lo, hi)
    decreases hi
  {
    if lo < hi {
      RangeAppendOnly(blocks, more, lo, hi - 1);
    }
  }

  lemma {:induction false} FoldSplit(db: Db, blocks: Blocks, lo: nat, mid: nat, hi: nat)
    requires lo <= mid <= hi <= |blocks|
    ensures Fold(Fold(db, Range(blocks, lo, mid)), Range(blocks, mid, hi)) == Fold(db, Range(blocks, lo, hi))
  {
    RangeSplit(blocks, lo, mid, hi);
    FoldConcat(db, Range(blocks, lo, mid), Range(blocks, mid, hi));
  }

  lemma FoldNothing(db: Db, blocks: Blocks, at: nat)
    requires at <= |blocks|
    ensures Fold(db, Range(blocks, at, at)) == db
  {
  }

  // ---- Crash-free polling -------------------------------------------------------------

  function Min(a: nat, b: nat): nat {
    if a < b then a else b
  }

  /** One poll against a head, chunk by chunk, as the indexer's loop goes. */
  ghost function ChunkedPoll(s: Indexer, blocks: Blocks, head: nat, size: nat): Indexer
    requires size >= 1 && head < |blocks|
    decreases head + 1 - s.next
  {
    if s.next > head then s
    else
      var end := Min(s.next + size - 1, head);
      ChunkedPoll(Indexer(Fold(s.db, Range(blocks, s.next, end + 1)), end + 1), blocks, head, size)
  }

  /** The same poll as one plain fold. */
  ghost function Poll(s: Indexer, blocks: Blocks, head: nat): Indexer
    requires head < |blocks|
  {
    if s.next > head then s
    else Indexer(Fold(s.db, Range(blocks, s.next, head + 1)), head + 1)
  }

  /** The chunk size is not observable. */
  lemma {:induction false} ChunksDoNotShow(s: Indexer, blocks: Blocks, head: nat, size: nat)
    requires size >= 1 && head < |blocks|
    ensures ChunkedPoll(s, blocks, head, size) == Poll(s, blocks, head)
    decreases head + 1 - s.next
  {
    hide Database.Fold;
    if s.next <= head {
      var end := Min(s.next + size - 1, head);
      var t := Indexer(Fold(s.db, Range(blocks, s.next, end + 1)), end + 1);
      ChunksDoNotShow(t, blocks, head, size);
      FoldSplit(s.db, blocks, s.next, end + 1, head + 1);
    }
  }

  /** Where a poll breaks off: after so many chunks, and so many handlers of the next. */
  datatype Fault = Fault(chunks: nat, handled: nat)

  /** A poll that breaks off there, unless it is done before. */
  ghost function FaultyPoll(s: Indexer, blocks: Blocks, head: nat, size: nat, fault: Fault): Indexer
    requires size >= 1 && head < |blocks|
    decreases head + 1 - s.next
  {
    if s.next > head then s
    else
      var end := Min(s.next + size - 1, head);
      var logs := Range(blocks, s.next, end + 1);
      if fault.chunks == 0 then Indexer(Fold(s.db, logs[..Min(fault.handled, |logs|)]), s.next)
      else FaultyPoll(Indexer(Fold(s.db, logs), end + 1), blocks, head, size, Fault(fault.chunks - 1, fault.handled))
  }

  /** What the next turn of the chunk loop leaves to do. */
  lemma NextChunk(s: Indexer, blocks: Blocks, head: nat, size: nat, fault: Option<Fault>)
    requires size >= 1 && head < |blocks|
    ensures s.next > head ==>
      && ChunkedPoll(s, blocks, head, size) == s
      && (fault.Some? ==> FaultyPoll(s, blocks, head, size, fault.value) == s)
    ensures s.next <= head ==>
      var end := Min(s.next + size - 1, head);
      var logs := Range(blocks, s.next, end + 1);
      var t := Indexer(Fold(s.db, logs), end + 1);
      && ChunkedPoll(s, blocks, head, size) == ChunkedPoll(t, blocks, head, size)
      && (fault.Some? ==>
            var Fault(chunks, handled) := fault.value;
            FaultyPoll(s, blocks, head, size, fault.value)
            == if chunks == 0 then Indexer(Fold(s.db, logs[..Min(handled, |logs|)]), s.next)
               else FaultyPoll(t, blocks, head, size, Fault(chunks - 1, handled)))
  {
    hide Database.Fold;
  }

  /** Polls against a list of heads, each seen at some length of the growing chain. */
  ghost function PollAll(s: Indexer, blocks: Blocks, heads: seq<nat>, size: nat): Indexer
    requires size >= 1 && forall i | 0 <= i < |heads| :: heads[i] < |blocks|
  {
    if heads == [] then s
    else ChunkedPoll(PollAll(s, blocks, Front(heads), size), blocks, Last(heads), size)
  }

  function Furthest(next: nat, heads: seq<nat>): nat {
    if heads == [] then next
    else
      var n := Furthest(next, Front(heads));
      if Last(heads) + 1 > n then Last(heads) + 1 else n
  }

  /** Whatever the heads do (grow, stall or go back), the tables are one fold over every
      block from the start to the cursor, each block once and in order, and the cursor
      has reached the furthest head and never moves back. */
  lemma {:induction false} EveryScheduleIsOneFold(s: Indexer, blocks: Blocks, heads: seq<nat>, size: nat)
    requires size >= 1 && s.next <= |blocks| && forall i | 0 <= i < |heads| :: heads[i] < |blocks|
    ensures var t := PollAll(s, blocks, heads, size);
      && t.next == Furthest(s.next, heads)
      && s.next <= t.next <= |blocks|
      && t.db == Fold(s.db, Range(blocks, s.next, t.next))
      && HoldsEachLog(blocks, s.next, t.next, Range(blocks, s.next, t.next))
      && (heads != [] ==> PollAll(s, blocks, Front(heads), size).next <= t.next)
  {
    hide Database.Fold;
    hide HoldsEachLog;
    FoldNothing(s.db, blocks, s.next);
    if heads != [] {
      EveryScheduleIsOneFold(s, blocks, Front(heads), size);
      var m := PollAll(s, blocks, Front(heads), size);
      var head := Last(heads);
      assert heads[|heads| - 1] == head;
      ChunksDoNotShow(m, blocks, head, size);
      if m.next <= head {
        FoldSplit(s.db, blocks, s.next, m.next, head + 1);
      }
    }
    EachLogOnce(blocks, s.next, PollAll(s, blocks, heads, size).next);
  }

  // ---- Crashes ------------------------------------------------------------------------

  /** One chunk from the cursor to block `end`: either it commits, or the process dies
      after `handled` handlers, leaving what they wrote and the old cursor. */
  datatype Step = Commit(end: nat) | Crash(end: nat, handled: nat)

  predicate Enabled(s: Indexer, blocks: Blocks, step: Step) {
    && s.next <= step.end < |blocks|
    && (step.Crash? ==> step.handled <= |Range(blocks, s.next, step.end + 1)|)
  }

  /** What the step delivers to handlers. */
  function Delivered(s: Indexer, blocks: Blocks, step: Step): seq<Log>
    requires Enabled(s, blocks, step)
  {
    var logs := Range(blocks, s.next, step.end + 1);
    if step.Commit? then logs else logs[..step.handled]
  }

  ghost function Take(s: Indexer, blocks: Blocks, step: Step): Indexer
    requires Enabled(s, blocks, step)
  {
    Indexer(Fold(s.db, Delivered(s, blocks, step)), if step.Commit? then step.end + 1 else s.next)
  }

  /** `states` is a run of the indexer through `steps`. */
  ghost predicate Run(blocks: Blocks, states: seq<Indexer>, steps: seq<Step>) {
    && |states| == |steps| + 1
    && forall i | 0 <= i < |steps| ::
         Enabled(states[i], blocks, steps[i]) && states[i + 1] == Take(states[i], blocks, steps[i])
  }

  /** One past the furthest block any step has looked at. */
  function Reach(next: nat, steps: seq<Step>): nat {
    if steps == [] then next
    else
      var n := Reach(next, Front(steps));
      if Last(steps).end + 1 > n then Last(steps).end + 1 else n
  }

  /** Along every run with crashes anywhere, the tables are never wrong beyond repair:
      delivering the blocks between the cursor and the furthest block seen gives what one
      clean pass over the whole chain gives. */
  lemma {:induction false} AlwaysRepairable(blocks: Blocks, states: seq<Indexer>, steps: seq<Step>)
    requires Run(blocks, states, steps)
    requires Valid(states[0].db) && states[0].next <= |blocks|
    requires WellOrdered(Range(blocks, states[0].next, |blocks|))
    ensures var s, t, far := states[0], states[|steps|], Reach(states[0].next, steps);
      && s.next <= t.next <= far <= |blocks|
      && Valid(t.db)
      && Core(Fold(t.db, Range(blocks, t.next, far))) == Core(Fold(s.db, Range(blocks, s.next, far)))
  {
    hide Database.Fold;
    if steps != [] {
      var n := |steps| - 1;
      assert Run(blocks, states[..n + 1], Front(steps));
      AlwaysRepairable(blocks, states[..n + 1], Front(steps));
      var s := states[0];
      StepRepairable(s, states[n], blocks, Reach(s.next, Front(steps)), steps[n]);
    }
  }

  /** One more step, committed or crashed, keeps the tables repairable. */
  lemma StepRepairable(s: Indexer, m: Indexer, blocks: Blocks, far: nat, step: Step)
    requires s.next <= m.next <= far <= |blocks| && Valid(m.db)
    requires WellOrdered(Range(blocks, s.next, |blocks|))
    requires Core(Fold(m.db, Range(blocks, m.next, far))) == Core(Fold(s.db, Range(blocks, s.next, far)))
    requires Enabled(m, blocks, step)
    ensures var t := Take(m, blocks, step);
      var reach := if step.end + 1 > far then step.end + 1 else far;
      && t.next <= reach && Valid(t.db)
      && Core(Fold(t.db, Range(blocks, t.next, reach))) == Core(Fold(s.db, Range(blocks, s.next, reach)))
  {
    hide Database.Fold;
    var t := Take(m, blocks, step);
    var reach := if step.end + 1 > far then step.end + 1 else far;
    LinksGrow(m.db, Delivered(m, blocks, step));
    FoldSplit(m.db, blocks, m.next, far, reach);
    FoldSplit(s.db, blocks, s.next, far, reach);
    CoreCongruent(Fold(m.db, Range(blocks, m.next, far)), Fold(s.db, Range(blocks, s.next, far)),
                  Range(blocks, far, reach));
    if step.Commit? {
      FoldSplit(m.db, blocks, m.next, t.next, reach);
    } else {
      var logs := Range(blocks, m.next, reach);
      RangeSplit(blocks, m.next, step.end + 1, reach);
      assert logs[..step.handled] == Delivered(m, blocks, step);
      RangeWellOrdered(blocks, s.next, m.next, reach);
      CrashAbsorbed(m.db, logs, step.handled);
    }
  }

  lemma RangeWellOrdered(blocks: Blocks, start: nat, lo: nat, hi: nat)
    requires start <= lo <= hi <= |blocks| && WellOrdered(Range(blocks, start, |blocks|))
    ensures WellOrdered(Range(blocks, lo, hi))
  {
    var all := Range(blocks, start, |blocks|);
    RangeSplit(blocks, start, lo, |blocks|);
    RangeSplit(blocks, lo, hi, |blocks|);
    var a, b := |Range(blocks, start, lo)|, |Range(blocks, lo, hi)|;
    assert all[a..a + b] == Range(blocks, lo, hi);
    SliceWellOrdered(all, a, a + b);
  }

  /** Replay convergence: as soon as the cursor has passed every block that a crash left
      partly applied, the tables are those of one clean pass. */
  lemma ReplayConverges(blocks: Blocks, states: seq<Indexer>, steps: seq<Step>)
    requires Run(blocks, states, steps)
    requires Valid(states[0].db) && states[0].next <= |blocks|
    requires WellOrdered(Range(blocks, states[0].next, |blocks|))
    requires forall i | 0 <= i < |steps| :: steps[i].end < states[|steps|].next
    ensures states[0].next <= states[|steps|].next <= |blocks|
    ensures Core(states[|steps|].db)
         == Core(Fold(states[0].db, Range(blocks, states[0].next, states[|steps|].next)))
  {
    AlwaysRepairable(blocks, states, steps);
    ReachBelow(states[0].next, steps, states[|steps|].next);
  }

  lemma {:induction false} ReachBelow(next: nat, steps: seq<Step>, bound: nat)
    requires next <= bound && forall i | 0 <= i < |steps| :: steps[i].end < bound
    ensures Reach(next, steps) <= bound
  {
    if steps != [] {
      assert steps[|steps| - 1].end < bound;
      ReachBelow(next, Front(steps), bound);
    }
  }

  /** A poll that breaks off is a run of committed chunks and at most one crash, so all that
      is said of runs holds for it. */
  lemma {:induction false} FaultyPollIsRun(s: Indexer, blocks: Blocks, head: nat, size: nat, fault: Fault)
    returns (states: seq<Indexer>, steps: seq<Step>)
    requires size >= 1 && head < |blocks|
    ensures Run(blocks, states, steps) && states[0] == s
    ensures states[|steps|] == FaultyPoll(s, blocks, head, size, fault)
    ensures forall i | 0 <= i < |steps| && steps[i].Crash? :: i == |steps| - 1
    decreases head + 1 - s.next
  {
    hide Database.Fold;
    if s.next > head {
      states, steps := [s], [];
    } else {
      var end := Min(s.next + size - 1, head);
      var logs := Range(blocks, s.next, end + 1);
      if fault.chunks == 0 {
        var crash := Crash(end, Min(fault.handled, |logs|));
        states, steps := [s, Take(s, blocks, crash)], [crash];
      } else {
        var step := Commit(end);
        var t := Take(s, blocks, step);
        states, steps := FaultyPollIsRun(t, blocks, head, size, Fault(fault.chunks - 1, fault.handled));
        RunPrepend(blocks, s, step, states, steps);
        states, steps := [s] + states, [step] + steps;
      }
    }
  }

  lemma RunPrepend(blocks: Blocks, s: Indexer, step: Step, states: seq<Indexer>, steps: seq<Step>)
    requires Run(blocks, states, steps) && Enabled(s, blocks, step) && states[0] == Take(s, blocks, step)
    ensures Run(blocks, [s] + states, [step] + steps)
  {
    hide Take;
    hide Enabled;
    var more, next := [s] + states, [step] + steps;
    forall i | 0 <= i < |next|
      ensures Enabled(more[i], blocks, next[i]) && more[i + 1] == Take(more[i], blocks, next[i])
    {
      if i > 0 {
        assert more[i] == states[i - 1] && more[i + 1] == states[i] && next[i] == steps[i - 1];
      }
    }
  }

  // ---- Drift of the unguarded counters ------------------------------------------------

  function ReleasedTotal(catalog: Catalog, logs: seq<Log>, campaign: RowId): nat {
    if logs == [] then 0 else ReleasedTotal(catalog, Front(logs), campaign) + ReleasedBy(catalog, Last(logs), campaign)
  }

  function SubmissionTotal(catalog: Catalog, logs: seq<Log>, row: RowId): nat {
    if logs == [] then 0 else SubmissionTotal(catalog, Front(logs), row) + SubmissionsBy(catalog, Last(logs), row)
  }

  /** Each delivery adds exactly its own released amounts and submissions. */
  lemma {:induction false} CountersAdd(db: Db, logs: seq<Log>, row: RowId)
    ensures var t := Fold(db, logs);
      && t.catalog == db.catalog
      && t.released.Keys == db.released.Keys && t.submissions.Keys == db.submissions.Keys
      && (row in db.released ==> t.released[row] == db.released[row] + ReleasedTotal(db.catalog, logs, row))
      && (row in db.submissions ==> t.submissions[row] == db.submissions[row] + SubmissionTotal(db.catalog, logs, row))
  {
    if logs != [] {
      CountersAdd(db, Front(logs), row);
    }
  }

  lemma {:induction false} TotalsConcat(catalog: Catalog, p: seq<Log>, q: seq<Log>, row: RowId)
    ensures ReleasedTotal(catalog, p + q, row) == ReleasedTotal(catalog, p, row) + ReleasedTotal(catalog, q, row)
    ensures SubmissionTotal(catalog, p + q, row) == SubmissionTotal(catalog, p, row) + SubmissionTotal(catalog, q, row)
  {
    if q == [] {
      assert p + q == p;
    } else {
      assert Front(p + q) == p + Front(q);
      TotalsConcat(catalog, p, Front(q), row);
    }
  }

  /** What the crashed deliveries of a run released, counted again. */
  ghost function CrashedReleases(blocks: Blocks, states: seq<Indexer>, steps: seq<Step>, campaign: RowId): nat
    requires Run(blocks, states, steps)
    decreases |steps|
  {
    if steps == [] then 0
    else
      var n := |steps| - 1;
      CrashedReleases(blocks, states[..n + 1], Front(steps), campaign)
      + if steps[n].Crash?
        then ReleasedTotal(states[n].db.catalog, Delivered(states[n], blocks, steps[n]), campaign)
        else 0
  }

  ghost function CrashedSubmissions(blocks: Blocks, states: seq<Indexer>, steps: seq<Step>, row: RowId): nat
    requires Run(blocks, states, steps)
    decreases |steps|
  {
    if steps == [] then 0
    else
      var n := |steps| - 1;
      CrashedSubmissions(blocks, states[..n + 1], Front(steps), row)
      + if steps[n].Crash?
        then SubmissionTotal(states[n].db.catalog, Delivered(states[n], blocks, steps[n]), row)
        else 0
  }

  /** The released amount and the submission count are those of the committed blocks plus
      exactly what the crashed deliveries added; without crashes they do not drift. */
  lemma {:induction false} ExactDrift(blocks: Blocks, states: seq<Indexer>, steps: seq<Step>, row: RowId)
    requires Run(blocks, states, steps) && states[0].next <= |blocks|
    ensures var s, t := states[0], states[|steps|];
      && s.next <= t.next <= |blocks| && t.db.catalog == s.db.catalog
      && t.db.released.Keys == s.db.released.Keys && t.db.submissions.Keys == s.db.submissions.Keys
      && (row in s.db.released ==>
            t.db.released[row] == s.db.released[row]
            + ReleasedTotal(s.db.catalog, Range(blocks, s.next, t.next), row)
            + CrashedReleases(blocks, states, steps, row))
      && (row in s.db.submissions ==>
            t.db.submissions[row] == s.db.submissions[row]
            + SubmissionTotal(s.db.catalog, Range(blocks, s.next, t.next), row)
            + CrashedSubmissions(blocks, states, steps, row))
  {
    hide Database.Fold;
    if steps != [] {
      var n := |steps| - 1;
      var earlier := states[..n + 1];
      assert Run(blocks, earlier, Front(steps));
      ExactDrift(blocks, earlier, Front(steps), row);
      var s, m, t := states[0], states[n], states[n + 1];
      var logs := Delivered(m, blocks, steps[n]);
      assert t == Take(m, blocks, steps[n]);
      CountersAdd(m.db, logs, row);
      if steps[n].Commit? {
        RangeSplit(blocks, s.next, m.next, t.next);
        TotalsConcat(s.db.catalog, Range(blocks, s.next, m.next), logs, row);
      }
    }
  }
}
