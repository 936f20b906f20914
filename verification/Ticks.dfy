/** Timer ticks on one event loop. A tick runs until its next await and may then be
    overtaken by other ticks; the flag is read and set without an await in between. */
module Ticks {
  import opened Common
  import opened Polling
  import Database
  import Replay

  /** Where a suspended tick stands: inside, before each of its awaits, or gone. */
  datatype Phase =
    | Entered
    | HasCursor(fromBlock: nat)
    | InLoop(chunkStart: nat, head: nat)
    | Gone

  datatype World = World(indexer: Indexer, processing: bool, ticks: map<nat, Phase>)

  datatype Move =
    | Fire(id: nat)
    | ReadCursor(id: nat)
    | ReadHead(id: nat, head: nat)
    | CommitChunk(id: nat)
    | Fail(id: nat, handled: nat)
    | Restart(id: nat, handled: nat)

  predicate Inside(w: World, id: nat) {
    id in w.ticks && !w.ticks[id].Gone?
  }

  /** The `finally` block: the tick is over and the flag is down. */
  function Leave(w: World, id: nat): World {
    w.(processing := false, ticks := w.ticks[id := Gone])
  }

  function ChunkEnd(size: nat, phase: Phase): nat
    requires size >= 1 && phase.InLoop?
  {
    Min(phase.chunkStart + size - 1, phase.head)
  }

  /** An error or a dying process may leave a chunk partly handled. */
  ghost predicate PartlyHandled(blocks: Blocks, size: nat, w: World, id: nat, handled: nat, after: Indexer)
    requires size >= 1
  {
    if id in w.ticks && w.ticks[id].InLoop? then
      var crash := Crash(ChunkEnd(size, w.ticks[id]), handled);
      Enabled(w.indexer, blocks, crash) && after == Take(w.indexer, blocks, crash)
    else
      after == w.indexer
  }

  ghost predicate Next(blocks: Blocks, size: nat, w: World, move: Move, v: World)
    requires size >= 1
  {
    match move
    case Fire(id) =>
      && id !in w.ticks
      && v == if w.processing then w.(ticks := w.ticks[id := Gone])
              else w.(processing := true, ticks := w.ticks[id := Entered])
    case ReadCursor(id) =>
      id in w.ticks && w.ticks[id].Entered? && v == w.(ticks := w.ticks[id := HasCursor(w.indexer.next)])
    case ReadHead(id, head) =>
      && id in w.ticks && w.ticks[id].HasCursor? && head < |blocks|
      && v == if w.ticks[id].fromBlock > head then Leave(w, id)
              else w.(ticks := w.ticks[id := InLoop(w.ticks[id].fromBlock, head)])
    case CommitChunk(id) =>
      && id in w.ticks && w.ticks[id].InLoop?
      && var t := w.ticks[id];
         var end := ChunkEnd(size, t);
         && t.chunkStart <= end < |blocks|
         && var indexer := Indexer(Database.Fold(w.indexer.db, Range(blocks, t.chunkStart, end + 1)), end + 1);
            v == if t.chunkStart + size <= t.head
                 then w.(indexer := indexer, ticks := w.ticks[id := InLoop(t.chunkStart + size, t.head)])
                 else Leave(w.(indexer := indexer), id)
    case Fail(id, handled) =>
      && Inside(w, id) && v == Leave(w.(indexer := v.indexer), id)
      && PartlyHandled(blocks, size, w, id, handled, v.indexer)
    case Restart(id, handled) =>
      && v == World(v.indexer, false, map[])
      && PartlyHandled(blocks, size, w, id, handled, v.indexer)
  }

  ghost predicate Trace(blocks: Blocks, size: nat, worlds: seq<World>, moves: seq<Move>)
    requires size >= 1
  {
    && |worlds| == |moves| + 1
    && forall i | 0 <= i < |moves| :: Next(blocks, size, worlds[i], moves[i], worlds[i + 1])
  }

  predicate Start(w: World) {
    !w.processing && w.ticks == map[]
  }

  /** At most one tick is inside, exactly while the flag is up, and the cursor it read is
      the cursor that is stored. */
  ghost predicate Safe(blocks: Blocks, w: World) {
    && (forall a, b | Inside(w, a) && Inside(w, b) :: a == b)
    && (w.processing <==> exists a :: Inside(w, a))
    && (forall a | a in w.ticks ::
          && (w.ticks[a].HasCursor? ==> w.ticks[a].fromBlock == w.indexer.next)
          && (w.ticks[a].InLoop? ==> w.ticks[a].chunkStart == w.indexer.next <= w.ticks[a].head < |blocks|))
  }

  lemma SafeStep(blocks: Blocks, size: nat, w: World, move: Move, v: World)
    requires size >= 1 && Safe(blocks, w) && Next(blocks, size, w, move, v)
    ensures Safe(blocks, v) && w.indexer.next <= v.indexer.next
  {
    hide Database.Fold;
    match move
    case Fire(id) =>
      assert forall a :: a != id ==> (Inside(v, a) <==> Inside(w, a));
      assert Inside(v, id) <==> !w.processing;
    case ReadCursor(id) =>
      assert Inside(w, id);
      OnlyOne(blocks, w, v, id);
    case ReadHead(id, head) =>
      assert Inside(w, id);
      OnlyOne(blocks, w, v, id);
    case CommitChunk(id) =>
      assert Inside(w, id);
      OnlyOne(blocks, w, v, id);
    case Fail(id, _) => OnlyOne(blocks, w, v, id);
    case Restart(_, _) =>
  }

  /** The only tick inside moves on; the others stay out. */
  lemma OnlyOne(blocks: Blocks, w: World, v: World, id: nat)
    requires Safe(blocks, w) && Inside(w, id)
    requires id in v.ticks && v.ticks == w.ticks[id := v.ticks[id]]
    requires v.processing == Inside(v, id)
    requires v.ticks[id].HasCursor? ==> v.ticks[id].fromBlock == v.indexer.next
    requires v.ticks[id].InLoop? ==> v.ticks[id].chunkStart == v.indexer.next <= v.ticks[id].head < |blocks|
    ensures Safe(blocks, v)
  {
    SameTicks(w, v, id);
    forall a | a in v.ticks && a != id
      ensures v.ticks[a].Gone?
    {
      assert !Inside(v, a);
    }
  }

  /** A step of the only tick inside leaves everybody else outside. */
  lemma SameTicks(w: World, v: World, id: nat)
    requires forall a, b | Inside(w, a) && Inside(w, b) :: a == b
    requires Inside(w, id) && id in v.ticks && v.ticks == w.ticks[id := v.ticks[id]]
    ensures forall a | Inside(v, a) :: a == id
    ensures Inside(v, id) <==> exists a :: Inside(v, a)
  {
    forall a | Inside(v, a)
      ensures a == id
    {
      assert a == id || Inside(w, a);
    }
  }

  /** Mutual exclusion over every interleaving of any number of ticks, with failures and
      restarts anywhere: never two ticks inside, no stale cursor, no backward cursor. */
  lemma {:induction false} MutualExclusion(blocks: Blocks, size: nat, worlds: seq<World>, moves: seq<Move>)
    requires size >= 1 && Trace(blocks, size, worlds, moves) && Start(worlds[0])
    ensures Safe(blocks, worlds[|moves|])
    ensures worlds[0].indexer.next <= worlds[|moves|].indexer.next
  {
    if moves != [] {
      var n := |moves| - 1;
      assert Trace(blocks, size, worlds[..n + 1], Front(moves));
      MutualExclusion(blocks, size, worlds[..n + 1], Front(moves));
      SafeStep(blocks, size, worlds[n], moves[n], worlds[n + 1]);
    }
  }

  /** No tick writes a cursor it did not read: a chunk is committed exactly from the
      stored cursor, so it is one step of the indexer. */
  lemma CommitsAreSteps(blocks: Blocks, size: nat, w: World, move: Move, v: World)
    requires size >= 1 && Safe(blocks, w) && Next(blocks, size, w, move, v)
    ensures v.indexer == w.indexer
         || exists s: Step :: Enabled(w.indexer, blocks, s) && v.indexer == Take(w.indexer, blocks, s)
  {
    hide Database.Fold;
    if move.CommitChunk? {
      var s := Commit(ChunkEnd(size, w.ticks[move.id]));
      assert Enabled(w.indexer, blocks, s) && v.indexer == Take(w.indexer, blocks, s);
    } else if (move.Fail? || move.Restart?) && move.id in w.ticks && w.ticks[move.id].InLoop? {
      var s := Crash(ChunkEnd(size, w.ticks[move.id]), move.handled);
      assert Enabled(w.indexer, blocks, s) && v.indexer == Take(w.indexer, blocks, s);
    }
  }

  /** Every interleaving is, for the stored tables and cursor, a run of single steps. */
  lemma {:induction false} InterleavingsAreRuns(blocks: Blocks, size: nat, worlds: seq<World>, moves: seq<Move>)
    returns (states: seq<Indexer>, steps: seq<Step>)
    requires size >= 1 && Trace(blocks, size, worlds, moves) && Start(worlds[0])
    ensures Run(blocks, states, steps)
    ensures states[0] == worlds[0].indexer && states[|steps|] == worlds[|moves|].indexer
  {
    if moves == [] {
      states, steps := [worlds[0].indexer], [];
    } else {
      var n := |moves| - 1;
      var earlier := worlds[..n + 1];
      assert Trace(blocks, size, earlier, Front(moves));
      states, steps := InterleavingsAreRuns(blocks, size, earlier, Front(moves));
      MutualExclusion(blocks, size, earlier, Front(moves));
      CommitsAreSteps(blocks, size, worlds[n], moves[n], worlds[n + 1]);
      if worlds[n + 1].indexer != worlds[n].indexer {
        var s: Step :| Enabled(worlds[n].indexer, blocks, s) && worlds[n + 1].indexer == Take(worlds[n].indexer, blocks, s);
        ExtendRun(blocks, states, steps, s);
        states, steps := states + [worlds[n + 1].indexer], steps + [s];
      }
    }
  }

  lemma ExtendRun(blocks: Blocks, states: seq<Indexer>, steps: seq<Step>, s: Step)
    requires Run(blocks, states, steps) && Enabled(states[|steps|], blocks, s)
    ensures Run(blocks, states + [Take(states[|steps|], blocks, s)], steps + [s])
  {
    hide Take;
    var more, next := states + [Take(states[|steps|], blocks, s)], steps + [s];
    forall i | 0 <= i < |next|
      ensures Enabled(more[i], blocks, next[i]) && more[i + 1] == Take(more[i], blocks, next[i])
    {
      if i < |steps| {
        assert more[i] == states[i] && more[i + 1] == states[i + 1] && next[i] == steps[i];
      }
    }
  }

  /** Ticks, failures and restarts in any order never put the tables beyond repair. */
  lemma InterleavingsRepairable(blocks: Blocks, size: nat, worlds: seq<World>, moves: seq<Move>) returns (far: nat)
    requires size >= 1 && Trace(blocks, size, worlds, moves) && Start(worlds[0])
    requires Database.Valid(worlds[0].indexer.db) && worlds[0].indexer.next <= |blocks|
    requires Replay.WellOrdered(Range(blocks, worlds[0].indexer.next, |blocks|))
    ensures var s, t := worlds[0].indexer, worlds[|moves|].indexer;
      && s.next <= t.next <= far <= |blocks|
      && Database.Core(Database.Fold(t.db, Range(blocks, t.next, far)))
         == Database.Core(Database.Fold(s.db, Range(blocks, s.next, far)))
  {
    hide Database.Fold;
    var states, steps := InterleavingsAreRuns(blocks, size, worlds, moves);
    AlwaysRepairable(blocks, states, steps);
    far := Reach(states[0].next, steps);
  }
}
