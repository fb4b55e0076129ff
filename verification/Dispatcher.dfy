/**
 The dispatcher hands the blocks of a kernel to the cores and counts them back. With one core every
 block runs exactly once and in order; with several, cores that are reset together share a block.
 */
module Dispatcher {
  import opened Words
  import opened Warp
  import S = Scheduler

  datatype Disp = Disp(
    done: bool, started: bool, dispatched: Word, finished: Word,
    coreReset: seq<bool>, coreStart: seq<bool>, blockId: seq<Word>)

  predicate Valid(d: Disp) {
    |d.coreReset| == |d.coreStart| == |d.blockId|
  }

  datatype Inputs = Inputs(reset: bool, start: bool, total: Word, coreDone: seq<bool>)

  /** A core that is being reset, in a kernel with blocks left. */
  predicate Takes(d: Disp, total: Word, i: nat)
    requires i < |d.coreReset|
  {
    d.coreReset[i] && d.dispatched < total
  }

  predicate Finishes(d: Disp, coreDone: seq<bool>, i: nat)
    requires Valid(d) && i < |d.coreStart| == |coreDone|
  {
    d.coreStart[i] && coreDone[i]
  }

  /** The main part of an edge, while a kernel runs. Every counter is read as it was before. */
  function WorkEdge(d: Disp, io: Inputs): Disp
    requires Valid(d) && |io.coreDone| == |d.coreStart|
  {
    var n := |d.coreStart|;
    var finished := d.finished == io.total && io.total > 0 && !d.done;
    Disp(d.done || finished, !finished,
         if exists i :: 0 <= i < n && Takes(d, io.total, i) then Wrap(d.dispatched + 1) else d.dispatched,
         if exists i :: 0 <= i < n && Finishes(d, io.coreDone, i) then Wrap(d.finished + 1) else d.finished,
         seq(n, i requires 0 <= i < n => Finishes(d, io.coreDone, i)),
         seq(n, i requires 0 <= i < n =>
               !Finishes(d, io.coreDone, i) && (d.coreStart[i] || Takes(d, io.total, i))),
         seq(n, i requires 0 <= i < n => if Takes(d, io.total, i) then d.dispatched else d.blockId[i]))
  }

  function Edge(d: Disp, io: Inputs): Disp
    requires Valid(d) && |io.coreDone| == |d.coreStart|
  {
    var n := |d.coreStart|;
    if io.reset then
      AfterReset(n)
    else if d.started then WorkEdge(d, io)
    else if io.start then d.(started := true, coreReset := seq(n, i => true))
    else d
  }

  /** The registers of core `k` after the dispatching loop, and after the completion loop. */
  predicate Released(d: Disp, total: Word, k: nat, reset: bool, start: bool, id: Word)
    requires Valid(d) && k < |d.coreReset|
  {
    && !reset && start == (d.coreStart[k] || Takes(d, total, k))
    && id == if Takes(d, total, k) then d.dispatched else d.blockId[k]
  }

  predicate Completed(d: Disp, total: Word, coreDone: seq<bool>, k: nat, reset: bool, start: bool, id: Word)
    requires Valid(d) && k < |d.coreReset| == |coreDone|
  {
    && reset == Finishes(d, coreDone, k)
    && start == (!Finishes(d, coreDone, k) && (d.coreStart[k] || Takes(d, total, k)))
    && id == if Takes(d, total, k) then d.dispatched else d.blockId[k]
  }

  lemma AllCompleted(d: Disp, io: Inputs, reset: seq<bool>, start: seq<bool>, id: seq<Word>)
    requires Valid(d) && |io.coreDone| == |d.coreStart| == |reset| == |start| == |id|
    requires forall k :: 0 <= k < |reset| ==> Completed(d, io.total, io.coreDone, k, reset[k], start[k], id[k])
    ensures reset == WorkEdge(d, io).coreReset && start == WorkEdge(d, io).coreStart && id == WorkEdge(d, io).blockId
  {
    hide Takes, Finishes;
  }

  /** The registers after a reset. */
  function AfterReset(cores: nat): (d: Disp)
    ensures Valid(d) && |d.coreStart| == cores
  {
    Disp(false, false, 0, 0, seq(cores, i => true), seq(cores, i => false), seq(cores, i => 0))
  }

  class DispatchUnit {
    var done: bool
    var started: bool
    var dispatched: Word
    var finished: Word
    const coreReset: array<bool>
    const coreStart: array<bool>
    const blockId: array<Word>

    ghost predicate Ready()
      reads this, coreReset, coreStart, blockId
    {
      coreReset.Length == coreStart.Length == blockId.Length && coreReset != coreStart
    }

    ghost function Value(): Disp
      reads this, coreReset, coreStart, blockId
    {
      Disp(done, started, dispatched, finished, coreReset[..], coreStart[..], blockId[..])
    }

    constructor (cores: nat)
      ensures Ready() && Value() == AfterReset(cores)
      ensures fresh(coreReset) && fresh(coreStart) && fresh(blockId)
    {
      done, started, dispatched, finished := false, false, 0, 0;
      coreReset := new bool[cores](i => true);
      coreStart := new bool[cores](i => false);
      blockId := new Word[cores](i => 0);
    }

    /** A core that is being reset is let go, with a block if there is one; all read the same counter. */
    method Dispatch(ghost d: Disp, total: Word)
      requires Ready() && Valid(d) && |d.coreReset| == coreReset.Length
      requires coreReset[..] == d.coreReset && coreStart[..] == d.coreStart && blockId[..] == d.blockId
      requires dispatched == d.dispatched
      modifies this`dispatched, coreReset, coreStart, blockId
      ensures Ready()
      ensures dispatched == if exists k :: 0 <= k < coreReset.Length && Takes(d, total, k)
                            then Wrap(d.dispatched + 1) else d.dispatched
      ensures forall k :: 0 <= k < coreReset.Length ==> Released(d, total, k, coreReset[k], coreStart[k], blockId[k])
    {
      var wasDispatched: int := dispatched;
      for i := 0 to coreReset.Length
        invariant dispatched == if exists k :: 0 <= k < i && Takes(d, total, k)
                                then Wrap(d.dispatched + 1) else d.dispatched
        invariant forall k :: i <= k < coreReset.Length ==>
          coreReset[k] == d.coreReset[k] && coreStart[k] == d.coreStart[k] && blockId[k] == d.blockId[k]
        invariant forall k :: 0 <= k < i ==> Released(d, total, k, coreReset[k], coreStart[k], blockId[k])
      {
        assert Takes(d, total, i) == (coreReset[i] && wasDispatched < total);
        if coreReset[i] {
          coreReset[i] := false;
          if wasDispatched < total {
            coreStart[i] := true;
            blockId[i] := wasDispatched;
            dispatched := Wrap(wasDispatched + 1);
          }
        }
      }
    }

    /** A core that was running and is done is reset and stopped; all read the same counter. */
    method Complete(ghost d: Disp, was: seq<bool>, total: Word, coreDone: seq<bool>)
      requires Ready() && Valid(d) && |d.coreReset| == coreReset.Length == |coreDone| && was == d.coreStart
      requires forall k :: 0 <= k < coreReset.Length ==> Released(d, total, k, coreReset[k], coreStart[k], blockId[k])
      requires finished == d.finished
      modifies this`finished, coreReset, coreStart
      ensures Ready()
      ensures finished == if exists k :: 0 <= k < coreReset.Length && Finishes(d, coreDone, k)
                          then Wrap(d.finished + 1) else d.finished
      ensures forall k :: 0 <= k < coreReset.Length ==>
        Completed(d, total, coreDone, k, coreReset[k], coreStart[k], blockId[k])
    {
      var wasFinished: int := finished;
      for i := 0 to coreReset.Length
        invariant finished == if exists k :: 0 <= k < i && Finishes(d, coreDone, k)
                              then Wrap(d.finished + 1) else d.finished
        invariant forall k :: i <= k < coreReset.Length ==>
          Released(d, total, k, coreReset[k], coreStart[k], blockId[k])
        invariant forall k :: 0 <= k < i ==> Completed(d, total, coreDone, k, coreReset[k], coreStart[k], blockId[k])
      {
        assert Finishes(d, coreDone, i) == (was[i] && coreDone[i]);
        if was[i] && coreDone[i] {
          coreReset[i] := true;
          coreStart[i] := false;
          finished := Wrap(wasFinished + 1);
        }
      }
    }

    method Work(io: Inputs)
      requires Ready() && |io.coreDone| == coreStart.Length
      modifies this, coreReset, coreStart, blockId
      ensures Ready() && Value() == WorkEdge(old(Value()), io)
    {
      hide Takes, Finishes;
      ghost var d := Value();
      var was, last := coreStart[..], finished == io.total && io.total > 0 && !done;
      if last {
        done := true;
      }
      started := !last;
      Dispatch(d, io.total);
      Complete(d, was, io.total, io.coreDone);
      AllCompleted(d, io, coreReset[..], coreStart[..], blockId[..]);
    }

    method Clock(io: Inputs)
      requires Ready() && |io.coreDone| == coreStart.Length
      modifies this, coreReset, coreStart, blockId
      ensures Ready() && Value() == Edge(old(Value()), io)
    {
      hide WorkEdge;
      if io.reset {
        done, started, dispatched, finished := false, false, 0, 0;
        for i := 0 to coreReset.Length
          modifies coreReset, coreStart, blockId
          invariant forall k :: 0 <= k < i ==> coreReset[k] && !coreStart[k] && blockId[k] == 0
        {
          coreReset[i], coreStart[i], blockId[i] := true, false, 0;
        }
      } else if started {
        Work(io);
      } else if io.start {
        started := true;
        for i := 0 to coreReset.Length
          modifies coreReset
          invariant forall k :: 0 <= k < i ==> coreReset[k]
        {
          coreReset[i] := true;
        }
      }
    }
  }

  // ----- One core -----

  /** The dispatcher, its only core, and the ids of the blocks that the core has started so far. */
  datatype System = System(disp: Disp, core: S.Sched, begun: seq<Word>)

  predicate Fits(s: System, n: nat) {
    Valid(s.disp) && |s.disp.coreReset| == 1 && S.Invariant(s.core, n)
  }

  datatype Outside = Outside(reset: bool, start: bool, signals: S.Signals)

  /** The core takes a block at an edge at which it is stopped, not reset, and told to start. */
  predicate Begins(s: System)
    requires Valid(s.disp) && |s.disp.coreReset| == 1
  {
    !s.disp.coreReset[0] && !s.core.running && s.disp.coreStart[0]
  }

  /** The edge of both: core_reset and core_start feed the core, its `done` feeds the dispatcher. */
  function SystemEdge(s: System, n: nat, total: Word, o: Outside): System
    requires Fits(s, n) && |o.signals.fetched| == |s.core.warps|
  {
    var signals := o.signals.(reset := s.disp.coreReset[0], start := s.disp.coreStart[0]);
    System(Edge(s.disp, Inputs(o.reset, o.start, total, [s.core.done])),
           S.Edge(s.core, n, signals),
           if o.reset then [] else if Begins(s) then s.begun + [s.disp.blockId[0]] else s.begun)
  }

  predicate Counting(ids: seq<Word>) {
    forall k :: 0 <= k < |ids| ==> ids[k] == k
  }

  /**
   Blocks are begun in order from 0 on, each once; a block is under way exactly while core_start is
   up; none is counted before its core is done, nor twice; and `done` means that all are finished.
   */
  predicate Safe(s: System, n: nat, total: Word) {
    && Fits(s, n)
    && var d, reset, start := s.disp, s.disp.coreReset[0], s.disp.coreStart[0];
    && d.dispatched == d.finished + (if start then 1 else 0) && d.dispatched <= total
    && !(reset && start)
    && Counting(s.begun)
    && |s.begun| == d.dispatched - (if start && !s.core.running then 1 else 0)
    && (start ==> d.started && d.blockId[0] == d.dispatched - 1)
    && (start && !s.core.running ==> !s.core.done)
    && (!reset && !start ==> d.dispatched == total)
    && (d.done ==> total > 0 && d.finished == total)
  }

  lemma ResetSafe(s: System, n: nat, total: Word, o: Outside)
    requires Fits(s, n) && |o.signals.fetched| == |s.core.warps| && o.reset
    ensures Safe(SystemEdge(s, n, total, o), n, total)
  {
    hide S.Edge, S.Invariant;
    S.EdgeKeeps(s.core, n, o.signals.(reset := s.disp.coreReset[0], start := s.disp.coreStart[0]));
  }

  /** What the core does at an edge, as far as the dispatcher can tell. */
  lemma CoreEdge(c: S.Sched, n: nat, g: S.Signals)
    requires S.Invariant(c, n) && |g.fetched| == |c.warps|
    ensures var e := S.Edge(c, n, g);
            && S.Invariant(e, n) && |e.warps| == |c.warps|
            && (g.reset ==> !e.running && !e.done)
            && (!g.reset && !c.running && !g.start ==> e == c)
            && (!g.reset && !c.running && g.start ==> e.running && e.done == c.done)
            && (!g.reset && c.running ==> e.running)
  {
    S.EdgeSize(c, n, g);
    hide S.Invariant, S.Search, S.Fetches, Advance, S.AllDone;
    S.EdgeKeeps(c, n, g);
  }

  /** Every edge keeps the dispatcher safe, whatever the warps do and however long they take. */
  lemma EdgeSafe(s: System, n: nat, total: Word, o: Outside)
    requires Safe(s, n, total) && |o.signals.fetched| == |s.core.warps|
    ensures Safe(SystemEdge(s, n, total, o), n, total)
    ensures |SystemEdge(s, n, total, o).core.warps| == |s.core.warps|
  {
    hide S.Edge, S.Invariant;
    CoreEdge(s.core, n, o.signals.(reset := s.disp.coreReset[0], start := s.disp.coreStart[0]));
    if o.reset {
      ResetSafe(s, n, total, o);
    } else if s.disp.started {
      var d := s.disp;
      assert Takes(d, total, 0) == (d.coreReset[0] && d.dispatched < total);
      assert Finishes(d, [s.core.done], 0) == (d.coreStart[0] && s.core.done);
    }
  }

  /** A block is counted at one edge only, and then every warp of the core is done with it. */
  lemma CountedWhenDone(s: System, n: nat, total: Word, o: Outside)
    requires Safe(s, n, total) && |o.signals.fetched| == |s.core.warps| && !o.reset
    requires SystemEdge(s, n, total, o).disp.finished != s.disp.finished
    ensures s.core.running && S.AllDone(s.core.warps, n)
    ensures s.disp.blockId[0] == s.disp.finished && SystemEdge(s, n, total, o).disp.finished == s.disp.finished + 1
    ensures SystemEdge(s, n, total, o).disp.coreReset[0] && !SystemEdge(s, n, total, o).disp.coreStart[0]
  {
    hide S.Edge;
    assert Finishes(s.disp, [s.core.done], 0);
  }

  function Run(s: System, n: nat, total: Word, os: seq<Outside>): System
    requires Safe(s, n, total) && forall i :: 0 <= i < |os| ==> |os[i].signals.fetched| == |s.core.warps|
    decreases os
  {
    if os == [] then s else
    EdgeSafe(s, n, total, os[0]);
    Run(SystemEdge(s, n, total, os[0]), n, total, os[1..])
  }

  /** Over any run: the blocks begun are 0, 1, 2, ... and when `done` is up they are all of them. */
  lemma {:induction false} RunSafe(s: System, n: nat, total: Word, os: seq<Outside>)
    requires Safe(s, n, total) && forall i :: 0 <= i < |os| ==> |os[i].signals.fetched| == |s.core.warps|
    ensures var end := Run(s, n, total, os);
            && Safe(end, n, total) && Counting(end.begun)
            && (end.disp.done ==> |end.begun| == total == end.disp.finished)
    decreases os
  {
    hide SystemEdge;
    if os != [] {
      EdgeSafe(s, n, total, os[0]);
      RunSafe(SystemEdge(s, n, total, os[0]), n, total, os[1..]);
    }
  }

  // ----- The kernel comes to its end -----

  /** A block is under way and its core has not reported it done. */
  predicate Working(s: System)
    requires Valid(s.disp) && |s.disp.coreReset| == 1
  {
    s.disp.coreStart[0] && s.core.running && !s.core.done
  }

  /** A kernel has been asked for and is not over. */
  predicate Serving(s: System, n: nat, total: Word) {
    Safe(s, n, total) && s.disp.started && !s.disp.done
  }

  /** Four edges of the dispatcher for each block not yet counted, less those already behind. */
  function Remaining(s: System, total: Word): int
    requires Valid(s.disp) && |s.disp.coreReset| == 1
  {
    4 * (total - s.disp.finished)
    + if !s.disp.coreStart[0] then 3 else if !s.core.running then 2 else if !s.core.done then 1 else 0
  }

  /** While a block is under way the dispatcher waits; at every other edge it gets nearer to the end. */
  lemma ServingNearer(s: System, n: nat, total: Word, o: Outside)
    requires Serving(s, n, total) && |o.signals.fetched| == |s.core.warps| && !o.reset
    ensures var t := SystemEdge(s, n, total, o);
            if s.disp.finished == total && total > 0 then t.disp.done
            else if s.disp.finished < total then
              && Serving(t, n, total) && 0 <= Remaining(t, total) <= Remaining(s, total)
              && ((Working(s) && Working(t)) || Remaining(t, total) < Remaining(s, total))
            else true
  {
    hide S.Edge, S.Invariant;
    EdgeSafe(s, n, total, o);
    CoreEdge(s.core, n, o.signals.(reset := s.disp.coreReset[0], start := s.disp.coreStart[0]));
    var d := s.disp;
    assert Takes(d, total, 0) == (d.coreReset[0] && d.dispatched < total);
    assert Finishes(d, [s.core.done], 0) == (d.coreStart[0] && s.core.done);
  }

  /** The system after `t` edges of an unending input. */
  function StateAt(s: System, n: nat, total: Word, os: nat -> Outside, t: nat): (r: System)
    requires Safe(s, n, total) && forall i: nat :: |os(i).signals.fetched| == |s.core.warps|
    ensures Safe(r, n, total) && |r.core.warps| == |s.core.warps|
  {
    if t == 0 then s else
    var before := StateAt(s, n, total, os, t - 1);
    EdgeSafe(before, n, total, os(t - 1));
    SystemEdge(before, n, total, os(t - 1))
  }

  /** No reset, and whenever a block is under way its warps are all DONE at some later edge. */
  ghost predicate BlocksEnd(s: System, n: nat, total: Word, os: nat -> Outside) {
    && Safe(s, n, total) && (forall i: nat :: |os(i).signals.fetched| == |s.core.warps|)
    && (forall i: nat :: !os(i).reset)
    && forall i: nat :: Working(StateAt(s, n, total, os, i)) ==>
         exists j: nat :: i <= j && S.AllDone(StateAt(s, n, total, os, j).core.warps, n)
  }

  lemma StateNext(s: System, n: nat, total: Word, os: nat -> Outside, i: nat)
    requires Safe(s, n, total) && forall i: nat :: |os(i).signals.fetched| == |s.core.warps|
    ensures var x := StateAt(s, n, total, os, i); StateAt(s, n, total, os, i + 1) == SystemEdge(x, n, total, os(i))
  {
  }

  lemma {:induction false} WaitOver(s: System, n: nat, total: Word, os: nat -> Outside, i: nat, j: nat)
    returns (k: nat)
    requires BlocksEnd(s, n, total, os) && i <= j && S.AllDone(StateAt(s, n, total, os, j).core.warps, n)
    requires var x := StateAt(s, n, total, os, i);
             Serving(x, n, total) && Working(x) && x.disp.finished < total
    ensures var x, y := StateAt(s, n, total, os, i), StateAt(s, n, total, os, k);
            i < k && Serving(y, n, total) && 0 <= Remaining(y, total) < Remaining(x, total)
    decreases j - i
  {
    hide SystemEdge, Remaining, Counting, S.AllDone, StateAt, Working;
    var x := StateAt(s, n, total, os, i);
    var y := StateAt(s, n, total, os, i + 1);
    StateNext(s, n, total, os, i);
    ServingNearer(x, n, total, os(i));
    k := i + 1;
    if Working(y) {
      WorkingDone(x, n, total, os(i));
      WorkingCounts(y, n, total);
      k := WaitOver(s, n, total, os, i + 1, j);
    } else {
      WorkingCounts(y, n, total);
    }
  }

  /** A core whose warps are all DONE reports it at the next edge. */
  lemma WorkingDone(s: System, n: nat, total: Word, o: Outside)
    requires Serving(s, n, total) && Working(s) && |o.signals.fetched| == |s.core.warps| && !o.reset
    ensures S.AllDone(s.core.warps, n) ==> !Working(SystemEdge(s, n, total, o))
  {
    hide Takes, Finishes, S.Fetches, Advance, S.Search;
  }

  lemma WorkingCounts(s: System, n: nat, total: Word)
    requires Serving(s, n, total)
    ensures s.disp.finished <= total && (Working(s) ==> s.disp.finished < total)
  {
  }

  /**
   A kernel with blocks to run comes to its end: if the warps of every block that is begun get to DONE,
   however long they take, `done` rises.
   */
  lemma {:induction false} KernelEnds(s: System, n: nat, total: Word, os: nat -> Outside, i: nat)
    returns (k: nat)
    requires BlocksEnd(s, n, total, os) && total > 0 && Serving(StateAt(s, n, total, os, i), n, total)
    ensures var end := StateAt(s, n, total, os, k);
            i < k && end.disp.done && end.disp.finished == |end.begun| == total
    decreases Remaining(StateAt(s, n, total, os, i), total)
  {
    hide SystemEdge, Remaining, Counting;
    var x := StateAt(s, n, total, os, i);
    ServingNearer(x, n, total, os(i));
    WorkingCounts(x, n, total);
    if x.disp.finished == total {
      k := i + 1;
    } else if !Working(x) {
      k := KernelEnds(s, n, total, os, i + 1);
    } else {
      var j: nat :| i <= j && S.AllDone(StateAt(s, n, total, os, j).core.warps, n);
      var m := WaitOver(s, n, total, os, i, j);
      k := KernelEnds(s, n, total, os, m);
    }
  }

  // ----- Several cores -----

  /**
   One core among any number, while a kernel runs: out of reset, with the next block if one is left; back
   into reset when its block is done; else as it was.
   */
  lemma EachCore(d: Disp, io: Inputs, i: nat)
    requires Valid(d) && |io.coreDone| == |d.coreStart| && i < |d.coreReset| && d.started && !io.reset
    ensures var e := Edge(d, io);
            && Valid(e) && |e.coreReset| == |d.coreReset|
            && (if d.coreStart[i] && io.coreDone[i] then e.coreReset[i] && !e.coreStart[i]
                else if d.coreReset[i] && d.dispatched < io.total then !e.coreReset[i] && e.coreStart[i]
                else !e.coreReset[i] && e.coreStart[i] == d.coreStart[i])
            && e.blockId[i] == if d.coreReset[i] && d.dispatched < io.total then d.dispatched else d.blockId[i]
  {
  }

  /** Cores that finish at the same edge are counted once between them. */
  lemma FinishedTogether(d: Disp, io: Inputs, i: nat, j: nat)
    requires Valid(d) && |io.coreDone| == |d.coreStart| && i <= j < |d.coreReset| && d.started && !io.reset
    requires d.coreStart[i] && io.coreDone[i] && d.coreStart[j] && io.coreDone[j]
    ensures var e := Edge(d, io);
            e.finished == Wrap(d.finished + 1) && e.coreReset[i] && e.coreReset[j] && !e.coreStart[i] && !e.coreStart[j]
  {
    assert Finishes(d, io.coreDone, i) && Finishes(d, io.coreDone, j);
  }

  /** Nothing is given out or counted without a core for it, nor by a dispatcher that has not been started. */
  lemma NothingToDo(d: Disp, io: Inputs)
    requires Valid(d) && |io.coreDone| == |d.coreStart| && !io.reset
    ensures var e := Edge(d, io);
            && ((forall i :: 0 <= i < |d.coreReset| ==> !d.coreReset[i] || d.dispatched >= io.total)
                ==> e.dispatched == d.dispatched)
            && ((forall i :: 0 <= i < |d.coreReset| ==> !d.coreStart[i] || !io.coreDone[i])
                ==> e.finished == d.finished)
            && (!d.started && !io.start ==> e == d)
            && (!d.started && io.start ==>
                  e == d.(started := true, coreReset := e.coreReset)
                  && forall i :: 0 <= i < |d.coreReset| ==> e.coreReset[i])
            && (e.done <==> d.done || (d.started && d.finished == io.total && io.total > 0))
            && (d.started ==> (e.started <==> d.done || d.finished != io.total || io.total == 0))
  {
    assert forall i :: 0 <= i < |d.coreReset| ==>
      Takes(d, io.total, i) == (d.coreReset[i] && d.dispatched < io.total)
      && Finishes(d, io.coreDone, i) == (d.coreStart[i] && io.coreDone[i]);
  }

  /** Two cores that are in reset at one edge are given the same block, and it is counted once. */
  lemma SharedBlock(d: Disp, io: Inputs, i: nat, j: nat)
    requires Valid(d) && |io.coreDone| == |d.coreStart| && i < j < |d.coreReset| && d.started && !io.reset
    requires d.coreReset[i] && d.coreReset[j] && d.dispatched < io.total
    requires !d.coreStart[i] && !d.coreStart[j]
    ensures var e := Edge(d, io);
            && e.coreStart[i] && e.coreStart[j] && e.blockId[i] == e.blockId[j] == d.dispatched
            && e.dispatched == Wrap(d.dispatched + 1)
  {
    assert Takes(d, io.total, i);
  }

  /**
   So it is two edges after a kernel is asked for: every core, however many there are, is given
   block 0, and it is counted once. With blocks to run, each block runs once only if there is one core.
   */
  lemma SharedAtStart(cores: nat, first: Inputs, second: Inputs)
    requires |first.coreDone| == |second.coreDone| == cores && first.start && !first.reset && !second.reset
    requires second.total > 0 && cores > 0
    ensures var e := Edge(Edge(AfterReset(cores), first), second);
            && (forall i :: 0 <= i < cores ==> e.coreStart[i] && e.blockId[i] == 0)
            && e.dispatched == 1 && e.finished == 0
  {
    var d := Edge(AfterReset(cores), first);
    assert Takes(d, second.total, 0);
    forall i | 0 <= i < cores ensures Takes(d, second.total, i) && !Finishes(d, second.coreDone, i) {
    }
  }
}
