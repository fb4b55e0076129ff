/**
 The warp scheduler of a core: warps share its units, the one that holds them moves on, the others
 wait, and at every wait the next ready warp in cyclic order takes over.
 */
module Scheduler {
  import opened Words
  import opened Decoder
  import opened Isa
  import opened Warp
  import C = Core
  import U = Units

  /** `warps` has WARPS_PER_CORE entries, of which the first num_warps are in use. */
  datatype Sched = Sched(running: bool, done: bool, warps: seq<WarpState>, current: nat)

  /** What the units report in one cycle; `fetched` tells for each warp that its fetcher is done. */
  datatype Signals = Signals(reset: bool, start: bool, fetched: seq<bool>, lsuBusy: bool,
                             decoded: Decoded, fpuValid: bool)

  predicate Eligible(w: WarpState) {
    !w.WarpIdle? && !w.WarpFetch? && !w.WarpDone?
  }

  /** The states in which the current warp gives the core away. */
  predicate Yields(w: WarpState) {
    w.WarpUpdate? || w.WarpDone? || w.WarpWait? || w.WarpAluWait? || w.WarpIntAluWait?
  }

  predicate Valid(s: Sched, n: nat) {
    1 <= n <= |s.warps| && s.current < n
  }

  predicate AllDone(warps: seq<WarpState>, n: nat)
    requires n <= |warps|
  {
    forall i :: 0 <= i < n ==> warps[i].WarpDone?
  }

  /** The warps after the parallel fetch step. */
  function Fetches(warps: seq<WarpState>, n: nat, fetched: seq<bool>): (next: seq<WarpState>)
    requires n <= |warps| == |fetched|
    ensures |next| == |warps|
  {
    seq(|warps|, i requires 0 <= i < |warps| => if i < n then FetchDone(warps[i], fetched[i]) else warps[i])
  }

  /** The first eligible warp from `from` on in cyclic order, `tries` of them looked at; else `none`. */
  function Search(warps: seq<WarpState>, n: nat, from: nat, tries: nat, none: nat): nat
    requires 1 <= n <= |warps|
    decreases tries
  {
    if tries == 0 then none
    else if Eligible(warps[from % n]) then from % n
    else Search(warps, n, from + 1, tries - 1, none)
  }

  function Edge(s: Sched, n: nat, io: Signals): Sched
    requires Valid(s, n) && |io.fetched| == |s.warps|
  {
    if io.reset then
      Sched(false, false, seq(|s.warps|, i => WarpIdle), 0)
    else if !s.running then
      if io.start then
        s.(running := true, current := 0,
           warps := seq(|s.warps|, i requires 0 <= i < |s.warps| => if i < n then WarpFetch else s.warps[i]))
      else s
    else
      var warps, w := Fetches(s.warps, n, io.fetched), s.warps[s.current];
      Sched(true, AllDone(s.warps, n),
            warps[s.current := Advance(w, io.fetched[s.current], io.lsuBusy, io.decoded, io.fpuValid)],
            if Yields(w) then Search(warps, n, (s.current + 1) % n, n, s.current) else s.current)
  }

  class WarpScheduler {
    const warps: array<WarpState>
    var running: bool
    var done: bool
    var current: nat

    ghost function Value(): Sched
      reads this, warps
    {
      Sched(running, done, warps[..], current)
    }

    constructor (warpsPerCore: nat)
      ensures fresh(warps) && Value() == Sched(false, false, seq(warpsPerCore, i => WarpIdle), 0)
    {
      running, done, current := false, false, 0;
      warps := new WarpState[warpsPerCore](i => WarpIdle);
    }

    method ComputeAllDone(n: nat) returns (all: bool)
      requires n <= warps.Length
      ensures all == AllDone(warps[..], n)
    {
      all := true;
      for i := 0 to n
        invariant all == AllDone(warps[..], i)
      {
        if warps[i] != WarpDone {
          all := false;
        }
      }
    }

    /** The assignments of this loop are blocking: what follows sees them. */
    method MoveFetched(n: nat, fetched: seq<bool>)
      requires n <= warps.Length == |fetched|
      modifies warps
      ensures warps[..] == Fetches(old(warps[..]), n, fetched)
    {
      for i := 0 to n
        invariant forall k :: i <= k < warps.Length ==> warps[k] == old(warps[k])
        invariant forall k :: 0 <= k < i ==> warps[k] == FetchDone(old(warps[k]), fetched[k])
      {
        if warps[i] == WarpFetch && fetched[i] {
          warps[i] := WarpDecode;
        }
      }
    }

    method FindNext(n: nat) returns (next: nat)
      requires 1 <= n <= warps.Length && current < n
      ensures next == Search(warps[..], n, (current + 1) % n, n, current)
    {
      var from := (current + 1) % n;
      var i := 0;
      while i < n
        invariant 0 <= i <= n
        invariant Search(warps[..], n, from, n, current) == Search(warps[..], n, from + i, n - i, current)
      {
        var index := (from + i) % n;
        if Eligible(warps[index]) {
          return index;
        }
        i := i + 1;
      }
      return current;
    }

    method Clock(n: nat, io: Signals)
      requires Valid(Value(), n) && |io.fetched| == warps.Length
      modifies this, warps
      ensures Value() == Edge(old(Value()), n, io)
    {
      hide Search, Fetches, Advance, AllDone;
      if io.reset {
        running, done, current := false, false, 0;
        forall i | 0 <= i < warps.Length {
          warps[i] := WarpIdle;
        }
      } else if !running {
        if io.start {
          running, current := true, 0;
          forall i | 0 <= i < n {
            warps[i] := WarpFetch;
          }
        }
      } else {
        var w, c := warps[current], current;
        done := ComputeAllDone(n);
        MoveFetched(n, io.fetched);
        if Yields(w) {
          current := FindNext(n);
        }
        warps[c] := Advance(w, io.fetched[c], io.lsuBusy, io.decoded, io.fpuValid);
      }
    }
  }

  // ----- One edge -----

  /** The warp `j` places after `from`, going round. */
  function Place(from: nat, j: nat, n: nat): (i: nat)
    requires n > 0
    ensures i < n
  {
    (from + j) % n
  }

  lemma {:induction false} SearchFinds(warps: seq<WarpState>, n: nat, from: nat, tries: nat, none: nat)
    returns (k: nat)
    requires 1 <= n <= |warps|
    ensures k <= tries
    ensures forall j: nat :: j < k ==> !Eligible(warps[Place(from, j, n)])
    ensures if k < tries
            then Eligible(warps[Place(from, k, n)]) && Search(warps, n, from, tries, none) == Place(from, k, n)
            else Search(warps, n, from, tries, none) == none
    decreases tries
  {
    k := 0;
    assert Place(from, 0, n) == from % n;
    if tries > 0 && !Eligible(warps[from % n]) {
      var rest := SearchFinds(warps, n, from + 1, tries - 1, none);
      k := rest + 1;
      forall j: nat | 0 < j <= k ensures Place(from, j, n) == Place(from + 1, j - 1, n) {
      }
    }
  }

  /** What every edge keeps: the current warp is one of those in use, and `done` means done. */
  predicate Invariant(s: Sched, n: nat) {
    Valid(s, n) && (s.done ==> s.running && AllDone(s.warps, n))
  }

  /** A running scheduler: only the current warp moves, except from fetch to decode. */
  lemma EdgeKeeps(s: Sched, n: nat, io: Signals)
    requires Invariant(s, n) && |io.fetched| == |s.warps|
    ensures Invariant(Edge(s, n, io), n)
    ensures s.running && !io.reset ==> var t := Edge(s, n, io);
              && (forall i :: 0 <= i < |s.warps| && i != s.current && t.warps[i] != s.warps[i] ==>
                    i < n && s.warps[i].WarpFetch? && io.fetched[i] && t.warps[i].WarpDecode?)
              && (forall i :: 0 <= i < |s.warps| && s.warps[i].WarpDone? ==> t.warps[i].WarpDone?)
              && (t.done <==> AllDone(s.warps, n))
              && (s.done ==> t.done)
              && (t.current != s.current ==> Yields(s.warps[s.current]) && Eligible(t.warps[t.current]))
  {
    if s.running && !io.reset {
      var warps := Fetches(s.warps, n, io.fetched);
      if Yields(s.warps[s.current]) {
        var k := SearchFinds(warps, n, (s.current + 1) % n, n, s.current);
      }
    }
  }

  // ----- Fairness -----

  /** How far ahead of the current warp another one is, going round. */
  function Ahead(current: nat, w: nat, n: nat): (d: nat)
    requires current < n && w < n
    ensures d < n && (d == 0 <==> w == current)
  {
    if w >= current then w - current else w + n - current
  }

  lemma PlaceRound(current: nat, k: nat, n: nat)
    requires current < n && k < n
    ensures Place((current + 1) % n, k, n) == if current + 1 + k < n then current + 1 + k else current + 1 + k - n
  {
    var from := if current + 1 < n then current + 1 else 0;
    QuotientUnique(current + 1, n, if current + 1 < n then 0 else 1, from);
    if from + k < n {
      QuotientUnique(from + k, n, 0, from + k);
    } else {
      QuotientUnique(from + k, n, 1, from + k - n);
    }
  }

  /**
   When the current warp yields, every other warp that is ready gets nearer: it becomes current, or
   the new current warp is strictly nearer to it.
   */
  lemma SwitchNearer(s: Sched, n: nat, io: Signals, w: nat)
    requires Invariant(s, n) && |io.fetched| == |s.warps| && s.running && !io.reset
    requires w < n && w != s.current && Eligible(s.warps[w]) && Yields(s.warps[s.current])
    ensures Edge(s, n, io).current < n
    ensures Ahead(Edge(s, n, io).current, w, n) < Ahead(s.current, w, n)
  {
    hide Advance, AllDone, Search;
    var warps, from := Fetches(s.warps, n, io.fetched), (s.current + 1) % n;
    var k := SearchFinds(warps, n, from, n, s.current);
    var d := Ahead(s.current, w, n);
    PlaceRound(s.current, d - 1, n);
    assert Place(from, d - 1, n) == w && Eligible(warps[w]);
    assert k <= d - 1;
    PlaceRound(s.current, k, n);
  }

  /** A warp that is ready and not current stays as it is. */
  lemma WaitsUnchanged(s: Sched, n: nat, io: Signals, w: nat)
    requires Invariant(s, n) && |io.fetched| == |s.warps| && s.running && !io.reset
    requires w < n && w != s.current && Eligible(s.warps[w])
    ensures Edge(s, n, io).warps[w] == s.warps[w]
    ensures !Yields(s.warps[s.current]) ==> Edge(s, n, io).current == s.current
  {
    hide Advance, AllDone, Search;
  }

  // ----- By the names of the states -----

  /** What the search sees of warp `w`: a fetch that is done counts as decoding. */
  function Seen(s: Sched, io: Signals, w: nat): WarpState
    requires w < |s.warps| == |io.fetched|
  {
    if s.warps[w] == WarpFetch && io.fetched[w] then WarpDecode else s.warps[w]
  }

  /** Another warp in use that is past its fetch and not done. */
  predicate Waiting(s: Sched, n: nat, io: Signals, w: nat)
    requires Valid(s, n) && |io.fetched| == |s.warps|
  {
    w < n && w != s.current && Seen(s, io, w) !in {WarpIdle, WarpFetch, WarpDone}
  }

  /**
   In its update, when done and at each of the three waits the current warp gives the core to the next
   waiting warp going round, if there is one; in every other state it keeps the core.
   */
  lemma GivesAway(s: Sched, n: nat, io: Signals)
    requires Invariant(s, n) && |io.fetched| == |s.warps| && s.running && !io.reset
    ensures var t, w := Edge(s, n, io), s.warps[s.current];
            if w in {WarpUpdate, WarpDone, WarpWait, WarpAluWait, WarpIntAluWait}
               && exists v: nat :: Waiting(s, n, io, v)
            then Waiting(s, n, io, t.current)
                 && forall v: nat :: Waiting(s, n, io, v) ==> Ahead(s.current, t.current, n) <= Ahead(s.current, v, n)
            else t.current == s.current
  {
    hide Advance, AllDone, Search, Place, Seen;
    var from := (s.current + 1) % n;
    if Yields(s.warps[s.current]) {
      var k := SearchFinds(Fetches(s.warps, n, io.fetched), n, from, n, s.current);
      FoundWaits(s, n, io, from, k);
      forall v: nat | Waiting(s, n, io, v)
        ensures k < n && Place(from, k, n) != s.current
        ensures Ahead(s.current, Place(from, k, n), n) <= Ahead(s.current, v, n)
      {
        FoundFirst(s, n, io, from, k, v);
      }
    }
  }

  /** A warp found elsewhere is a waiting one. */
  lemma FoundWaits(s: Sched, n: nat, io: Signals, from: nat, k: nat)
    requires Valid(s, n) && |io.fetched| == |s.warps|
    requires k < n ==> Eligible(Fetches(s.warps, n, io.fetched)[Place(from, k, n)])
    ensures k < n && Place(from, k, n) != s.current ==> Waiting(s, n, io, Place(from, k, n))
  {
  }

  /** And no waiting one comes before it. */
  lemma FoundFirst(s: Sched, n: nat, io: Signals, from: nat, k: nat, v: nat)
    requires Valid(s, n) && |io.fetched| == |s.warps| && Waiting(s, n, io, v) && from == (s.current + 1) % n
    requires forall j: nat :: j < k ==> !Eligible(Fetches(s.warps, n, io.fetched)[Place(from, j, n)])
    ensures k < n && Place(from, k, n) != s.current
    ensures Ahead(s.current, Place(from, k, n), n) <= Ahead(s.current, v, n)
  {
    hide Place;
    var d := Ahead(s.current, v, n);
    PlaceRound(s.current, d - 1, n);
    assert Place(from, d - 1, n) == v && Eligible(Fetches(s.warps, n, io.fetched)[v]);
    assert k <= d - 1;
    PlaceRound(s.current, k, n);
  }

  /** Every warp but the current one: a fetch that is done moves on to decode, and nothing else changes. */
  lemma OthersMove(s: Sched, n: nat, io: Signals, w: nat)
    requires Invariant(s, n) && |io.fetched| == |s.warps| && s.running && !io.reset && w < |s.warps|
    ensures |Edge(s, n, io).warps| == |s.warps|
    ensures w != s.current ==> Edge(s, n, io).warps[w] == if w < n then Seen(s, io, w) else s.warps[w]
  {
    hide Advance, AllDone, Search;
  }

  /** The current warp goes round the states of an instruction, waiting for memory and for the units. */
  lemma CurrentMoves(s: Sched, n: nat, io: Signals)
    requires Invariant(s, n) && |io.fetched| == |s.warps| && s.running && !io.reset
    ensures |Edge(s, n, io).warps| == |s.warps|
    ensures var d, now := io.decoded, Edge(s, n, io).warps[s.current];
            match s.warps[s.current]
            case WarpFetch => now == if io.fetched[s.current] then WarpDecode else WarpFetch
            case WarpDecode => now == WarpRequest
            case WarpRequest => now == WarpRegWait
            case WarpRegWait => now == WarpWait
            case WarpWait => now == if io.lsuBusy then WarpWait else WarpExecute
            case WarpExecute =>
              now == if d.alu == FPU then WarpAluWait
                     else if d.branch
                             || d.alu in {ADD, SUB, MUL, NEG, SLT, SLL, SEQ, SNEZ, MIN, ABS, ADDI, MULI, SLLI, JAL}
                     then WarpIntAluWait else WarpUpdate
            case WarpIntAluWait => now == WarpUpdate
            case WarpAluWait => now == if io.fpuValid then WarpUpdate else WarpAluWait
            case WarpUpdate => now == if d.halt then WarpDone else WarpFetch
            case w => now == w
  {
    hide Search, AllDone;
  }

  /** A reset makes every warp idle; a start sets all warps in use to fetch and the first one current. */
  lemma StartsAll(s: Sched, n: nat, io: Signals, w: nat)
    requires Valid(s, n) && |io.fetched| == |s.warps| && (io.reset || !s.running) && w < |s.warps|
    ensures var t := Edge(s, n, io);
            && |t.warps| == |s.warps|
            && if io.reset then !t.running && !t.done && t.current == 0 && t.warps[w] == WarpIdle
               else if io.start then
                 t.running && t.done == s.done && t.current == 0
                 && t.warps[w] == if w < n then WarpFetch else s.warps[w]
               else t == s
  {
  }

  // ----- Runs -----

  function Run(s: Sched, n: nat, ins: seq<Signals>): Sched
    requires Invariant(s, n) && forall i :: 0 <= i < |ins| ==> |ins[i].fetched| == |s.warps|
    decreases ins
  {
    if ins == [] then s else
    EdgeKeeps(s, n, ins[0]);
    EdgeSize(s, n, ins[0]);
    Run(Edge(s, n, ins[0]), n, ins[1..])
  }

  lemma EdgeSize(s: Sched, n: nat, io: Signals)
    requires Valid(s, n) && |io.fetched| == |s.warps|
    ensures |Edge(s, n, io).warps| == |s.warps|
  {
  }

  /** At how many edges of a run the current warp yields. */
  function Yielded(s: Sched, n: nat, ins: seq<Signals>): nat
    requires Invariant(s, n) && forall i :: 0 <= i < |ins| ==> |ins[i].fetched| == |s.warps|
    decreases ins
  {
    if ins == [] then 0 else
    EdgeKeeps(s, n, ins[0]);
    EdgeSize(s, n, ins[0]);
    (if Yields(s.warps[s.current]) then 1 else 0) + Yielded(Edge(s, n, ins[0]), n, ins[1..])
  }

  /** A warp is current at the start of some edge of a run, or at its end. */
  predicate Served(s: Sched, n: nat, ins: seq<Signals>, w: nat)
    requires Invariant(s, n) && forall i :: 0 <= i < |ins| ==> |ins[i].fetched| == |s.warps|
    decreases ins
  {
    if ins == [] then s.current == w else
    EdgeKeeps(s, n, ins[0]);
    EdgeSize(s, n, ins[0]);
    s.current == w || Served(Edge(s, n, ins[0]), n, ins[1..], w)
  }

  /** No ready warp starves: it is served before the core has been given away n - 1 times. */
  lemma {:induction false} NoStarvation(s: Sched, n: nat, ins: seq<Signals>, w: nat)
    requires Invariant(s, n) && forall i :: 0 <= i < |ins| ==> |ins[i].fetched| == |s.warps|
    requires s.running && forall i :: 0 <= i < |ins| ==> !ins[i].reset
    requires w < n && Eligible(s.warps[w]) && !Served(s, n, ins, w)
    ensures Yielded(s, n, ins) < Ahead(s.current, w, n) < n
    decreases ins
  {
    if ins != [] {
      hide Edge;
      var t := Edge(s, n, ins[0]);
      EdgeKeeps(s, n, ins[0]);
      EdgeSize(s, n, ins[0]);
      EdgeRuns(s, n, ins[0]);
      WaitsUnchanged(s, n, ins[0], w);
      NoStarvation(t, n, ins[1..], w);
      if Yields(s.warps[s.current]) {
        SwitchNearer(s, n, ins[0], w);
      }
    }
  }

  lemma EdgeRuns(s: Sched, n: nat, io: Signals)
    requires Valid(s, n) && |io.fetched| == |s.warps| && s.running && !io.reset
    ensures Edge(s, n, io).running
  {
  }

  /** Whatever the run, the current warp is in use, and `done` is raised only with every warp done. */
  lemma {:induction false} RunKeeps(s: Sched, n: nat, ins: seq<Signals>)
    requires Invariant(s, n) && forall i :: 0 <= i < |ins| ==> |ins[i].fetched| == |s.warps|
    ensures Invariant(Run(s, n, ins), n)
    decreases ins
  {
    if ins != [] {
      hide Edge, Invariant;
      EdgeKeeps(s, n, ins[0]);
      EdgeSize(s, n, ins[0]);
      RunKeeps(Edge(s, n, ins[0]), n, ins[1..]);
    }
  }

  // ----- One warp -----

  /** With one warp in use the scheduler is the control of module Core. */
  lemma OneWarp(c: C.Core, io: C.Inputs, s: Sched, g: Signals)
    requires |s.warps| == 1 && s.current == 0 && |g.fetched| == 1
    requires s == Sched(c.running, c.done, [c.warp], 0)
    requires g == Signals(io.reset, io.start, [c.fetcher.state.FetcherDone?], U.Busy(c.lsu.state),
                          c.decoded, io.fpuValid)
    ensures var d := C.ControlEdge(c, io);
            Edge(s, 1, g) == Sched(d.running, d.done, [d.warp], 0)
  {
    hide Advance;
    if c.running && !io.reset {
      var warps := Fetches(s.warps, 1, g.fetched);
      var k := SearchFinds(warps, 1, 0, 1, 0);
    }
  }
}
