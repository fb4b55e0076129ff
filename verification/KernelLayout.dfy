/**
 Where a kernel saves registers: the split of its threads into warps, a save area of 64 words for
 each warp and each thread, laid out downward, and the words in them.
 */
module KernelLayout {
  import opened Words

  const FILE := 256          // bytes of one register file
  const BASE := 15000        // Context::get_warp_offset
  const FLAG := 32           // slot of a warp's completion flag

  // ----- The split into warps -----

  /** The number of warps, C's division of positive numbers. */
  function Warps(threads: nat, warpSize: nat): nat
    requires warpSize > 0
  {
    (threads + warpSize - 1) / warpSize
  }

  /** Warps are full, but for the last. */
  function WarpSize(threads: nat, warpSize: nat, w: nat): (n: int)
    requires warpSize > 0
  {
    if (w + 1) * warpSize <= threads then warpSize else threads - w * warpSize
  }

  lemma WarpsBounds(threads: nat, warpSize: nat, w: nat)
    requires warpSize > 0 && w < Warps(threads, warpSize)
    ensures 1 <= WarpSize(threads, warpSize, w) <= warpSize
    ensures w + 1 == Warps(threads, warpSize) ==> threads <= (w + 1) * warpSize
    ensures w + 1 < Warps(threads, warpSize) ==> WarpSize(threads, warpSize, w) == warpSize
  {
    var n := Warps(threads, warpSize);
    var rest := (threads + warpSize - 1) % warpSize;
    assert threads + warpSize - 1 == n * warpSize + rest;
    Scale(w + 1, n, warpSize);
    assert (w + 1) * warpSize == w * warpSize + warpSize;
    if w + 1 < n {
      Scale(w + 2, n, warpSize);
      assert (w + 2) * warpSize == (w + 1) * warpSize + warpSize;
    }
  }

  /** The threads of the first `m` warps. */
  function ThreadsIn(threads: nat, warpSize: nat, m: nat): (n: nat)
    requires warpSize > 0 && m <= Warps(threads, warpSize)
  {
    if m == 0 then 0 else
    WarpsBounds(threads, warpSize, m - 1);
    ThreadsIn(threads, warpSize, m - 1) + WarpSize(threads, warpSize, m - 1)
  }

  lemma {:induction false} ThreadsBefore(threads: nat, warpSize: nat, m: nat)
    requires warpSize > 0 && m <= Warps(threads, warpSize)
    ensures ThreadsIn(threads, warpSize, m)
         == if m < Warps(threads, warpSize) || m * warpSize <= threads then m * warpSize else threads
    ensures m < Warps(threads, warpSize) ==> m * warpSize < threads
  {
    if m > 0 {
      ThreadsBefore(threads, warpSize, m - 1);
      WarpsBounds(threads, warpSize, m - 1);
      assert m * warpSize == (m - 1) * warpSize + warpSize;
    }
    if m < Warps(threads, warpSize) {
      WarpsBounds(threads, warpSize, m);
      assert (m + 1) * warpSize == m * warpSize + warpSize;
    }
  }

  /** The warps hold all the threads. */
  lemma SizesSum(threads: nat, warpSize: nat)
    requires warpSize > 0
    ensures ThreadsIn(threads, warpSize, Warps(threads, warpSize)) == threads
  {
    var n := Warps(threads, warpSize);
    ThreadsBefore(threads, warpSize, n);
    assert threads + warpSize - 1 == n * warpSize + (threads + warpSize - 1) % warpSize;
    if n > 0 {
      WarpsBounds(threads, warpSize, n - 1);
    } else {
      assert n * warpSize == 0;
    }
  }

  // ----- The save areas -----

  /** How many save areas lie above that of warp `w`: one for each warp and each thread before it. */
  function AreasBefore(threads: nat, warpSize: nat, w: nat): nat
    requires warpSize > 0 && w <= Warps(threads, warpSize)
  {
    w + ThreadsIn(threads, warpSize, w)
  }

  /** KernelStackSize */
  function StackSize(threads: nat, warpSize: nat): nat
    requires warpSize > 0
  {
    FILE * AreasBefore(threads, warpSize, Warps(threads, warpSize))
  }

  function WarpOffset(threads: nat, warpSize: nat, w: nat): int
    requires warpSize > 0 && w <= Warps(threads, warpSize)
  {
    BASE + StackSize(threads, warpSize) - FILE * AreasBefore(threads, warpSize, w)
  }

  function ThreadOffset(threads: nat, warpSize: nat, w: nat, t: nat): int
    requires warpSize > 0 && w < Warps(threads, warpSize)
  {
    WarpOffset(threads, warpSize, w) - FILE * (t + 1)
  }

  /** A word of a save area. The flag has the slot of fs0, which is never saved for a warp. */
  datatype Slot =
    | WarpRegister(w: nat, reg: nat)
    | CompletionFlag(w: nat)
    | ThreadRegister(w: nat, t: nat, reg: nat)

  predicate Exists(threads: nat, warpSize: nat, s: Slot)
    requires warpSize > 0
  {
    && s.w < Warps(threads, warpSize)
    && match s
       case WarpRegister(_, reg) => reg < 64 && reg != FLAG
       case CompletionFlag(_) => true
       case ThreadRegister(w, t, reg) => t < WarpSize(threads, warpSize, w) && reg < 64
  }

  function SlotAddress(threads: nat, warpSize: nat, s: Slot): int
    requires warpSize > 0 && Exists(threads, warpSize, s)
  {
    match s
    case WarpRegister(w, reg) => WarpOffset(threads, warpSize, w) - (reg + 1) * 4
    case CompletionFlag(w) => WarpOffset(threads, warpSize, w) - (FLAG + 1) * 4
    case ThreadRegister(w, t, reg) => ThreadOffset(threads, warpSize, w, t) - (reg + 1) * 4
  }

  /** The number of the save area a slot is in, and of the word in it. */
  function Area(threads: nat, warpSize: nat, s: Slot): nat
    requires warpSize > 0 && Exists(threads, warpSize, s)
  {
    AreasBefore(threads, warpSize, s.w) + if s.ThreadRegister? then s.t + 1 else 0
  }

  function WordIn(s: Slot): nat {
    match s
    case WarpRegister(_, reg) => reg
    case CompletionFlag(_) => FLAG
    case ThreadRegister(_, _, reg) => reg
  }

  lemma AddressOfArea(threads: nat, warpSize: nat, s: Slot)
    requires warpSize > 0 && Exists(threads, warpSize, s)
    ensures SlotAddress(threads, warpSize, s)
         == BASE + StackSize(threads, warpSize) - FILE * Area(threads, warpSize, s) - 4 * (WordIn(s) + 1)
    ensures WordIn(s) < 64
  {
  }

  lemma {:induction false} AreasGrow(threads: nat, warpSize: nat, v: nat, w: nat)
    requires warpSize > 0 && v < w <= Warps(threads, warpSize)
    ensures AreasBefore(threads, warpSize, v) + 1 + WarpSize(threads, warpSize, v) <= AreasBefore(threads, warpSize, w)
    decreases w
  {
    if w > v + 1 {
      AreasGrow(threads, warpSize, v, w - 1);
      WarpsBounds(threads, warpSize, w - 1);
    }
  }

  /** Two slots in the same area at the same word are the same slot. */
  lemma AreaInjective(threads: nat, warpSize: nat, s: Slot, u: Slot)
    requires warpSize > 0 && Exists(threads, warpSize, s) && Exists(threads, warpSize, u)
    requires Area(threads, warpSize, s) == Area(threads, warpSize, u) && WordIn(s) == WordIn(u)
    ensures s == u
  {
    WarpsBounds(threads, warpSize, s.w);
    WarpsBounds(threads, warpSize, u.w);
    hide Warps, WarpSize, AreasBefore;
    if s.w < u.w {
      AreasGrow(threads, warpSize, s.w, u.w);
    } else if u.w < s.w {
      AreasGrow(threads, warpSize, u.w, s.w);
    }
  }

  /**
   For every number of threads and every warp size: all slots are words inside the kernel's stack,
   and different slots are different words.
   */
  lemma SlotsApart(threads: nat, warpSize: nat, s: Slot, u: Slot)
    requires warpSize > 0 && Exists(threads, warpSize, s) && Exists(threads, warpSize, u)
    ensures BASE <= SlotAddress(threads, warpSize, s) <= BASE + StackSize(threads, warpSize) - 4
    ensures SlotAddress(threads, warpSize, s) % 4 == 0
    ensures s != u ==> SlotAddress(threads, warpSize, s) != SlotAddress(threads, warpSize, u)
  {
    WarpsBounds(threads, warpSize, s.w);
    hide Warps, WarpSize, AreasBefore, SlotAddress, WordIn;
    AddressOfArea(threads, warpSize, s);
    AddressOfArea(threads, warpSize, u);
    AreasGrow(threads, warpSize, s.w, Warps(threads, warpSize));
    if s != u && Area(threads, warpSize, s) == Area(threads, warpSize, u) && WordIn(s) == WordIn(u) {
      AreaInjective(threads, warpSize, s, u);
    }
  }

  // ----- In bytes -----

  /** As many warps as are needed for the threads and no more. */
  lemma WarpsExact(threads: nat, warpSize: nat, n: nat)
    requires warpSize > 0
    ensures n == Warps(threads, warpSize) <==> n * warpSize >= threads && (n > 0 ==> (n - 1) * warpSize < threads)
  {
    var w := Warps(threads, warpSize);
    var rest := (threads + warpSize - 1) % warpSize;
    assert threads + warpSize - 1 == w * warpSize + rest;
    assert n > 0 ==> (n - 1) * warpSize == n * warpSize - warpSize;
    if n < w {
      Scale(n + 1, w, warpSize);
      assert (n + 1) * warpSize == n * warpSize + warpSize;
    } else if n > w {
      Scale(w, n - 1, warpSize);
    }
  }

  /** 256 bytes for each warp and each thread, from address 15000 up. */
  lemma StackBytes(threads: nat, warpSize: nat)
    requires warpSize > 0
    ensures StackSize(threads, warpSize) == 256 * (Warps(threads, warpSize) + threads)
    ensures WarpOffset(threads, warpSize, 0) == 15000 + 256 * (Warps(threads, warpSize) + threads)
    ensures WarpOffset(threads, warpSize, Warps(threads, warpSize)) == 15000
  {
    SizesSum(threads, warpSize);
  }

  /**
   Counted down from there, every warp before takes 256 bytes and as many for each of its threads; a
   register's word lies 4 bytes a register below, and the completion flag is in the place of register 32.
   */
  lemma SlotBytes(threads: nat, warpSize: nat, s: Slot)
    requires warpSize > 0 && Exists(threads, warpSize, s)
    ensures var top := 15000 + 256 * (Warps(threads, warpSize) + threads) - 256 * (s.w + s.w * warpSize);
            SlotAddress(threads, warpSize, s)
            == match s
               case WarpRegister(_, reg) => top - 4 * reg - 4
               case CompletionFlag(_) => top - 132
               case ThreadRegister(_, t, reg) => top - 256 * t - 256 - 4 * reg - 4
  {
    StackBytes(threads, warpSize);
    ThreadsBefore(threads, warpSize, s.w);
  }

  // ----- InitializeKernel -----

  datatype SaveArea = SaveArea(id: nat, size: int, offset: int, threadOffsets: seq<int>)

  class KernelFrame {
    var warps: seq<SaveArea>

    constructor ()
      ensures warps == []
    {
      warps := [];
    }

    /** The loop that counts the remaining threads down. */
    method SplitThreads(threads: nat, warpSize: nat)
      requires warpSize > 0 && warps == []
      modifies this
      ensures |warps| == Warps(threads, warpSize)
      ensures forall w :: 0 <= w < |warps| ==> warps[w] == SaveArea(w, WarpSize(threads, warpSize, w), 0, [])
    {
      var left := threads;
      var n := (threads + warpSize - 1) / warpSize;
      for i := 0 to n
        invariant left == threads - i * warpSize
        invariant |warps| == i
        invariant forall w :: 0 <= w < i ==> warps[w] == SaveArea(w, WarpSize(threads, warpSize, w), 0, [])
      {
        WarpsBounds(threads, warpSize, i);
        assert (i + 1) * warpSize == i * warpSize + warpSize;
        left := left - warpSize;
        var size := if left >= 0 then warpSize else left + warpSize;
        warps := warps + [SaveArea(i, size, 0, [])];
      }
    }

    /** KernelStackSize, by a loop over the warps. */
    method KernelStackSize(ghost threads: nat, ghost warpSize: nat) returns (total: nat)
      requires warpSize > 0 && |warps| == Warps(threads, warpSize)
      requires forall w :: 0 <= w < |warps| ==> warps[w].size == WarpSize(threads, warpSize, w)
      ensures total == StackSize(threads, warpSize)
    {
      total := 0;
      for i := 0 to |warps|
        invariant total == FILE * AreasBefore(threads, warpSize, i)
      {
        WarpsBounds(threads, warpSize, i);
        total := total + FILE;
        total := total + warps[i].size * FILE;
      }
    }

    /** The loop that hands out the offsets by running subtraction. */
    method SetOffsets(threads: nat, warpSize: nat)
      requires warpSize > 0 && |warps| == Warps(threads, warpSize)
      requires forall w :: 0 <= w < |warps| ==> warps[w].size == WarpSize(threads, warpSize, w)
      modifies this
      ensures |warps| == Warps(threads, warpSize)
      ensures forall w :: 0 <= w < |warps| ==>
        && warps[w].size == WarpSize(threads, warpSize, w) && warps[w].offset == WarpOffset(threads, warpSize, w)
        && |warps[w].threadOffsets| == warps[w].size
        && forall t :: 0 <= t < warps[w].size ==> warps[w].threadOffsets[t] == ThreadOffset(threads, warpSize, w, t)
    {
      var stack := KernelStackSize(threads, warpSize);
      var total := stack + BASE;
      for w := 0 to |warps|
        invariant |warps| == Warps(threads, warpSize)
        invariant total == WarpOffset(threads, warpSize, w)
        invariant forall v :: 0 <= v < |warps| ==> warps[v].size == WarpSize(threads, warpSize, v)
        invariant forall v :: 0 <= v < w ==>
          && warps[v].offset == WarpOffset(threads, warpSize, v) && |warps[v].threadOffsets| == warps[v].size
          && forall t :: 0 <= t < warps[v].size ==> warps[v].threadOffsets[t] == ThreadOffset(threads, warpSize, v, t)
      {
        hide Warps, WarpSize;
        WarpsBounds(threads, warpSize, w);
        var warpOffset, running, offsets := total, total, [];
        for t := 0 to warps[w].size
          invariant running == total - FILE * t && |offsets| == t
          invariant forall u :: 0 <= u < t ==> offsets[u] == ThreadOffset(threads, warpSize, w, u)
        {
          running := running - FILE;
          offsets := offsets + [running];
        }
        total := total - FILE - FILE * warps[w].size;
        warps := warps[w := warps[w].(offset := warpOffset, threadOffsets := offsets)];
      }
    }
  }
}
