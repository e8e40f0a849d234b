/** How many free frames the heap system call needs, while its lists fit one frame each. */
module UserHeapCount {
  import opened Prelude
  import opened FrameSpec
  import opened UserHeapDemand
  import opened UserHeapProps
  import opened UserHeapSpec
  import R = FrameRuns

  function FreePages(f: Frames): set<nat>
  {
    set p: nat | p < f.maxPage && p !in f.used
  }

  // ----- Counts and the allocator -----

  /** The first allocatable frame is in use, so every release counts; a list fits one frame. */
  ghost predicate Countable(f: Frames, list: Buffer)
  {
    && f.Valid() && f.Base() in f.used
    && (list.Buffer? ==> list.pages == 1 && list.start in f.used && f.Base() < list.start < f.maxPage)
  }

  /** A single frame is found whenever one is free, and taking it leaves one fewer. */
  lemma TakingUsesOneFrame(f: Frames, list: Buffer)
    requires Countable(f, list)
    ensures Chosen(f, 1).Some? <==> |FreePages(f)| > 0
    ensures Chosen(f, 1).Some? ==>
      var g := Allocate(f, 1).0;
      && Countable(g, list) && |FreePages(g)| == |FreePages(f)| - 1
      && Countable(g, Buffer(Chosen(f, 1).value, 1)) && list != Buffer(Chosen(f, 1).value, 1)
  {
    FailsOnlyWhenNothingFits(f, 1);
    AllocateKeepsValid(f, 1);
    ChosenIsFirstFit(f, 1);
    if |FreePages(f)| > 0 {
      var p :| p in FreePages(f);
      assert Run(p, 1) == {p};
      assert Fits(f, p, 1);
    }
    if Chosen(f, 1).Some? {
      var x := Chosen(f, 1).value;
      hide Chosen;
      assert Run(x, 1) == {x};
      assert x in FreePages(f);
      assert FreePages(Allocate(f, 1).0) == FreePages(f) - {x};
    }
  }

  lemma {:induction false} SinglesCount(f: Frames, list: Buffer, k: nat)
    requires Countable(f, list)
    ensures Singles(f, k).Some? <==> |FreePages(f)| >= k
    ensures Singles(f, k).Some? ==>
      var g := Singles(f, k).value;
      Countable(g, list) && |FreePages(g)| == |FreePages(f)| - k
    decreases k
  {
    hide Chosen, FreePages, Allocate, Countable;
    if k > 0 {
      TakingUsesOneFrame(f, list);
      if Chosen(f, 1).Some? {
        SinglesCount(Allocate(f, 1).0, list, k - 1);
      }
    }
  }

  lemma MoveCounts(f: Frames, list: Buffer)
    requires Countable(f, list) && Chosen(f, 1).Some?
    ensures var g := Moved(f, list, 1);
      && Countable(g, Buffer(Chosen(f, 1).value, 1))
      && |FreePages(g)| == |FreePages(f)| - (if list.Buffer? then 0 else 1)
  {
    hide Chosen;
    TakingUsesOneFrame(f, list);
    var g := Allocate(f, 1).0;
    hide Allocate;
    if list.Buffer? {
      var x := list.start;
      assert Run(x, 1) == {x};
      ReleaseKeepsValid(g, x, 1);
      assert FreePages(Release(g, x, 1)) == FreePages(g) + {x};
    }
  }

  /** What round `i` keeps: a page, its tables, and a buffer if the list had none. */
  function Keeps(o: Oracle, held: bool, i: nat): nat
  {
    1 + o.tables(i) + if o.list(i) > 0 && !held then 1 else 0
  }

  /** The end of rounds `i .. n` and the last push, from the number of free frames. */
  function FateOfCount(free: nat, held: bool, mapped: set<nat>, first: nat, i: nat, n: nat, o: Oracle): Fate
    requires i <= n
    decreases n - i
  {
    if i == n then if o.ranges <= free then Served else Stalled
    else if free == 0 then Exhausted
    else if free < 1 + o.tables(i) || first + i in mapped then PageLost
    else if free < 1 + o.tables(i) + o.list(i) || free < Keeps(o, held, i) then Stalled
    else FateOfCount(free - Keeps(o, held, i), held || o.list(i) > 0, mapped, first, i + 1, n, o)
  }

  /** No list needs more than one frame. */
  ghost predicate ShortLists(o: Oracle, i: nat, n: nat)
  {
    o.ranges <= 1 && forall k :: i <= k < n ==> o.list(k) <= 1
  }

  /** While lists fit a frame each, the number of free frames decides. */
  lemma {:induction false} FateIsCounted(
    f: Frames, mapped: set<nat>, list: Buffer, first: nat, i: nat, n: nat, o: Oracle)
    requires Countable(f, list) && i <= n && ShortLists(o, i, n)
    ensures FateOf(f, mapped, list, first, i, n, o) ==
      FateOfCount(|FreePages(f)|, list.Buffer?, mapped, first, i, n, o)
    decreases n - i
  {
    hide Chosen, FreePages, Allocate, Countable, Singles, Moved;
    TakingUsesOneFrame(f, list);
    if i < n {
      SinglesCount(f, list, 1 + o.tables(i));
      var g := Singles(f, 1 + o.tables(i));
      if g.Some? {
        if o.list(i) == 0 {
          FateIsCounted(g.value, mapped, list, first, i + 1, n, o);
        } else {
          TakingUsesOneFrame(g.value, list);
          if Chosen(g.value, 1).Some? {
            MoveCounts(g.value, list);
            FateIsCounted(
              Moved(g.value, list, 1), mapped, Buffer(Chosen(g.value, 1).value, 1), first, i + 1, n, o);
          }
        }
      }
    }
  }

  // ----- The counts themselves -----

  /** What rounds `i .. k` keep together. */
  function KeptBy(o: Oracle, held: bool, i: nat, k: nat): nat
    requires i <= k
    decreases k - i
  {
    if i == k then 0 else Keeps(o, held, i) + KeptBy(o, held || o.list(i) > 0, i + 1, k)
  }

  /** The most frames taken at one time: in the last round, while both buffers of a moving list are
      held, or by the last push. */
  function Peak(o: Oracle, held: bool, i: nat, n: nat): nat
    requires i <= n
  {
    var last := KeptBy(o, held, i, n) + o.ranges;
    if i == n then last
    else
      var full := KeptBy(o, held, i, n - 1) + 1 + o.tables(n - 1) + o.list(n - 1);
      if last < full then full else last
  }

  /** Pages `i .. k` are unmapped. */
  ghost predicate Unmapped(mapped: set<nat>, first: nat, i: nat, k: nat)
    requires i <= k
  {
    Run(first + i, k - i) !! mapped
  }

  /** The free frames give out exactly before the buffer for page `k`, or for the new range. */
  ghost predicate StallsAt(
    free: nat, held: bool, mapped: set<nat>, first: nat, i: nat, k: nat, n: nat, o: Oracle)
    requires i <= k <= n
  {
    if k == n then o.ranges > 0 && free == KeptBy(o, held, i, n) && Unmapped(mapped, first, i, n)
    else
      && o.list(k) > 0 && free == KeptBy(o, held, i, k) + 1 + o.tables(k)
      && Unmapped(mapped, first, i, k + 1)
  }

  /** Page `k` gets its frame, and then lacks a table or is mapped already. */
  ghost predicate LosesAt(free: nat, held: bool, mapped: set<nat>, first: nat, i: nat, k: nat, o: Oracle)
    requires i <= k
  {
    && Unmapped(mapped, first, i, k) && KeptBy(o, held, i, k) < free
    && (free < KeptBy(o, held, i, k) + 1 + o.tables(k) || first + k in mapped)
  }

  /** The free frames are used up exactly when page `k` asks for one, and the page before it was
      still remembered. */
  ghost predicate RunsOutAt(free: nat, held: bool, mapped: set<nat>, first: nat, i: nat, k: nat, o: Oracle)
    requires i <= k
  {
    && Unmapped(mapped, first, i, k) && free == KeptBy(o, held, i, k)
    && (i < k ==> KeptBy(o, held, i, k - 1) + 1 + o.tables(k - 1) + o.list(k - 1) <= free)
  }

  /** The first page of a stretch and the others. */
  lemma UnmappedSplits(mapped: set<nat>, first: nat, i: nat, k: nat)
    requires i < k
    ensures Unmapped(mapped, first, i, k) <==> first + i !in mapped && Unmapped(mapped, first, i + 1, k)
  {
    PeelRun(first + i, k - i);
    hide Run;
  }

  lemma StallsLater(free: nat, held: bool, mapped: set<nat>, first: nat, i: nat, k: nat, n: nat, o: Oracle)
    requires i < k <= n
    ensures StallsAt(free, held, mapped, first, i, k, n, o) <==>
      && first + i !in mapped && Keeps(o, held, i) <= free
      && StallsAt(free - Keeps(o, held, i), held || o.list(i) > 0, mapped, first, i + 1, k, n, o)
  {
    UnmappedSplits(mapped, first, i, if k < n then k + 1 else k);
    hide Unmapped, Keeps;
  }

  lemma LosesLater(free: nat, held: bool, mapped: set<nat>, first: nat, i: nat, k: nat, o: Oracle)
    requires i < k
    ensures LosesAt(free, held, mapped, first, i, k, o) <==>
      && first + i !in mapped && Keeps(o, held, i) <= free
      && LosesAt(free - Keeps(o, held, i), held || o.list(i) > 0, mapped, first, i + 1, k, o)
  {
    UnmappedSplits(mapped, first, i, k);
    hide Unmapped, Keeps;
  }

  lemma RunsOutLater(free: nat, held: bool, mapped: set<nat>, first: nat, i: nat, k: nat, o: Oracle)
    requires i < k && o.list(i) <= 1
    ensures RunsOutAt(free, held, mapped, first, i, k, o) <==>
      && first + i !in mapped && Keeps(o, held, i) <= free && 1 + o.tables(i) + o.list(i) <= free
      && RunsOutAt(free - Keeps(o, held, i), held || o.list(i) > 0, mapped, first, i + 1, k, o)
  {
    UnmappedSplits(mapped, first, i, k);
    hide Unmapped;
  }

  lemma PeakLater(o: Oracle, held: bool, i: nat, n: nat)
    requires i + 1 < n
    ensures Peak(o, held, i, n) == Keeps(o, held, i) + Peak(o, held || o.list(i) > 0, i + 1, n)
    ensures Peak(o, held || o.list(i) > 0, i + 1, n) > 0
  {
    hide Keeps;
  }

  /** The call is served exactly when its pages are unmapped and the free frames cover the peak. */
  lemma {:induction false} ServedAtCount(
    free: nat, held: bool, mapped: set<nat>, first: nat, i: nat, n: nat, o: Oracle)
    requires i <= n && ShortLists(o, i, n)
    ensures FateOfCount(free, held, mapped, first, i, n, o) == Served <==>
      Unmapped(mapped, first, i, n) && Peak(o, held, i, n) <= free
    decreases n - i
  {
    if i < n {
      UnmappedSplits(mapped, first, i, n);
      if i + 1 < n {
        PeakLater(o, held, i, n);
      }
      if Keeps(o, held, i) <= free {
        ServedAtCount(free - Keeps(o, held, i), held || o.list(i) > 0, mapped, first, i + 1, n, o);
      }
    }
  }

  /** A list stalls exactly at the counts `StallsAt` lists. */
  lemma {:induction false} StalledAtCount(
    free: nat, held: bool, mapped: set<nat>, first: nat, i: nat, n: nat, o: Oracle)
    requires i <= n && ShortLists(o, i, n)
    ensures FateOfCount(free, held, mapped, first, i, n, o) == Stalled <==>
      exists k :: i <= k <= n && StallsAt(free, held, mapped, first, i, k, n, o)
    decreases n - i
  {
    if i == n {
      assert StallsAt(free, held, mapped, first, i, i, n, o) <==> free < o.ranges;
    } else {
      assert StallsAt(free, held, mapped, first, i, i, n, o) <==>
        o.list(i) > 0 && free == 1 + o.tables(i) && first + i !in mapped;
      if k :| i < k <= n && StallsAt(free, held, mapped, first, i, k, n, o) {
        StallsLater(free, held, mapped, first, i, k, n, o);
      }
      var held', next := held || o.list(i) > 0, i + 1;
      if Keeps(o, held, i) <= free {
        var left := free - Keeps(o, held, i);
        StalledAtCount(left, held', mapped, first, next, n, o);
        if k :| next <= k <= n && StallsAt(left, held', mapped, first, next, k, n, o) {
          StallsLater(free, held, mapped, first, i, k, n, o);
        }
      }
    }
  }

  /** A page's frame is lost exactly at the counts and pages `LosesAt` lists. */
  lemma {:induction false} LostAtCount(
    free: nat, held: bool, mapped: set<nat>, first: nat, i: nat, n: nat, o: Oracle)
    requires i <= n && ShortLists(o, i, n)
    ensures FateOfCount(free, held, mapped, first, i, n, o) == PageLost <==>
      exists k :: i <= k < n && LosesAt(free, held, mapped, first, i, k, o)
    decreases n - i
  {
    if i < n {
      assert LosesAt(free, held, mapped, first, i, i, o) <==>
        0 < free && (free < 1 + o.tables(i) || first + i in mapped);
      if k :| i < k < n && LosesAt(free, held, mapped, first, i, k, o) {
        LosesLater(free, held, mapped, first, i, k, o);
      }
      var held', next := held || o.list(i) > 0, i + 1;
      if Keeps(o, held, i) <= free {
        var left := free - Keeps(o, held, i);
        LostAtCount(left, held', mapped, first, next, n, o);
        if k :| next <= k < n && LosesAt(left, held', mapped, first, next, k, o) {
          LosesLater(free, held, mapped, first, i, k, o);
        }
      }
    }
  }

  /** The frames run out between two pages exactly at the counts `RunsOutAt` lists. */
  lemma {:induction false} ExhaustedAtCount(
    free: nat, held: bool, mapped: set<nat>, first: nat, i: nat, n: nat, o: Oracle)
    requires i <= n && ShortLists(o, i, n)
    ensures FateOfCount(free, held, mapped, first, i, n, o) == Exhausted <==>
      exists k :: i <= k < n && RunsOutAt(free, held, mapped, first, i, k, o)
    decreases n - i
  {
    if i < n {
      PeelRun(first + i, 0);
      assert RunsOutAt(free, held, mapped, first, i, i, o) <==> free == 0;
      if k :| i < k < n && RunsOutAt(free, held, mapped, first, i, k, o) {
        RunsOutLater(free, held, mapped, first, i, k, o);
      }
      var held', next := held || o.list(i) > 0, i + 1;
      if Keeps(o, held, i) <= free {
        var left := free - Keeps(o, held, i);
        ExhaustedAtCount(left, held', mapped, first, next, n, o);
        if k :| next <= k < n && RunsOutAt(left, held', mapped, first, next, k, o) {
          RunsOutLater(free, held, mapped, first, i, k, o);
        }
      }
    }
  }

  // ----- The call -----

  lemma FateOfTheCall(c: R.State, p: Proc, size: nat, o: Oracle)
    requires Countable(c.f, NoBuffer) && ShortLists(o, 0, DivCeil(size, PAGE_SIZE))
    ensures var n := DivCeil(size, PAGE_SIZE);
      AllocationFate(c.f, p, size, o) ==
        FateOfCount(|FreePages(c.f)|, false, p.space.Keys, HeapTop(p.ranges) / PAGE_SIZE, 0, n, o)
  {
    FateIsCounted(c.f, p.space.Keys, NoBuffer, HeapTop(p.ranges) / PAGE_SIZE, 0, DivCeil(size, PAGE_SIZE), o);
  }

  /** Counted: while the lists fit a frame each and the first allocatable frame is in use, the call
      succeeds exactly when the free frames cover its peak demand. */
  lemma AllocateSucceedsIffEnough(c: R.State, p: Proc, size: nat, o: Oracle)
    requires Countable(c.f, NoBuffer) && ShortLists(o, 0, DivCeil(size, PAGE_SIZE))
    ensures var n := DivCeil(size, PAGE_SIZE);
      var r := HeapAllocate(c, p, size, o).result;
      r.Code? && r.value >= 0 <==>
      && size > 0 && Run(HeapTop(p.ranges) / PAGE_SIZE, n) !! p.space.Keys
      && |FreePages(c.f)| >= Peak(o, false, 0, n)
  {
    if size > 0 {
      hide HeapAllocate, Countable, Peak, FreePages, Run, AllocationFate, FateOfCount, ShortLists, Lost;
      AllocateEndsAsFated(c, p, size, o);
      FateOfTheCall(c, p, size, o);
      ServedAtCount(
        |FreePages(c.f)|, false, p.space.Keys, HeapTop(p.ranges) / PAGE_SIZE, 0, DivCeil(size, PAGE_SIZE), o);
    }
  }

  /** The numbers of free frames at which the call stops the kernel instead of returning -18: those
      that are used up exactly when a list needs its next buffer. */
  lemma AllocateStopsIffCount(c: R.State, p: Proc, size: nat, o: Oracle)
    requires Countable(c.f, NoBuffer) && ShortLists(o, 0, DivCeil(size, PAGE_SIZE))
    ensures var n, first := DivCeil(size, PAGE_SIZE), HeapTop(p.ranges) / PAGE_SIZE;
      HeapAllocate(c, p, size, o).result == Halted <==>
      && size > 0
      && exists k :: 0 <= k <= n && StallsAt(|FreePages(c.f)|, false, p.space.Keys, first, 0, k, n, o)
  {
    if size > 0 {
      hide HeapAllocate, Countable, StallsAt, FreePages, AllocationFate, FateOfCount, ShortLists, Lost;
      AllocateEndsAsFated(c, p, size, o);
      FateOfTheCall(c, p, size, o);
      StalledAtCount(
        |FreePages(c.f)|, false, p.space.Keys, HeapTop(p.ranges) / PAGE_SIZE, 0, DivCeil(size, PAGE_SIZE), o);
    }
  }

  /** The calls that lose a frame: those that get the frame of some page and then lack a table for it
      or find it mapped. */
  lemma AllocateLosesIffCount(c: R.State, p: Proc, size: nat, o: Oracle)
    requires Countable(c.f, NoBuffer) && ShortLists(o, 0, DivCeil(size, PAGE_SIZE))
    ensures var n, first := DivCeil(size, PAGE_SIZE), HeapTop(p.ranges) / PAGE_SIZE;
      Lost(c, p, size, o) != {} <==>
      && size > 0
      && exists k :: 0 <= k < n && LosesAt(|FreePages(c.f)|, false, p.space.Keys, first, 0, k, o)
  {
    if size > 0 {
      hide HeapAllocate, Countable, LosesAt, FreePages, AllocationFate, FateOfCount, ShortLists, Lost;
      AllocateEndsAsFated(c, p, size, o);
      FateOfTheCall(c, p, size, o);
      LostAtCount(
        |FreePages(c.f)|, false, p.space.Keys, HeapTop(p.ranges) / PAGE_SIZE, 0, DivCeil(size, PAGE_SIZE), o);
    }
  }

  /** The calls that report -18 and lose nothing: those whose next page finds no frame left. */
  lemma AllocateRunsOutIffCount(c: R.State, p: Proc, size: nat, o: Oracle)
    requires Countable(c.f, NoBuffer) && ShortLists(o, 0, DivCeil(size, PAGE_SIZE))
    ensures var n, first := DivCeil(size, PAGE_SIZE), HeapTop(p.ranges) / PAGE_SIZE;
      HeapAllocate(c, p, size, o).result == Code(-18) && Lost(c, p, size, o) == {} <==>
      && size > 0
      && exists k :: 0 <= k < n && RunsOutAt(|FreePages(c.f)|, false, p.space.Keys, first, 0, k, o)
  {
    if size > 0 {
      hide HeapAllocate, Countable, RunsOutAt, FreePages, AllocationFate, FateOfCount, ShortLists, Lost;
      AllocateEndsAsFated(c, p, size, o);
      FateOfTheCall(c, p, size, o);
      ExhaustedAtCount(
        |FreePages(c.f)|, false, p.space.Keys, HeapTop(p.ranges) / PAGE_SIZE, 0, DivCeil(size, PAGE_SIZE), o);
    }
  }

  // ----- Two inputs -----

  /** A process with an empty heap in a machine with one free frame: a one-page request that needs a
      page table returns -18 and the frame is gone. */
  lemma LostFrameExample(p: Proc, o: Oracle)
    requires p.ranges == [] && o.tables(0) > 0 && o.list(0) <= 1 && o.ranges <= 1
    ensures var f := Frames({0, 1, 2}, 8, 4, 1, 1, 2);
      && f.Valid() && HeapAllocate(R.Start(f), p, 1, o).result == Code(-18)
      && Lost(R.Start(f), p, 1, o) != {}
  {
    hide HeapAllocate, Lost, AllocationFate, FateOf, Chosen, Run;
    var f := Frames({0, 1, 2}, 8, 4, 1, 1, 2);
    var first := HeapTop(p.ranges) / PAGE_SIZE;
    assert FreePages(f) == {3} && DivCeil(1, PAGE_SIZE) == 1;
    PeelRun(first, 0);
    assert LosesAt(|FreePages(f)|, false, p.space.Keys, first, 0, 0, o);
    AllocateLosesIffCount(R.Start(f), p, 1, o);
    AllocateEndsAsFated(R.Start(f), p, 1, o);
  }

  /** Running out of memory is not always reported: with a single free frame, a one-page request
      gets its frame, and the list that should remember the page stops the kernel. */
  lemma ListStopsTheKernel(c: R.State, p: Proc, size: nat, o: Oracle)
    requires c.f.Valid() && |FreePages(c.f)| == 1 && 0 < size <= PAGE_SIZE
    requires HeapTop(p.ranges) / PAGE_SIZE !in p.space && o.tables(0) == 0 && o.list(0) > 0
    ensures HeapAllocate(c, p, size, o).result == Halted
  {
    TakingTheLast(c.f, o.list(0));
    hide Chosen, Run, HeapTop, Allocate;
    assert DivCeil(size, PAGE_SIZE) == 1;
    assert Singles(c.f, 1) == Some(Allocate(c.f, 1).0);
    AllocateEndsAsFated(c, p, size, o);
  }

  lemma TakingTheLast(f: Frames, grow: nat)
    requires f.Valid() && |FreePages(f)| == 1 && grow > 0
    ensures Chosen(f, 1).Some? && Chosen(Allocate(f, 1).0, grow).None?
  {
    var q :| q in FreePages(f);
    assert |FreePages(f) - {q}| == 0;
    assert FreePages(f) == {q};
    assert Run(q, 1) == {q} && Fits(f, q, 1);
    FailsOnlyWhenNothingFits(f, 1);
    ChosenIsFirstFit(f, 1);
    AllocateKeepsValid(f, 1);
    var g := Allocate(f, 1).0;
    var x := Chosen(f, 1).value;
    hide Chosen;
    assert x in Run(x, 1) && x in FreePages(f);
    assert forall s: nat :: s < g.maxPage && s !in g.used ==> s in FreePages(f);
    FailsOnlyWhenNothingFits(g, grow);
    forall s: nat
      ensures !Fits(g, s, grow)
    {
      assert s in Run(s, grow);
      assert s < g.maxPage ==> s in g.used;
    }
  }
}
