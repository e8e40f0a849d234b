/** What a process gets from the heap system call, and what process creation leaves, in any state of
    the whole system. */
module UserHeapAnswers {
  import opened Prelude
  import opened FrameSpec
  import opened ProcessImage
  import opened UserHeapDemand
  import opened UserHeapImages
  import opened UserHeapLedger
  import opened UserHeapProps
  import opened UserHeapRuns
  import opened UserHeapSpec
  import R = FrameRuns

  /** The process a call comes from. */
  predicate IsCaller(p: Proc, table: nat)
  {
    p.normal && p.tableAddr == table
  }

  ghost predicate HasCaller(slots: seq<Proc>, table: nat)
  {
    exists k :: 0 <= k < |slots| && IsCaller(slots[k], table)
  }

  /** `top` is the highest end of a range, or 6 GiB when there is none. */
  ghost predicate IsHeapTop(ranges: seq<Range>, top: nat)
  {
    if ranges == [] then top == 0x1_8000_0000
    else
      && (forall k :: 0 <= k < |ranges| ==> ranges[k].end <= top)
      && (exists k :: 0 <= k < |ranges| && ranges[k].end == top)
  }

  /** `n` pages are the fewest that hold `size` bytes. */
  predicate FewestPages(size: nat, n: nat)
  {
    n * PAGE_SIZE - PAGE_SIZE < size <= n * PAGE_SIZE
  }

  lemma HeapTopIs(ranges: seq<Range>, top: nat)
    requires IsHeapTop(ranges, top)
    ensures top == HeapTop(ranges)
  {
    if ranges != [] {
      MaxEndIsMax(ranges);
    }
  }

  lemma FewestPagesIs(size: nat, n: nat)
    requires FewestPages(size, n)
    ensures n == DivCeil(size, PAGE_SIZE)
  {
  }

  /** A page table identifies its process. */
  lemma OneCaller(f0: Frames, w: World, k: nat)
    requires Inv(f0, w) && !w.halted && k < |w.slots| && w.slots[k].normal && w.slots[k].tableAddr != 0
    ensures FindSlot(w.slots, w.slots[k].tableAddr) == k
  {
    hide R.Inv, SlotsOk, LooseOk, Accounted;
  }

  // ----- allocate -----

  /** -16 exactly for size zero, -17 exactly for a caller that is no normal process; neither changes
      anything. */
  lemma AllocateRefuses(w: World, table: nat, size: nat, o: Oracle)
    ensures var (v, r) := AllocateCall(w, table, size, o);
      && (r == Code(-16) <==> size == 0)
      && (r == Code(-17) <==> size > 0 && !HasCaller(w.slots, table))
      && (r == Code(-16) || r == Code(-17) ==> v == w)
  {
    hide HeapAllocate, Lost;
    var k := FindSlot(w.slots, table);
    if k < |w.slots| && size > 0 {
      assert IsCaller(w.slots[k], table);
      CodesOf(w.c, w.slots[k], size, o);
    }
  }

  lemma CodesOf(c: R.State, p: Proc, size: nat, o: Oracle)
    requires size > 0
    ensures var r := HeapAllocate(c, p, size, o).result; r.Code? ==> r.value >= 0 || r.value == -18
  {
    hide MapLoop, UnmapLoop, PushList, DropList, HeapTop;
  }

  /** The process in slot `k` gained the `n` pages from `top` on, as one range, and nothing else
      changed in any slot. */
  ghost predicate Granted(w: World, k: nat, v: World, top: nat, n: nat)
    requires k < |w.slots|
  {
    && |v.slots| == |w.slots| && v.slots == w.slots[k := v.slots[k]] && v.loose == w.loose && v.leaked == w.leaked
    && var p, p' := w.slots[k], v.slots[k];
    && p'.ranges == p.ranges + [Range(top, top + n * PAGE_SIZE)]
    && p'.space.Keys == p.space.Keys + Run(top / PAGE_SIZE, n)
    && (forall q :: q in p.space ==> p'.space[q] == p.space[q])
    && (p'.normal, p'.tableAddr, p'.image) == (p.normal, p.tableAddr, p.image)
  }

  /** A known process asking for some bytes gets the address behind its highest range exactly when the
      pages there are unmapped and the allocator can serve them; then those pages are mapped and are its
      new range. Otherwise it gets -18 and no slot changes, or the kernel stops, each exactly when that
      is the request's fate. */
  lemma AllocateAnswers(f0: Frames, w: World, k: nat, size: nat, o: Oracle, top: nat, n: nat)
    requires f0.Valid() && Inv(f0, w) && !w.halted
    requires k < |w.slots| && w.slots[k].normal && w.slots[k].tableAddr != 0
    requires size > 0 && IsHeapTop(w.slots[k].ranges, top) && FewestPages(size, n)
    ensures var p, first := w.slots[k], top / PAGE_SIZE;
      var (v, r) := AllocateCall(w, p.tableAddr, size, o);
      var fate := FateOf(w.c.f, p.space.Keys, NoBuffer, first, 0, n, o);
      && (r == Code(top) <==> Run(first, n) !! p.space.Keys && Serves(w.c.f, NoBuffer, 0, n, o))
      && (r == Code(-18) <==> fate == Exhausted || fate == PageLost)
      && (r == Halted <==> fate == Stalled) && (v.halted <==> r == Halted)
      && (r == Code(top) ==> top + size <= top + n * PAGE_SIZE && Granted(w, k, v, top, n))
      && (r == Code(-18) ==> v.slots == w.slots && v.loose == w.loose && w.leaked <= v.leaked)
      && (r == Code(-18) ==> (v.leaked == w.leaked <==> fate == Exhausted))
  {
    hide R.Inv, SlotsOk, LooseOk, Accounted, RootsOk, HeapAllocate, Lost, FateOf, Serves, Run, Granted, HeapTop,
      IsHeapTop, FewestPages, ProcOk;
    HeapTopIs(w.slots[k].ranges, top);
    FewestPagesIs(size, n);
    OneCaller(f0, w, k);
    var p := w.slots[k];
    SlotIsOk(f0, w, k);
    AllocateEndsAsFated(w.c, p, size, o);
    AllocateSucceedsIff(w.c, p, size, o);
    var r := HeapAllocate(w.c, p, size, o);
    if r.result.Code? && r.result.value >= 0 {
      GrantedHere(f0, w, k, size, o);
    } else if r.result.Code? {
      FailedHere(f0, w, k, size, o);
    }
  }

  lemma SlotIsOk(f0: Frames, w: World, k: nat)
    requires Inv(f0, w) && !w.halted && k < |w.slots|
    ensures R.Inv(f0, w.c) && ProcOk(w.c, w.slots[k]) && w.leaked <= Mine(w.c)
  {
  }

  lemma GrantedHere(f0: Frames, w: World, k: nat, size: nat, o: Oracle)
    requires f0.Valid() && R.Inv(f0, w.c) && k < |w.slots| && FindSlot(w.slots, w.slots[k].tableAddr) == k
    requires ProcOk(w.c, w.slots[k]) && w.slots[k].tableAddr != 0 && size > 0
    requires var r := HeapAllocate(w.c, w.slots[k], size, o).result; r.Code? && r.value >= 0
    ensures var p := w.slots[k];
      var (v, r) := AllocateCall(w, p.tableAddr, size, o);
      && r == Code(HeapTop(p.ranges)) && !v.halted
      && Granted(w, k, v, HeapTop(p.ranges), DivCeil(size, PAGE_SIZE))
  {
    hide R.Inv, ProcOk, HeapAllocate, MapLoop, HeapTop, Lost, Grows, Injective, Run, Held;
    var p := w.slots[k];
    AllocateShape(w.c, p, size, o);
    AllocationLoop(f0, w.c, p, DivCeil(size, PAGE_SIZE), o);
    NoneLostOnSuccess(w.c, p, size, o);
    assert w.leaked + {} == w.leaked;
  }

  lemma FailedHere(f0: Frames, w: World, k: nat, size: nat, o: Oracle)
    requires f0.Valid() && R.Inv(f0, w.c) && k < |w.slots| && FindSlot(w.slots, w.slots[k].tableAddr) == k
    requires ProcOk(w.c, w.slots[k]) && w.slots[k].tableAddr != 0 && size > 0 && w.leaked <= Mine(w.c)
    requires var r := HeapAllocate(w.c, w.slots[k], size, o).result; r.Code? && r.value < 0
    ensures var p := w.slots[k];
      var (v, r) := AllocateCall(w, p.tableAddr, size, o);
      && r == Code(-18) && !v.halted && v.slots == w.slots && v.loose == w.loose
      && w.leaked <= v.leaked && (v.leaked == w.leaked <==> Lost(w.c, p, size, o) == {})
  {
    hide R.Inv, ProcOk, HeapAllocate, Lost, Kind, Grows, Own;
    var p := w.slots[k];
    AllocateFails(f0, w.c, p, size, o);
    LostIsNew(f0, w.c, p, Lost(w.c, p, size, o), HeapAllocate(w.c, p, size, o).c);
  }

  /** A lost frame was not leaked before. */
  lemma LostIsNew(f0: Frames, c: R.State, p: Proc, lost: set<nat>, d: R.State)
    requires R.Inv(f0, c) && Grows(c, NoBuffer, d, NoBuffer, lost)
    ensures lost !! Mine(c)
  {
    InvHeldIsUsed(f0, c);
    assert NoBuffer.Pages() == {};
  }

  // ----- deallocate -----

  /** -16 exactly for a caller that is no normal process; nothing changes then. */
  lemma DeallocateRefuses(w: World, table: nat, addr: nat)
    ensures var (v, r) := DeallocateCall(w, table, addr);
      (r == Code(-16) <==> !HasCaller(w.slots, table)) && (r == Code(-16) ==> v == w)
  {
    hide UnmapLoop;
    var k := FindSlot(w.slots, table);
    if k < |w.slots| {
      assert IsCaller(w.slots[k], table);
    }
  }

  predicate Contains(r: Range, addr: nat)
  {
    r.start <= addr < r.end
  }

  /** The process in slot `k` lost range `j`, the mapping of exactly its pages and their frames; nothing
      else changed. */
  ghost predicate Released(w: World, k: nat, v: World, j: nat)
    requires k < |w.slots| && j < |w.slots[k].ranges|
  {
    && |v.slots| == |w.slots| && v.slots == w.slots[k := v.slots[k]]
    && v.loose == w.loose && v.leaked == w.leaked && v.halted == w.halted
    && var p, p', r := w.slots[k], v.slots[k], w.slots[k].ranges[j];
    && p'.ranges == p.ranges[..j] + p.ranges[j + 1..]
    && (forall q :: r.start <= q * PAGE_SIZE < r.end ==> q in p.space && q !in p'.space)
    && (forall q :: q in p.space && !(r.start <= q * PAGE_SIZE < r.end) ==> q in p'.space && p'.space[q] == p.space[q])
    && p'.space.Keys <= p.space.Keys
    && (p'.normal, p'.tableAddr, p'.image, p'.buffer) == (p.normal, p.tableAddr, p.image, p.buffer)
    && GivesBack(w.c, v.c, Backing(p.space, p.space.Keys - p'.space.Keys))
  }

  /** A known process gets -17 exactly when no range of its own contains the address, and nothing
      changes; otherwise exactly the range with the address is released. */
  lemma DeallocateAnswers(f0: Frames, w: World, k: nat, addr: nat)
    requires f0.Valid() && Inv(f0, w) && !w.halted
    requires k < |w.slots| && w.slots[k].normal && w.slots[k].tableAddr != 0
    ensures var ranges := w.slots[k].ranges;
      var (v, r) := DeallocateCall(w, w.slots[k].tableAddr, addr);
      && (r == Code(-17) <==> forall j :: 0 <= j < |ranges| ==> !Contains(ranges[j], addr))
      && (r == Code(-17) ==> v == w)
      && (forall j :: 0 <= j < |ranges| && Contains(ranges[j], addr) ==> r == Code(0) && Released(w, k, v, j))
  {
    hide R.Inv, LooseOk, Accounted, RootsOk, HeapDeallocate, ProcOk, Released, SlotsOk;
    OneCaller(f0, w, k);
    SlotIsOk(f0, w, k);
    var p := w.slots[k];
    DeallocateReleasesOneRange(f0, w.c, p, addr);
    var i := FindRange(p.ranges, addr);
    if i == |p.ranges| {
      assert w.slots[k := p] == w.slots;
    } else {
      assert Contains(p.ranges[i], addr);
      ReleasedHere(f0, w, k, addr);
      forall j | 0 <= j < |p.ranges| && Contains(p.ranges[j], addr)
        ensures j == i
      {
        OneRangePerAddress(w.c, p, i, j, addr);
      }
    }
  }

  lemma OneRangePerAddress(c: R.State, p: Proc, i: nat, j: nat, addr: nat)
    requires ProcOk(c, p) && i < |p.ranges| && j < |p.ranges|
    requires Contains(p.ranges[i], addr) && Contains(p.ranges[j], addr)
    ensures i == j
  {
    hide HeapPages, Held, Injective;
  }

  lemma ReleasedHere(f0: Frames, w: World, k: nat, addr: nat)
    requires f0.Valid() && R.Inv(f0, w.c) && k < |w.slots| && FindSlot(w.slots, w.slots[k].tableAddr) == k
    requires ProcOk(w.c, w.slots[k]) && FindRange(w.slots[k].ranges, addr) < |w.slots[k].ranges|
    ensures var v := DeallocateCall(w, w.slots[k].tableAddr, addr).0;
      Released(w, k, v, FindRange(w.slots[k].ranges, addr))
  {
    hide R.Inv, ProcOk, HeapDeallocate, RangePages, HeapFrames, Footprint, GivesBack, Backing, FindRange;
    var p, j := w.slots[k], FindRange(w.slots[k].ranges, addr);
    DeallocateReleasesOneRange(f0, w.c, p, addr);
    SameRest(w.c, p, addr);
    PagesOfRange(w.c, p, j);
    var r := HeapDeallocate(w.c, p, addr);
    assert p.space.Keys - r.p.space.Keys == RangePages(p.ranges[j]);
  }

  lemma PagesOfRange(c: R.State, p: Proc, j: nat)
    requires ProcOk(c, p) && j < |p.ranges|
    ensures forall q: nat :: q in RangePages(p.ranges[j]) <==> p.ranges[j].start <= q * PAGE_SIZE < p.ranges[j].end
  {
    assert RangeOk(p.ranges[j]);
    hide ProcOk, RangePages;
    forall q: nat
      ensures q in RangePages(p.ranges[j]) <==> p.ranges[j].start <= q * PAGE_SIZE < p.ranges[j].end
    {
      RangePageBounds(p.ranges[j], q);
    }
  }

  lemma SameRest(c: R.State, p: Proc, addr: nat)
    ensures var p' := HeapDeallocate(c, p, addr).p;
      (p'.normal, p'.tableAddr, p'.image, p'.buffer) == (p.normal, p.tableAddr, p.image, p.buffer)
  {
    hide UnmapLoop;
  }

  // ----- Process creation -----

  /** A run is loaded exactly when one is free somewhere; it was held by nobody and is then held for an
      image and loose. */
  lemma LoadTakes(f0: Frames, w: World, n: nat)
    requires f0.Valid() && R.Inv(f0, w.c) && n > 0
    ensures var v := LoadCall(w, n);
      && (v == w <==> forall s: nat :: !Fits(w.c.f, s, n))
      && (v != w ==> exists x: nat ::
            && v == w.(c := v.c, loose := w.loose + {Section(x, n)}) && Run(x, n) !! w.c.f.used
            && Kind(v.c, IMAGES) == Kind(w.c, IMAGES) + Run(x, n) && v.c.f.used == w.c.f.used + Run(x, n))
  {
    FailsOnlyWhenNothingFits(w.c.f, n);
    if Chosen(w.c.f, n).Some? {
      var x := Chosen(w.c.f, n).value;
      InvHeldIsUsed(f0, w.c);
      TakeRun(w.c, IMAGES, n);
      RunLoaded(f0, w.c, n);
      assert x in Run(x, n);
      hide R.Inv, Chosen, R.Step, Run;
      assert LoadCall(w, n) == w.(c := R.Step(w.c, R.Take(IMAGES, n)), loose := w.loose + {Section(x, n)});
    }
  }

  /** The allocator has a frame for the top-level table, two in a row for the stack and `tables` more. */
  predicate Supplies(f: Frames, tables: nat)
  {
    && Chosen(f, 1).Some?
    && var g := FrameSpec.Allocate(f, 1).0;
    && Chosen(g, 2).Some? && Singles(FrameSpec.Allocate(g, 2).0, tables).Some?
  }

  /** A creation fills its slot exactly when the frames are there and the sections can be loaded next to
      the stack: with a process that has the new top-level table, an empty heap and the image; what was
      behind the slot's pages is leaked. Otherwise no slot changes. */
  lemma CreateFillsSlotIff(w: World, slot: nat, sections: seq<Section>, tables: nat)
    requires slot < |w.slots|
    ensures var v := CreateCall(w, slot, sections, tables);
      var f := w.c.f;
      && |v.slots| == |w.slots| && v.halted == w.halted
      && (Supplies(f, tables) ==>
            var root, stack := Chosen(f, 1).value, Section(Chosen(FrameSpec.Allocate(f, 1).0, 2).value, 2);
            if Loadable(StackMap(stack), sections) then
              var image := ImageOf(stack, sections);
              && v.slots == w.slots[slot := Proc(w.slots[slot].normal, root * PAGE_SIZE, [], NoBuffer, image, image)]
              && v.leaked == w.leaked + Backing(w.slots[slot].space, w.slots[slot].space.Keys)
              && v.loose == w.loose + {stack} - ({stack} + set s | s in sections)
            else v.slots == w.slots && v.leaked == w.leaked && v.loose == w.loose + {stack})
      && (!Supplies(f, tables) ==> v.slots == w.slots && v.leaked == w.leaked)
  {
    hide Chosen, Run, Loadable, ImageOf, Backing, StackMap;
    if Chosen(w.c.f, 1).Some? {
      var c1 := R.Step(w.c, R.Take(ROOTS, 1));
      assert c1.f == FrameSpec.Allocate(w.c.f, 1).0;
      if Chosen(c1.f, 2).Some? {
        TakeTablesIsSingles(R.Step(c1, R.Take(IMAGES, 2)), tables);
      }
    }
  }

  /** Whatever becomes of a creation, it keeps the frame it took for the top-level table; and a stack
      that ends up behind no process stays loose. */
  lemma CreateKeepsWhatItTook(f0: Frames, w: World, slot: nat, sections: seq<Section>, tables: nat)
    requires f0.Valid() && Inv(f0, w) && !w.halted && slot < |w.slots| && FromLoads(w.loose, sections)
    requires Chosen(w.c.f, 1).Some?
    ensures var v := CreateCall(w, slot, sections, tables);
      var root, g := Chosen(w.c.f, 1).value, FrameSpec.Allocate(w.c.f, 1).0;
      && root !in Kind(w.c, ROOTS) && root in Kind(v.c, ROOTS)
      && (Chosen(g, 2).Some? ==>
            var stack := Section(Chosen(g, 2).value, 2);
            !(Supplies(w.c.f, tables) && Loadable(StackMap(stack), sections)) ==> stack in v.loose)
  {
    hide R.Inv, R.Step, Chosen, Kind, SlotsOk, LooseOk, Accounted, RootsOk, FromLoads, Loadable, Quiet, TakeTables,
      ImageOf, EmptySlot, StackMap, Mine;
    var root := Chosen(w.c.f, 1).value;
    RootIsQuiet(f0, w.c);
    var w1 := w.(c := R.Step(w.c, R.Take(ROOTS, 1)));
    QuietKeepsInv(f0, w, w1.c);
    StepsAllocator(w.c);
    if Chosen(w1.c.f, 2).Some? {
      var w2 := LoadCall(w1, 2);
      LoadKeepsInv(f0, w1, 2);
      RunLoaded(f0, w1.c, 2);
      TablesAreQuiet(f0, w2.c, tables);
      var w3 := w2.(c := TakeTables(w2.c, tables).0);
      RootsKept(w2.c, w3.c);
      QuietKeepsInv(f0, w2, w3.c);
      AbandonKeepsInv(f0, w3, slot);
      TakeTablesIsSingles(w2.c, tables);
      LoadStepsAllocator(w1);
    }
  }

  lemma LoadStepsAllocator(w: World)
    requires Chosen(w.c.f, 2).Some?
    ensures LoadCall(w, 2).c.f == FrameSpec.Allocate(w.c.f, 2).0
  {
    hide Chosen, Run;
  }

  lemma StepsAllocator(c: R.State)
    ensures R.Step(c, R.Take(ROOTS, 1)).f == FrameSpec.Allocate(c.f, 1).0
  {
    hide Chosen, Run;
  }
}
