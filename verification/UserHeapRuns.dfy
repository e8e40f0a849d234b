/** Whole runs of heap system calls and process creations by any number of processes, mixed with
    the other clients of the frame allocator. */
module UserHeapRuns {
  import opened Prelude
  import opened FrameSpec
  import opened ProcessImage
  import opened UserHeapImages
  import opened UserHeapLedger
  import opened UserHeapProps
  import opened UserHeapSpec
  import R = FrameRuns

  /** The frame ledger and the tables of normal and driver processes. `loose` are the runs taken for
      images that are not yet behind a process; `leaked` are the frames nothing refers to any more.
      A halted kernel does nothing. */
  datatype World = World(c: R.State, slots: seq<Proc>, loose: set<Section>, leaked: set<nat>, halted: bool)

  /** A slot that was never used. */
  function EmptySlot(normal: bool): Proc
  {
    Proc(normal, 0, [], NoBuffer, map[], map[])
  }

  /** The first normal process with the given page table. */
  function FindSlot(slots: seq<Proc>, table: nat): (k: nat)
    ensures k <= |slots|
    ensures k < |slots| ==> slots[k].normal && slots[k].tableAddr == table
    ensures forall j :: 0 <= j < k ==> !(slots[j].normal && slots[j].tableAddr == table)
  {
    if slots == [] then 0
    else if slots[0].normal && slots[0].tableAddr == table then 0
    else 1 + FindSlot(slots[1..], table)
  }

  /** The world after a call, and how it ended. */
  function AllocateCall(w: World, table: nat, size: nat, o: Oracle): (World, Result)
  {
    var k := FindSlot(w.slots, table);
    if size == 0 then (w, Code(-16))
    else if k == |w.slots| then (w, Code(-17))
    else
      var p := w.slots[k];
      var r := HeapAllocate(w.c, p, size, o);
      var leaked := w.leaked + Lost(w.c, p, size, o);
      (World(r.c, w.slots[k := r.p], w.loose, leaked, r.result.Halted?), r.result)
  }

  function DeallocateCall(w: World, table: nat, addr: nat): (World, Result)
  {
    var k := FindSlot(w.slots, table);
    if k == |w.slots| then (w, Code(-16))
    else
      var r := HeapDeallocate(w.c, w.slots[k], addr);
      (w.(c := r.c, slots := w.slots[k := r.p]), r.result)
  }

  /** The runs a creation uses up. */
  function Consumed(stack: Section, sections: seq<Section>): set<Section>
  {
    {stack} + set s | s in sections
  }

  /** Give up what a slot holds: the range list goes back, the frames behind the pages do not. */
  function Abandoned(w: World, slot: nat): World
    requires slot < |w.slots|
  {
    var gone := w.slots[slot];
    w.(c := DropList(w.c, gone.buffer),
    slots := w.slots[slot := EmptySlot(gone.normal)],
    leaked := w.leaked + Backing(gone.space, gone.space.Keys))
  }

  /** Put a process into an empty slot. */
  function Filled(w: World, slot: nat, root: nat, stack: Section, sections: seq<Section>): World
    requires slot < |w.slots|
  {
    var image := ImageOf(stack, sections);
    w.(slots := w.slots[slot := Proc(w.slots[slot].normal, root * PAGE_SIZE, [], NoBuffer, image, image)],
    loose := w.loose - Consumed(stack, sections))
  }

  /** A run of frames for a section or a stack. */
  function LoadCall(w: World, n: nat): World
  {
    var r := Chosen(w.c.f, n);
    if r.None? || n == 0 then w
    else w.(c := R.Step(w.c, R.Take(IMAGES, n)), loose := w.loose + {Section(r.value, n)})
  }

  /** Creating a process from loaded sections takes a frame for its top-level table, two for the stack
      and `tables` more for page tables, maps the image and fills a slot, possibly one that was used
      before. A creation that fails keeps what it took. */
  ghost function CreateCall(w: World, slot: nat, sections: seq<Section>, tables: nat): World
  {
    var root := Chosen(w.c.f, 1);
    if slot >= |w.slots| || root.None? then w
    else
      var w1 := w.(c := R.Step(w.c, R.Take(ROOTS, 1)));
      var r := Chosen(w1.c.f, 2);
      if r.None? then w1 else ImageMapped(LoadCall(w1, 2), slot, root.value, Section(r.value, 2), sections, tables)
  }

  /** The mapping part of a creation. */
  ghost function ImageMapped(
    w: World, slot: nat, root: nat, stack: Section, sections: seq<Section>, tables: nat): World
    requires slot < |w.slots|
  {
    var (c, got) := TakeTables(w.c, tables);
    if !got || !Loadable(StackMap(stack), sections) then w.(c := c)
    else Filled(Abandoned(w.(c := c), slot), slot, root, stack, sections)
  }

  /** `Other` covers every other client: the rest of the kernel heap, page tables and their clean-up. */
  datatype Event =
    | Allocate(table: nat, size: nat, o: Oracle)
    | Deallocate(table: nat, addr: nat)
    | Other(e: R.Event)
    | Load(n: nat)
    | Create(slot: nat, sections: seq<Section>, tables: nat)

  /** Calls come from a process, so the page table that identifies it is not null; a process is made
      from runs that were loaded for it; clients give back only what they hold. */
  ghost predicate Enabled(w: World, e: Event)
  {
    match e
    case Allocate(table, _, _) => table != 0
    case Deallocate(table, _) => table != 0
    case Other(o) => o.who !in {USER, ROOTS, LISTS, IMAGES} && R.Enabled(w.c, o)
    case Load(_) => true
    case Create(_, sections, _) => FromLoads(w.loose, sections)
  }

  /** The sections that have pages are different runs that were loaded. */
  ghost predicate FromLoads(loose: set<Section>, sections: seq<Section>)
  {
    && (forall t :: 0 <= t < |sections| && sections[t].pages > 0 ==> sections[t] in loose)
    && (forall s, t :: 0 <= s < t < |sections| && sections[s].pages > 0 ==> sections[s] != sections[t])
  }

  /** Likewise for the stack and the sections. */
  ghost predicate AllFromLoads(loose: set<Section>, stack: Section, sections: seq<Section>)
  {
    FromLoads(loose, sections) && stack in loose && stack.pages == 2 && stack !in sections
  }

  ghost function Step(w: World, e: Event): World
  {
    if w.halted then w
    else
      match e
      case Allocate(table, size, o) => AllocateCall(w, table, size, o).0
      case Deallocate(table, addr) => DeallocateCall(w, table, addr).0
      case Other(o) => w.(c := R.Step(w.c, o))
      case Load(n) => LoadCall(w, n)
      case Create(slot, sections, tables) => CreateCall(w, slot, sections, tables)
  }

  ghost function Exec(w: World, es: seq<Event>): World
    decreases |es|
  {
    if es == [] then w else Exec(Step(w, es[0]), es[1..])
  }

  ghost predicate WellBehaved(w: World, es: seq<Event>)
    decreases |es|
  {
    es == [] || (Enabled(w, es[0]) && WellBehaved(Step(w, es[0]), es[1..]))
  }

  // ----- The invariant -----

  /** Every process is in order and no two have a frame in common. */
  ghost predicate SlotsOk(c: R.State, slots: seq<Proc>)
  {
    && (forall k :: 0 <= k < |slots| ==> ProcOk(c, slots[k]))
    && (forall j, k :: 0 <= j < k < |slots| ==> Own(slots[j]) !! Own(slots[k]))
  }

  function AllOwn(slots: seq<Proc>): set<nat>
  {
    set k, x | 0 <= k < |slots| && x in Own(slots[k]) :: x
  }

  function LoosePages(loose: set<Section>): set<nat>
  {
    set s, x | s in loose && x in SectionRun(s) :: x
  }

  /** The loose runs are held for images and have no frame in common. */
  ghost predicate LooseOk(c: R.State, loose: set<Section>)
  {
    && LoosePages(loose) <= Kind(c, IMAGES)
    && (forall s, t :: s in loose && t in loose && s != t ==> SectionRun(s) !! SectionRun(t))
  }

  /** Every frame held for heap pages, lists and images is behind a process, loose or leaked, and
      only one of these. */
  ghost predicate Accounted(c: R.State, slots: seq<Proc>, loose: set<Section>, leaked: set<nat>)
  {
    && Mine(c) == AllOwn(slots) + LoosePages(loose) + leaked
    && AllOwn(slots) !! LoosePages(loose) && AllOwn(slots) + LoosePages(loose) !! leaked
  }

  /** Every process has a top-level table of its own. */
  ghost predicate RootsOk(roots: set<nat>, slots: seq<Proc>)
  {
    && (forall k :: 0 <= k < |slots| ==>
          && slots[k].tableAddr % PAGE_SIZE == 0
          && (slots[k].tableAddr != 0 ==> slots[k].tableAddr / PAGE_SIZE in roots))
    && (forall j, k :: 0 <= j < k < |slots| && slots[j].tableAddr != 0 ==> slots[j].tableAddr != slots[k].tableAddr)
  }

  /** What holds as long as the kernel runs. */
  ghost predicate Inv(f0: Frames, w: World)
  {
    !w.halted ==>
      && R.Inv(f0, w.c) && SlotsOk(w.c, w.slots) && LooseOk(w.c, w.loose)
      && Accounted(w.c, w.slots, w.loose, w.leaked) && RootsOk(Kind(w.c, ROOTS), w.slots)
  }

  // ----- One process changes -----

  /** Changing one process swaps its frames in the union. */
  lemma SwapOwn(slots: seq<Proc>, k: nat, p: Proc)
    requires k < |slots|
    requires forall i, j :: 0 <= i < j < |slots| ==> Own(slots[i]) !! Own(slots[j])
    ensures Own(slots[k]) <= AllOwn(slots)
    ensures AllOwn(slots[k := p]) == AllOwn(slots) - Own(slots[k]) + Own(p)
  {
    hide Own;
    var after := slots[k := p];
    forall x
      ensures x in AllOwn(after) <==> x in Own(p) || (x in AllOwn(slots) && x !in Own(slots[k]))
    {
      if x in Own(p) {
        assert x in Own(after[k]);
      }
      if j :| 0 <= j < |slots| && x in Own(slots[j]) && x !in Own(slots[k]) {
        assert after[j] == slots[j];
      }
      if j :| 0 <= j < |slots| && x in Own(after[j]) && j != k {
        assert after[j] == slots[j];
      }
    }
  }

  /** A call with a footprint keeps every process in order and the frames accounted for. */
  lemma ReplaceSlot(c: R.State, slots: seq<Proc>, d: R.State, k: nat, p: Proc, lost: set<nat>, rest: set<nat>)
    requires SlotsOk(c, slots) && k < |slots| && Footprint(c, slots[k], d, p, lost) && ProcOk(d, p)
    requires Mine(c) == AllOwn(slots) + rest && AllOwn(slots) !! rest
    ensures SlotsOk(d, slots[k := p])
    ensures Mine(d) == AllOwn(slots[k := p]) + rest + lost
    ensures AllOwn(slots[k := p]) !! rest + lost && rest !! lost
  {
    hide ProcOk, Own, Mine, AllOwn;
    SwapOwn(slots, k, p);
    forall j | 0 <= j < |slots| && j != k
      ensures ProcOk(d, slots[j]) && Own(slots[j]) !! Own(p)
    {
      SwapOwn(slots, j, p);
      ProcOkSurvives(c, d, slots[j]);
    }
  }

  lemma LooseSurvives(c: R.State, d: R.State, loose: set<Section>)
    requires LooseOk(c, loose)
    requires forall x :: x in c.owner && x in LoosePages(loose) ==> x in d.owner && d.owner[x] == c.owner[x]
    ensures LooseOk(d, loose)
  {
    hide LoosePages, SectionRun;
  }

  lemma RootsSurvive(roots: set<nat>, slots: seq<Proc>, more: set<nat>, k: nat, p: Proc)
    requires RootsOk(roots, slots) && roots <= more && k < |slots| && p.tableAddr in {0, slots[k].tableAddr}
    ensures RootsOk(more, slots[k := p])
  {
  }

  /** A call of one process keeps the whole invariant. */
  lemma CallKeepsInv(f0: Frames, w: World, d: R.State, k: nat, p: Proc, lost: set<nat>)
    requires Inv(f0, w) && !w.halted && k < |w.slots| && R.Inv(f0, d)
    requires Footprint(w.c, w.slots[k], d, p, lost) && ProcOk(d, p) && p.tableAddr in {0, w.slots[k].tableAddr}
    ensures Inv(f0, w.(c := d, slots := w.slots[k := p], leaked := w.leaked + lost))
  {
    hide R.Inv, ProcOk, Own, AllOwn, LoosePages, SlotsOk, LooseOk, RootsOk, Kind, Footprint, Mine;
    var rest := LoosePages(w.loose) + w.leaked;
    ReplaceSlot(w.c, w.slots, d, k, p, lost, rest);
    OthersKeepTheirFrames(w.c, w.slots, d, k, p, lost, w.loose);
    LooseSurvives(w.c, d, w.loose);
    RootsSurvive(Kind(w.c, ROOTS), w.slots, Kind(d, ROOTS), k, p);
  }

  lemma OthersKeepTheirFrames(
    c: R.State, slots: seq<Proc>, d: R.State, k: nat, p: Proc, lost: set<nat>, loose: set<Section>)
    requires SlotsOk(c, slots) && k < |slots| && Footprint(c, slots[k], d, p, lost)
    requires AllOwn(slots) !! LoosePages(loose)
    ensures forall x :: x in c.owner && x in LoosePages(loose) ==> x in d.owner && d.owner[x] == c.owner[x]
    ensures Kind(c, ROOTS) <= Kind(d, ROOTS)
  {
    hide ProcOk, Own, AllOwn, LoosePages, HeapFrames, ImageFrames, Buffer.Pages, Injective;
    SwapOwn(slots, k, p);
    OwnParts(c, slots[k]);
    RootsAreNotMine(c, Own(slots[k]));
  }

  lemma RootsAreNotMine(c: R.State, own: set<nat>)
    requires own <= Mine(c)
    ensures own !! Kind(c, ROOTS)
  {
  }

  /** The calls leave the identity of a process alone. */
  lemma SameTable(c: R.State, p: Proc, size: nat, o: Oracle, addr: nat)
    ensures HeapAllocate(c, p, size, o).p.tableAddr == p.tableAddr
    ensures HeapDeallocate(c, p, addr).p.tableAddr == p.tableAddr
  {
    hide MapLoop, UnmapLoop, HeapTop, PushList, DropList;
  }

  lemma NoneLostOnSuccess(c: R.State, p: Proc, size: nat, o: Oracle)
    requires var r := HeapAllocate(c, p, size, o).result; r.Code? && r.value >= 0
    ensures Lost(c, p, size, o) == {}
  {
    AllocateShape(c, p, size, o);
    hide HeapAllocate, MapLoop;
  }

  lemma AllocateKeepsInv(f0: Frames, w: World, table: nat, size: nat, o: Oracle)
    requires f0.Valid() && Inv(f0, w) && table != 0 && !w.halted
    ensures Inv(f0, AllocateCall(w, table, size, o).0)
  {
    hide R.Inv, HeapAllocate, ProcOk, Own, Footprint, Lost, Grows, Kind, Accounted, LooseOk, RootsOk;
    var k := FindSlot(w.slots, table);
    if size > 0 && k < |w.slots| {
      var p := w.slots[k];
      var r := HeapAllocate(w.c, p, size, o);
      if r.result.Code? {
        if r.result.value >= 0 {
          AllocateSucceeds(f0, w.c, p, size, o);
          NoneLostOnSuccess(w.c, p, size, o);
        } else {
          AllocateFails(f0, w.c, p, size, o);
        }
        SameTable(w.c, p, size, o, 0);
        CallKeepsInv(f0, w, r.c, k, r.p, Lost(w.c, p, size, o));
      }
    }
  }

  lemma DeallocateKeepsInv(f0: Frames, w: World, table: nat, addr: nat)
    requires f0.Valid() && Inv(f0, w)
    ensures Inv(f0, DeallocateCall(w, table, addr).0)
  {
    hide R.Inv, HeapDeallocate, ProcOk, Own, Footprint, HeapFrames, RangePages, GivesBack, Backing,
      Kind, Accounted, LooseOk, RootsOk;
    var k := FindSlot(w.slots, table);
    if !w.halted && k < |w.slots| {
      var r := HeapDeallocate(w.c, w.slots[k], addr);
      DeallocateReleasesOneRange(f0, w.c, w.slots[k], addr);
      SameTable(w.c, w.slots[k], 0, Oracle(_ => 0, _ => 0, 0), addr);
      CallKeepsInv(f0, w, r.c, k, r.p, {});
      assert w.leaked + {} == w.leaked;
    }
  }

  // ----- Nobody's process changes -----

  /** Nothing held for heap pages, lists, images or top-level tables changed hands. */
  ghost predicate Quiet(c: R.State, d: R.State)
  {
    && Mine(d) == Mine(c) && d.f.Base() == c.f.Base() && Kind(c, ROOTS) <= Kind(d, ROOTS)
    && (forall x :: x in Mine(c) ==> x in d.owner && d.owner[x] == c.owner[x])
  }

  lemma QuietKeepsInv(f0: Frames, w: World, d: R.State)
    requires Inv(f0, w) && !w.halted && R.Inv(f0, d) && Quiet(w.c, d)
    ensures Inv(f0, w.(c := d))
  {
    hide R.Inv, ProcOk, Own, AllOwn, LoosePages, Kind;
    forall k | 0 <= k < |w.slots|
      ensures ProcOk(d, w.slots[k])
    {
      SwapOwn(w.slots, k, w.slots[k]);
      ProcOkSurvives(w.c, d, w.slots[k]);
    }
    LooseSurvives(w.c, d, w.loose);
  }

  lemma QuietReflexive(c: R.State)
    ensures Quiet(c, c)
  {
  }

  lemma QuietTransitive(c: R.State, d: R.State, e: R.State)
    requires Quiet(c, d) && Quiet(d, e)
    ensures Quiet(c, e)
  {
    hide Kind;
  }

  lemma OtherIsQuiet(f0: Frames, c: R.State, o: R.Event)
    requires f0.Valid() && R.Inv(f0, c) && R.Enabled(c, o) && o.who !in {USER, ROOTS, LISTS, IMAGES}
    ensures R.Inv(f0, R.Step(c, o)) && Quiet(c, R.Step(c, o))
  {
    match o {
      case Take(who, n) =>
        R.HandsOutOnlyFreePages(f0, c, n);
        R.TakeKeepsInv(f0, c, who, n);
      case Give(who, p, n) =>
        R.GiveKeepsInv(f0, c, who, p, n);
    }
  }

  lemma RootIsQuiet(f0: Frames, c: R.State)
    requires f0.Valid() && R.Inv(f0, c) && Chosen(c.f, 1).Some?
    ensures var x, d := Chosen(c.f, 1).value, R.Step(c, R.Take(ROOTS, 1));
      R.Inv(f0, d) && Quiet(c, d) && x !in Kind(c, ROOTS) && x in Kind(d, ROOTS)
  {
    R.HandsOutOnlyFreePages(f0, c, 1);
    R.TakeKeepsInv(f0, c, ROOTS, 1);
    var x := Chosen(c.f, 1).value;
    assert Run(x, 1) == {x};
    assert R.Step(c, R.Take(ROOTS, 1)).owner == c.owner + R.Owned({x}, ROOTS);
    hide R.Inv, Chosen, R.Step;
  }

  lemma {:induction false} TablesAreQuiet(f0: Frames, c: R.State, k: nat)
    requires f0.Valid() && R.Inv(f0, c)
    ensures R.Inv(f0, TakeTables(c, k).0) && Quiet(c, TakeTables(c, k).0)
    decreases k
  {
    hide R.Inv, R.Step, Chosen, Quiet;
    QuietReflexive(c);
    if k > 0 && Chosen(c.f, 1).Some? {
      var d := R.Step(c, R.Take(TABLES, 1));
      OtherIsQuiet(f0, c, R.Take(TABLES, 1));
      TablesAreQuiet(f0, d, k - 1);
      QuietTransitive(c, d, TakeTables(c, k).0);
    }
  }

  // ----- Processes are created -----

  lemma LoadKeepsInv(f0: Frames, w: World, n: nat)
    requires f0.Valid() && Inv(f0, w) && !w.halted
    ensures Inv(f0, LoadCall(w, n))
  {
    hide R.Inv, R.Step, Chosen, SlotsOk, ProcOk, Own, AllOwn, LoosePages, Kind, RootsOk, SectionRun, Mine;
    if n > 0 && Chosen(w.c.f, n).Some? {
      var s := Section(Chosen(w.c.f, n).value, n);
      var d := R.Step(w.c, R.Take(IMAGES, n));
      RunLoaded(f0, w.c, n);
      LooseGrows(w.loose, s);
      SlotsSurvive(w.c, d, w.slots);
      LooseSurvives(w.c, d, w.loose);
      assert LoosePages(w.loose) <= Mine(w.c);
      forall t | t in w.loose
        ensures SectionRun(t) !! SectionRun(s)
      {
        LooseHasRun(w.loose, t);
      }
    }
  }

  lemma LooseGrows(loose: set<Section>, s: Section)
    ensures LoosePages(loose + {s}) == LoosePages(loose) + SectionRun(s)
  {
    hide SectionRun;
  }

  lemma RunLoaded(f0: Frames, c: R.State, n: nat)
    requires f0.Valid() && R.Inv(f0, c) && Chosen(c.f, n).Some?
    ensures var s, d := Section(Chosen(c.f, n).value, n), R.Step(c, R.Take(IMAGES, n));
      && R.Inv(f0, d) && Mine(d) == Mine(c) + SectionRun(s) && SectionRun(s) !! Mine(c)
      && Kind(d, IMAGES) == Kind(c, IMAGES) + SectionRun(s) && Kind(d, ROOTS) == Kind(c, ROOTS)
      && d.f.Base() == c.f.Base() && (forall x :: x in c.owner ==> x in d.owner && d.owner[x] == c.owner[x])
  {
    R.HandsOutOnlyFreePages(f0, c, n);
    R.TakeKeepsInv(f0, c, IMAGES, n);
    var r := SectionRun(Section(Chosen(c.f, n).value, n));
    assert R.Step(c, R.Take(IMAGES, n)).owner == c.owner + R.Owned(r, IMAGES);
    hide R.Inv, Chosen, R.Step, SectionRun, Run;
  }

  lemma SlotsSurvive(c: R.State, d: R.State, slots: seq<Proc>)
    requires SlotsOk(c, slots) && d.f.Base() == c.f.Base()
    requires forall x :: x in c.owner ==> x in d.owner && d.owner[x] == c.owner[x]
    ensures SlotsOk(d, slots)
  {
    hide ProcOk, Own;
    forall k | 0 <= k < |slots|
      ensures ProcOk(d, slots[k])
    {
      ProcOkSurvives(c, d, slots[k]);
    }
  }

  lemma EmptySlotOk(c: R.State, normal: bool)
    ensures ProcOk(c, EmptySlot(normal)) && Own(EmptySlot(normal)) == {}
  {
    assert HeapPages([]) == {};
  }

  /** Reusing a slot gives its range list back and leaks the frames behind its pages. */
  lemma AbandonKeepsInv(f0: Frames, w: World, slot: nat)
    requires f0.Valid() && Inv(f0, w) && !w.halted && slot < |w.slots|
    ensures Inv(f0, Abandoned(w, slot)) && Kind(w.c, ROOTS) <= Kind(Abandoned(w, slot).c, ROOTS)
  {
    hide R.Inv, ProcOk, Footprint, Kind, Accounted, LooseOk, RootsOk, DropList, Own, Buffer.Pages, EmptySlot, Backing;
    var gone := w.slots[slot];
    var d := DropList(w.c, gone.buffer);
    AbandonedFootprint(f0, w.c, gone);
    EmptySlotOk(d, gone.normal);
    EmptyTable(gone.normal);
    CallKeepsInv(f0, w, d, slot, EmptySlot(gone.normal), Backing(gone.space, gone.space.Keys));
  }

  lemma EmptyTable(normal: bool)
    ensures EmptySlot(normal).tableAddr == 0 && EmptySlot(normal).normal == normal
  {
  }

  lemma AbandonedFootprint(f0: Frames, c: R.State, p: Proc)
    requires f0.Valid() && R.Inv(f0, c) && ProcOk(c, p)
    ensures var d := DropList(c, p.buffer);
      && R.Inv(f0, d) && Kind(c, ROOTS) <= Kind(d, ROOTS)
      && Footprint(c, p, d, EmptySlot(p.normal), Backing(p.space, p.space.Keys))
  {
    hide R.Inv, ProcOk, DropList, EmptySlot, HeapFrames, ImageFrames, Backing, Grows, HeldIsUsed, Footprint, Own, Kind;
    var d := DropList(c, p.buffer);
    InvHeldIsUsed(f0, c);
    SpaceIsNotAList(c, p);
    ListIsHeld(c, p);
    DropKeepsInv(f0, c, p.buffer);
    DropGrows(c, p.buffer);
    KindsGrow(c, p.buffer, d, NoBuffer, {});
    EmptySlotOk(d, p.normal);
    ListDropped(c, p, d, EmptySlot(p.normal));
  }

  lemma ListIsHeld(c: R.State, p: Proc)
    requires ProcOk(c, p)
    ensures p.buffer.Pages() <= Kind(c, LISTS)
  {
  }

  lemma ListDropped(c: R.State, p: Proc, d: R.State, p': Proc)
    requires Grows(c, p.buffer, d, NoBuffer, {}) && Mine(d) == Mine(c) - p.buffer.Pages()
    requires Backing(p.space, p.space.Keys) !! p.buffer.Pages() && Backing(p.space, p.space.Keys) <= Mine(c)
    requires Own(p') == {}
    ensures Footprint(c, p, d, p', Backing(p.space, p.space.Keys)) && Kind(c, ROOTS) <= Kind(d, ROOTS)
  {
    hide Buffer.Pages, Backing, Mine, Fixed;
    assert Own(p) == Backing(p.space, p.space.Keys) + p.buffer.Pages();
    assert Mine(d) == Mine(c) - Own(p) + Backing(p.space, p.space.Keys);
  }

  lemma LooseHasRun(loose: set<Section>, s: Section)
    requires s in loose
    ensures SectionRun(s) <= LoosePages(loose)
  {
    hide SectionRun;
  }

  lemma ConsumedIsApart(c: R.State, loose: set<Section>, stack: Section, sections: seq<Section>)
    requires LooseOk(c, loose) && AllFromLoads(loose, stack, sections)
    ensures stack.pages == 2 && Apart(stack, sections)
  {
    hide LoosePages, Run;
    forall t | 0 <= t < |sections| && sections[t].pages == 0
      ensures SectionRun(sections[t]) == {}
    {
      EmptyRun(sections[t]);
    }
    hide SectionRun;
  }

  lemma EmptyRun(s: Section)
    requires s.pages == 0
    ensures SectionRun(s) == {}
  {
  }

  /** The loose frames a creation uses up are those of its stack and sections. */
  lemma ConsumedPages(c: R.State, loose: set<Section>, stack: Section, sections: seq<Section>)
    requires LooseOk(c, loose) && AllFromLoads(loose, stack, sections)
    ensures SectionRun(stack) + SectionFrames(sections) <= LoosePages(loose)
    ensures LoosePages(loose - Consumed(stack, sections)) ==
      LoosePages(loose) - (SectionRun(stack) + SectionFrames(sections))
  {
    forall t | 0 <= t < |sections|
      ensures SectionRun(sections[t]) <= LoosePages(loose)
    {
      if sections[t].pages == 0 {
        EmptyRun(sections[t]);
      } else {
        LooseHasRun(loose, sections[t]);
      }
    }
    LooseHasRun(loose, stack);
    forall x | x in LoosePages(loose)
      ensures x in LoosePages(loose - Consumed(stack, sections)) <==>
        x !in SectionRun(stack) + SectionFrames(sections)
    {
      LoosePageConsumed(c, loose, stack, sections, x);
    }
    hide SectionRun;
  }

  lemma LoosePageConsumed(c: R.State, loose: set<Section>, stack: Section, sections: seq<Section>, x: nat)
    requires LooseOk(c, loose) && AllFromLoads(loose, stack, sections) && x in LoosePages(loose)
    ensures x in LoosePages(loose - Consumed(stack, sections)) <==> x !in SectionRun(stack) + SectionFrames(sections)
  {
    var left := loose - Consumed(stack, sections);
    var s :| s in loose && x in SectionRun(s);
    if s in Consumed(stack, sections) {
      assert x in SectionRun(stack) + SectionFrames(sections);
      assert x !in LoosePages(left);
    } else {
      assert s in left;
    }
  }

  lemma NewProcOk(c: R.State, p: Proc)
    requires p.ranges == [] && p.buffer == NoBuffer && p.space == p.image && STACK_PAGE in p.image
    requires Injective(p.image, p.image.Keys) && Backing(p.image, p.image.Keys) <= Kind(c, IMAGES)
    ensures ProcOk(c, p) && Own(p) == Backing(p.image, p.image.Keys)
  {
    assert HeapPages([]) == {};
    hide Backing, Kind, Injective;
  }

  /** Filling an empty slot from loose runs keeps the invariant. */
  lemma FillKeepsInv(f0: Frames, w: World, slot: nat, root: nat, stack: Section, sections: seq<Section>)
    requires Inv(f0, w) && !w.halted && slot < |w.slots| && w.slots[slot] == EmptySlot(w.slots[slot].normal)
    requires AllFromLoads(w.loose, stack, sections) && Loadable(StackMap(stack), sections)
    requires FreshRoot(w.c, w.slots, root)
    ensures Inv(f0, Filled(w, slot, root, stack, sections))
  {
    hide R.Inv, SlotsOk, ProcOk, Own, AllOwn, LoosePages, Kind, Mine, SectionRun, SectionFrames, AllFromLoads,
      ImageOf, Loadable, Injective, Backing, Apart, Consumed;
    var image := ImageOf(stack, sections);
    var p := Proc(w.slots[slot].normal, root * PAGE_SIZE, [], NoBuffer, image, image);
    ConsumedIsApart(w.c, w.loose, stack, sections);
    ImageBacking(stack, sections);
    ConsumedPages(w.c, w.loose, stack, sections);
    NewProcOk(w.c, p);
    EmptySlotOk(w.c, w.slots[slot].normal);
    FilledSlots(w.c, w.slots, slot, p, LoosePages(w.loose));
    NewRoot(Kind(w.c, ROOTS), w.slots, slot, p, root);
  }

  lemma FilledSlots(c: R.State, slots: seq<Proc>, slot: nat, p: Proc, loose: set<nat>)
    requires SlotsOk(c, slots) && slot < |slots| && Own(slots[slot]) == {} && ProcOk(c, p)
    requires Own(p) <= loose && AllOwn(slots) !! loose
    ensures SlotsOk(c, slots[slot := p]) && AllOwn(slots[slot := p]) == AllOwn(slots) + Own(p)
  {
    hide ProcOk, Own, AllOwn;
    SwapOwn(slots, slot, p);
    forall j | 0 <= j < |slots| && j != slot
      ensures Own(slots[j]) !! Own(p)
    {
      SwapOwn(slots, j, p);
    }
  }

  lemma NewRoot(roots: set<nat>, slots: seq<Proc>, slot: nat, p: Proc, root: nat)
    requires RootsOk(roots, slots) && slot < |slots| && root in roots && p.tableAddr == root * PAGE_SIZE
    requires forall j :: 0 <= j < |slots| && slots[j].tableAddr != 0 ==> slots[j].tableAddr / PAGE_SIZE != root
    ensures RootsOk(roots, slots[slot := p])
  {
    assert p.tableAddr / PAGE_SIZE == root && p.tableAddr % PAGE_SIZE == 0;
  }

  /** A frame that is no table's yet stays free for the new process. */
  ghost predicate FreshRoot(c: R.State, slots: seq<Proc>, root: nat)
  {
    && root in Kind(c, ROOTS)
    && (forall j :: 0 <= j < |slots| && slots[j].tableAddr != 0 ==> slots[j].tableAddr / PAGE_SIZE != root)
  }

  lemma MappedKeepsInv(
    f0: Frames, w: World, slot: nat, root: nat, stack: Section, sections: seq<Section>, tables: nat)
    requires f0.Valid() && Inv(f0, w) && !w.halted && slot < |w.slots|
    requires FreshRoot(w.c, w.slots, root) && AllFromLoads(w.loose, stack, sections)
    ensures Inv(f0, ImageMapped(w, slot, root, stack, sections, tables))
  {
    hide R.Inv, TakeTables, Kind, SlotsOk, LooseOk, Accounted, AllFromLoads, Loadable, Filled, EmptySlot, Quiet,
      StackMap, RootsOk;
    var (c, got) := TakeTables(w.c, tables);
    TablesAreQuiet(f0, w.c, tables);
    QuietKeepsInv(f0, w, c);
    RootsKept(w.c, c);
    if got && Loadable(StackMap(stack), sections) {
      AbandonKeepsInv(f0, w.(c := c), slot);
      EmptyTable(w.slots[slot].normal);
      FillKeepsInv(f0, Abandoned(w.(c := c), slot), slot, root, stack, sections);
    }
  }

  lemma CreateKeepsInv(f0: Frames, w: World, slot: nat, sections: seq<Section>, tables: nat)
    requires f0.Valid() && Inv(f0, w) && !w.halted && FromLoads(w.loose, sections)
    ensures Inv(f0, CreateCall(w, slot, sections, tables))
  {
    hide R.Inv, R.Step, Chosen, Kind, SlotsOk, LooseOk, Accounted, FromLoads, Loadable, ImageMapped, Quiet, LoadCall;
    if slot < |w.slots| && Chosen(w.c.f, 1).Some? {
      var root := Chosen(w.c.f, 1).value;
      RootIsQuiet(f0, w.c);
      var w1 := w.(c := R.Step(w.c, R.Take(ROOTS, 1)));
      QuietKeepsInv(f0, w, w1.c);
      if Chosen(w1.c.f, 2).Some? {
        var stack := Section(Chosen(w1.c.f, 2).value, 2);
        LoadKeepsInv(f0, w1, 2);
        StackIsNew(f0, w1, sections);
        MappedKeepsInv(f0, LoadCall(w1, 2), slot, root, stack, sections, tables);
      }
    }
  }

  /** The stack is no section's run, and taking it leaves the roots alone. */
  lemma StackIsNew(f0: Frames, w: World, sections: seq<Section>)
    requires f0.Valid() && Inv(f0, w) && !w.halted && FromLoads(w.loose, sections) && Chosen(w.c.f, 2).Some?
    ensures var v := LoadCall(w, 2);
      && !v.halted && v.slots == w.slots && Kind(v.c, ROOTS) == Kind(w.c, ROOTS)
      && AllFromLoads(v.loose, Section(Chosen(w.c.f, 2).value, 2), sections)
  {
    hide R.Inv, R.Step, Chosen, Kind, SlotsOk, RootsOk, LoosePages, Mine, Run;
    var stack := Section(Chosen(w.c.f, 2).value, 2);
    RunLoaded(f0, w.c, 2);
    if stack in w.loose {
      LooseHasRun(w.loose, stack);
      InSection([stack], 0, 0);
    }
  }

  lemma RootsKept(c: R.State, d: R.State)
    requires Quiet(c, d)
    ensures Kind(c, ROOTS) <= Kind(d, ROOTS)
  {
  }

  // ----- Whole runs -----

  lemma StepKeepsInv(f0: Frames, w: World, e: Event)
    requires f0.Valid() && Inv(f0, w) && Enabled(w, e)
    ensures Inv(f0, Step(w, e))
  {
    hide R.Inv, R.Step, SlotsOk, LooseOk, Accounted, RootsOk, FromLoads, AllocateCall, DeallocateCall,
      LoadCall, CreateCall, R.Enabled, Quiet;
    if !w.halted {
      match e {
        case Allocate(table, size, o) => AllocateKeepsInv(f0, w, table, size, o);
        case Deallocate(table, addr) => DeallocateKeepsInv(f0, w, table, addr);
        case Other(o) =>
          OtherIsQuiet(f0, w.c, o);
          QuietKeepsInv(f0, w, R.Step(w.c, o));
        case Load(n) => LoadKeepsInv(f0, w, n);
        case Create(slot, sections, tables) => CreateKeepsInv(f0, w, slot, sections, tables);
      }
    }
  }

  lemma {:induction false} RunKeepsInv(f0: Frames, w: World, es: seq<Event>)
    requires f0.Valid() && Inv(f0, w) && WellBehaved(w, es)
    ensures Inv(f0, Exec(w, es))
    decreases |es|
  {
    hide Inv, Step, Enabled;
    if es != [] {
      StepKeepsInv(f0, w, es[0]);
      RunKeepsInv(f0, Step(w, es[0]), es[1..]);
    }
  }

  /** All process slots unused, nothing handed out. */
  function Boot(f0: Frames, normals: nat, drivers: nat): World
  {
    World(
      R.Start(f0), seq(normals, _ => EmptySlot(true)) + seq(drivers, _ => EmptySlot(false)), {}, {}, false)
  }

  lemma BootInv(f0: Frames, normals: nat, drivers: nat)
    requires f0.Valid()
    ensures Inv(f0, Boot(f0, normals, drivers))
  {
    var w := Boot(f0, normals, drivers);
    forall k | 0 <= k < |w.slots|
      ensures ProcOk(w.c, w.slots[k]) && Own(w.slots[k]) == {} && w.slots[k].tableAddr == 0
    {
      EmptySlotOk(w.c, w.slots[k].normal);
      EmptyTable(w.slots[k].normal);
    }
    hide ProcOk, Own, EmptySlot;
    assert AllOwn(w.slots) == {};
    hide AllOwn;
  }

  /** In every state of every run of a kernel that has not stopped: the range lists are sorted, aligned
      and disjoint, exactly their pages are mapped on top of the image, and the frame behind a page is
      used and is behind no other page of any process. */
  lemma NoFrameBacksTwoPages(
    f0: Frames, normals: nat, drivers: nat, es: seq<Event>, j: nat, q: nat, k: nat, q': nat)
    requires f0.Valid() && WellBehaved(Boot(f0, normals, drivers), es)
    ensures var w := Exec(Boot(f0, normals, drivers), es);
      && Inv(f0, w)
      && (!w.halted && j < |w.slots| && q in w.slots[j].space ==>
            var x := w.slots[j].space[q];
            && x in w.c.f.used && f0.Base() <= x < f0.maxPage
            && (k < |w.slots| && q' in w.slots[k].space && w.slots[k].space[q'] == x ==> j == k && q == q'))
  {
    hide Exec, WellBehaved, Boot, R.Inv, ProcOk, Own, LooseOk, Accounted, RootsOk;
    BootInv(f0, normals, drivers);
    RunKeepsInv(f0, Boot(f0, normals, drivers), es);
    var w := Exec(Boot(f0, normals, drivers), es);
    if !w.halted && j < |w.slots| && q in w.slots[j].space {
      PageIsOwn(f0, w.c, w.slots[j], q);
      if k < |w.slots| && q' in w.slots[k].space {
        PageIsOwn(f0, w.c, w.slots[k], q');
        if j == k && q != q' {
          OneFramePerPage(w.c, w.slots[j], q, q');
        }
      }
    }
  }

  lemma PageIsOwn(f0: Frames, c: R.State, p: Proc, q: nat)
    requires R.Inv(f0, c) && ProcOk(c, p) && q in p.space
    ensures p.space[q] in Own(p) && p.space[q] in c.f.used && f0.Base() <= p.space[q] < f0.maxPage
  {
    OwnParts(c, p);
    hide ProcOk, HeapFrames, ImageFrames, Buffer.Pages;
    assert p.space[q] in Backing(p.space, p.space.Keys);
  }

  lemma OneFramePerPage(c: R.State, p: Proc, q: nat, q': nat)
    requires ProcOk(c, p) && q in p.space && q' in p.space && q != q'
    ensures p.space[q] != p.space[q']
  {
    OwnParts(c, p);
    hide ProcOk, HeapFrames, ImageFrames, Own;
  }

  // ----- Where the frames go -----

  function AllHeapFrames(slots: seq<Proc>): set<nat>
  {
    set k, x | 0 <= k < |slots| && x in HeapFrames(slots[k]) :: x
  }

  /** In every run, the frames held for heap pages are exactly those behind the heap pages of some
      process and the leaked ones; no frame is both. */
  lemma HeapFramesAreAccountedFor(f0: Frames, normals: nat, drivers: nat, es: seq<Event>)
    requires f0.Valid() && WellBehaved(Boot(f0, normals, drivers), es)
    ensures var w := Exec(Boot(f0, normals, drivers), es);
      !w.halted ==>
        && Kind(w.c, USER) == AllHeapFrames(w.slots) + w.leaked * Kind(w.c, USER)
        && AllHeapFrames(w.slots) !! w.leaked
  {
    hide Exec, WellBehaved, Boot, Inv;
    BootInv(f0, normals, drivers);
    RunKeepsInv(f0, Boot(f0, normals, drivers), es);
    var w := Exec(Boot(f0, normals, drivers), es);
    if !w.halted {
      forall x
        ensures x in AllHeapFrames(w.slots) ==> x in Kind(w.c, USER) && x !in w.leaked
        ensures x in Kind(w.c, USER) ==> x in AllHeapFrames(w.slots) || x in w.leaked
      {
        HeapFrameIsAccountedFor(f0, w, x);
      }
    }
  }

  lemma HeapFrameIsAccountedFor(f0: Frames, w: World, x: nat)
    requires Inv(f0, w) && !w.halted
    ensures x in AllHeapFrames(w.slots) ==> x in Kind(w.c, USER) && x !in w.leaked
    ensures x in Kind(w.c, USER) ==> x in AllHeapFrames(w.slots) || x in w.leaked
  {
    hide R.Inv, RootsOk, HeapFrames, ProcOk, Own;
    if x in AllHeapFrames(w.slots) {
      var k :| 0 <= k < |w.slots| && x in HeapFrames(w.slots[k]);
      OwnParts(w.c, w.slots[k]);
      assert x in AllOwn(w.slots);
    }
    if x in Kind(w.c, USER) && x in AllOwn(w.slots) {
      var k :| 0 <= k < |w.slots| && x in Own(w.slots[k]);
      OwnParts(w.c, w.slots[k]);
      NotImageNorList(w.c, w.slots[k], x);
    }
  }

  lemma NotImageNorList(c: R.State, p: Proc, x: nat)
    requires ProcOk(c, p) && x in Kind(c, USER)
    ensures x !in ImageFrames(p) && x !in p.buffer.Pages()
  {
    hide Buffer.Pages, RangesOk, HeapPages, Held;
  }

  lemma StepLeaks(w: World, e: Event)
    ensures w.leaked <= Step(w, e).leaked
  {
    hide HeapAllocate, HeapDeallocate, Lost, TakeTables, R.Step, Chosen, Loadable, ImageOf, Backing, FindSlot;
  }

  lemma {:induction false} LeakOnlyGrows(w: World, es: seq<Event>)
    ensures w.leaked <= Exec(w, es).leaked
    decreases |es|
  {
    hide Step;
    if es != [] {
      StepLeaks(w, es[0]);
      LeakOnlyGrows(Step(w, es[0]), es[1..]);
    }
  }

  /** What is leaked at some point of a run is still leaked, used and behind no page at every later
      point of it. */
  lemma LeakedFramesNeverComeBack(
    f0: Frames, normals: nat, drivers: nat, es: seq<Event>, more: seq<Event>, k: nat, q: nat)
    requires f0.Valid() && WellBehaved(Boot(f0, normals, drivers), es)
    requires WellBehaved(Exec(Boot(f0, normals, drivers), es), more)
    ensures var w := Exec(Boot(f0, normals, drivers), es);
      var v := Exec(w, more);
      !v.halted ==>
        && w.leaked <= v.leaked <= v.c.f.used
        && (k < |v.slots| && q in v.slots[k].space ==> v.slots[k].space[q] !in w.leaked)
  {
    hide Exec, WellBehaved, Boot, ProcOk, Own, RootsOk, LooseOk;
    BootInv(f0, normals, drivers);
    RunKeepsInv(f0, Boot(f0, normals, drivers), es);
    var w := Exec(Boot(f0, normals, drivers), es);
    RunKeepsInv(f0, w, more);
    LeakOnlyGrows(w, more);
    var v := Exec(w, more);
    if !v.halted {
      MineIsUsed(f0, v.c);
      hide R.Inv;
      if k < |v.slots| && q in v.slots[k].space {
        PageIsOwn(f0, v.c, v.slots[k], q);
        assert v.slots[k].space[q] in AllOwn(v.slots);
      }
    }
  }

  lemma MineIsUsed(f0: Frames, c: R.State)
    requires R.Inv(f0, c)
    ensures Mine(c) <= c.f.used
  {
  }

  // ----- What the caller sees -----

  /** In every run, a successful call returns a positive address in the heap window whose whole range
      stays below the stack; a failed call returns a negative code, unless it stops the kernel. */
  lemma ReturnedAddressIsInTheHeapWindow(
    f0: Frames, normals: nat, drivers: nat, es: seq<Event>, table: nat, size: nat, o: Oracle)
    requires f0.Valid() && WellBehaved(Boot(f0, normals, drivers), es) && table != 0
    ensures var w := Exec(Boot(f0, normals, drivers), es);
      var r := AllocateCall(w, table, size, o).1;
      !w.halted ==> r.Halted? || InWindow(r.value, size)
  {
    hide Exec, AllocateCall, Inv, WellBehaved, Boot, InWindow;
    BootInv(f0, normals, drivers);
    RunKeepsInv(f0, Boot(f0, normals, drivers), es);
    var w := Exec(Boot(f0, normals, drivers), es);
    if !w.halted {
      CodeInWindow(f0, w, table, size, o);
    }
  }

  /** An error code, or an address whose range fits between the heap bottom and the stack. */
  predicate InWindow(code: int, size: nat)
  {
    || code == -16 || code == -17 || code == -18
    || (HEAP_BOTTOM <= code && code % PAGE_SIZE == 0 && code + size <= STACK_BASE && 0 < size)
  }

  lemma CodeInWindow(f0: Frames, w: World, table: nat, size: nat, o: Oracle)
    requires f0.Valid() && Inv(f0, w) && !w.halted && table != 0
    ensures var r := AllocateCall(w, table, size, o).1; r.Halted? || InWindow(r.value, size)
  {
    hide HeapAllocate, R.Inv, ProcOk, HeapFrames, Grows, Footprint, Lost, RootsOk, LooseOk, Accounted;
    var k := FindSlot(w.slots, table);
    if k < |w.slots| && size > 0 {
      var r := HeapAllocate(w.c, w.slots[k], size, o).result;
      if r.Code? {
        if r.value >= 0 {
          AllocateSucceeds(f0, w.c, w.slots[k], size, o);
        } else {
          AllocateFails(f0, w.c, w.slots[k], size, o);
        }
      }
    }
  }
}
