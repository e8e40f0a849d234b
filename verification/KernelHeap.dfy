/** The kernel's global heap: every block is a run of whole frames. */
module KernelHeap {
  import opened Prelude
  import opened FrameSpec
  import FA = FrameAlloc
  import FrameRuns

  datatype Layout = Layout(size: nat, align: nat)
  {
    function PageCount(): nat
    {
      DivCeil(size, PAGE_SIZE)
    }
  }

  const NULL: nat := 0

  /** The requests the heap forwards to the frame provider. */
  predicate Served(layout: Layout)
  {
    layout.size != 0 && layout.align <= PAGE_SIZE
  }

  function AllocSpec(f: Frames, layout: Layout): (Frames, nat)
  {
    if !Served(layout) then (f, NULL)
    else
      var (g, r) := Allocate(f, layout.PageCount());
      (g, if r.Some? then r.value * PAGE_SIZE else NULL)
  }

  function DeallocSpec(f: Frames, ptr: nat, layout: Layout): Frames
  {
    if layout.size == 0 then f else Release(f, ptr / PAGE_SIZE, layout.PageCount())
  }

  class HeapAlloc {
    /** The registered frame provider, if any. */
    var provider: FA.FrameAlloc?

    constructor ()
      ensures provider == null
    {
      provider := null;
    }

    /** Only the first registration takes effect. */
    method SetFrameProvider(p: FA.FrameAlloc)
      modifies this
      ensures provider == if old(provider) == null then p else old(provider)
    {
      if provider == null {
        provider := p;
      }
    }

    method Alloc(layout: Layout) returns (ptr: nat)
      requires provider != null ==> provider.View().Valid()
      modifies provider, if provider == null then {} else {provider.bitmap}
      ensures provider == null ==> ptr == NULL
      ensures provider != null ==>
        (provider.View(), ptr) ==
          AllocSpec(old(if provider == null then Frames({}, 0, 0, 0, 0, 0) else provider.View()), layout)
    {
      if layout.size == 0 {
        return NULL;
      }
      if layout.align > PAGE_SIZE {
        return NULL;
      }
      if provider == null {
        return NULL;
      }
      var pages := DivCeil(layout.size, PAGE_SIZE);
      var pfn := provider.AllocateContiguous(pages);
      if pfn.None? {
        return NULL;
      }
      return pfn.value * PAGE_SIZE;
    }

    method Dealloc(ptr: nat, layout: Layout)
      modifies if provider == null then {} else {provider.bitmap}
      ensures provider != null ==>
        provider.View() ==
          DeallocSpec(old(if provider == null then Frames({}, 0, 0, 0, 0, 0) else provider.View()), ptr, layout)
    {
      if layout.size == 0 || provider == null {
        return;
      }
      var pages := DivCeil(layout.size, PAGE_SIZE);
      provider.DeallocateContiguous(ptr / PAGE_SIZE, pages);
    }
  }

  // ----- Alignment -----

  predicate IsPowerOfTwo(n: nat)
  {
    n == 1 || (n > 0 && n % 2 == 0 && IsPowerOfTwo(n / 2))
  }

  ghost predicate Divides(d: nat, x: nat)
  {
    exists k: nat :: x == k * d
  }

  lemma {:induction false} PowersDivide(a: nat, b: nat)
    requires IsPowerOfTwo(a) && IsPowerOfTwo(b) && a <= b
    ensures Divides(a, b)
  {
    if a == 1 {
      assert b == b * a;
    } else {
      PowersDivide(a / 2, b / 2);
      var k: nat :| b / 2 == k * (a / 2);
      calc {
        b;
        2 * (b / 2);
        2 * (k * (a / 2));
        k * (2 * (a / 2));
        k * a;
      }
    }
  }

  lemma MulAssociates(a: nat, b: nat, c: nat)
    ensures a * (b * c) == (a * b) * c
  {
  }

  lemma DividesMultiple(d: nat, x: nat, m: nat)
    requires Divides(d, x)
    ensures Divides(d, m * x)
  {
    var k: nat :| x == k * d;
    MulAssociates(m, k, d);
  }

  lemma PageSizeIsAPower()
    ensures IsPowerOfTwo(PAGE_SIZE)
  {
    assert IsPowerOfTwo(4) && IsPowerOfTwo(16) && IsPowerOfTwo(64) && IsPowerOfTwo(256) && IsPowerOfTwo(1024);
  }

  /** A page address honours every power-of-two alignment up to the page size. */
  lemma PageAddressIsAligned(pfn: nat, align: nat)
    requires IsPowerOfTwo(align) && align <= PAGE_SIZE
    ensures Divides(align, pfn * PAGE_SIZE)
  {
    hide IsPowerOfTwo, Divides;
    PageSizeIsAPower();
    PowersDivide(align, PAGE_SIZE);
    DividesMultiple(align, PAGE_SIZE, pfn);
  }

  // ----- Whole runs -----

  /** The heap is one client of the frame allocator among others. */
  const HEAP: nat := 0

  datatype Event =
    | Alloc(layout: Layout)
    | Dealloc(ptr: nat, layout: Layout)
    | Other(e: FrameRuns.Event)

  datatype State = State(frames: FrameRuns.State, blocks: map<nat, Layout>)

  function PagesOf(ptr: nat, layout: Layout): set<nat>
  {
    Run(ptr / PAGE_SIZE, layout.PageCount())
  }

  /** Layouts are well formed, blocks are freed with the layout they were allocated
      with, and no other client acts under the heap's name. */
  ghost predicate Enabled(s: State, e: Event)
  {
    match e
    case Alloc(layout) => IsPowerOfTwo(layout.align)
    case Dealloc(ptr, layout) => ptr in s.blocks && s.blocks[ptr] == layout
    case Other(o) => o.who != HEAP && FrameRuns.Enabled(s.frames, o)
  }

  function Step(s: State, e: Event): State
  {
    match e
    case Alloc(layout) =>
      if !Served(layout) then s
      else
        var ptr := AllocSpec(s.frames.f, layout).1;
        State(FrameRuns.Step(s.frames, FrameRuns.Take(HEAP, layout.PageCount())),
              if Chosen(s.frames.f, layout.PageCount()).None? then s.blocks else s.blocks[ptr := layout])
    case Dealloc(ptr, layout) =>
      State(FrameRuns.Step(s.frames, FrameRuns.Give(HEAP, ptr / PAGE_SIZE, layout.PageCount())), s.blocks - {ptr})
    case Other(o) => s.(frames := FrameRuns.Step(s.frames, o))
  }

  /** The run's frame state is the one the heap methods leave behind. */
  lemma StepIsTheHeapsOwn(s: State, layout: Layout, ptr: nat)
    ensures Step(s, Alloc(layout)).frames.f == AllocSpec(s.frames.f, layout).0
    ensures layout.size > 0 ==> Step(s, Dealloc(ptr, layout)).frames.f == DeallocSpec(s.frames.f, ptr, layout)
  {
  }

  ghost predicate WellBehaved(s: State, es: seq<Event>)
    decreases |es|
  {
    es == [] || (Enabled(s, es[0]) && WellBehaved(Step(s, es[0]), es[1..]))
  }

  function Exec(s: State, es: seq<Event>): State
    decreases |es|
  {
    if es == [] then s else Exec(Step(s, es[0]), es[1..])
  }

  ghost predicate HeldByHeap(s: State, ptr: nat)
    requires ptr in s.blocks
  {
    forall p :: p in PagesOf(ptr, s.blocks[ptr]) ==> p in s.frames.owner && s.frames.owner[p] == HEAP
  }

  ghost predicate Inv(f0: Frames, s: State)
  {
    && FrameRuns.Inv(f0, s.frames)
    && (forall a :: a in s.blocks ==> Served(s.blocks[a]) && IsPowerOfTwo(s.blocks[a].align) && a % PAGE_SIZE == 0)
    && (forall a :: a in s.blocks ==> HeldByHeap(s, a))
    && (forall a, b :: a in s.blocks && b in s.blocks && a != b ==> PagesOf(a, s.blocks[a]) !! PagesOf(b, s.blocks[b]))
  }

  lemma AllocKeepsInv(f0: Frames, s: State, layout: Layout)
    requires f0.Valid() && Inv(f0, s) && IsPowerOfTwo(layout.align)
    ensures Inv(f0, Step(s, Alloc(layout)))
  {
    var n := layout.PageCount();
    if Served(layout) && Chosen(s.frames.f, n).Some? {
      FrameRuns.HandsOutOnlyFreePages(f0, s.frames, n);
      FrameRuns.TakeKeepsInv(f0, s.frames, HEAP, n);
      var pfn := Chosen(s.frames.f, n).value;
      var t := Step(s, Alloc(layout));
      assert t.frames.owner == s.frames.owner + FrameRuns.Owned(Run(pfn, n), HEAP);
      hide FrameRuns.Inv, FrameRuns.Step, Chosen, Fits;
      NewBlock(f0, s, t, pfn, layout);
    }
  }

  /** A block on pages nobody held is disjoint from all others. */
  lemma NewBlock(f0: Frames, s: State, t: State, pfn: nat, layout: Layout)
    requires Inv(f0, s) && FrameRuns.Inv(f0, t.frames) && Served(layout) && IsPowerOfTwo(layout.align)
    requires Run(pfn, layout.PageCount()) !! s.frames.owner.Keys
    requires t.frames.owner == s.frames.owner + FrameRuns.Owned(Run(pfn, layout.PageCount()), HEAP)
    requires t.blocks == s.blocks[pfn * PAGE_SIZE := layout]
    ensures Inv(f0, t)
  {
    hide FrameRuns.Inv, IsPowerOfTwo, Run, PagesOf, Layout.PageCount, HeldByHeap;
    var ptr := pfn * PAGE_SIZE;
    NewBlockHeld(s, t, pfn, layout);
    forall a | a in s.blocks
      ensures a != ptr && HeldByHeap(t, a) && PagesOf(a, s.blocks[a]) !! PagesOf(ptr, layout)
    {
      OldBlockKept(s, t, a, pfn, layout);
    }
  }

  lemma NewBlockHeld(s: State, t: State, pfn: nat, layout: Layout)
    requires t.frames.owner == s.frames.owner + FrameRuns.Owned(Run(pfn, layout.PageCount()), HEAP)
    requires t.blocks == s.blocks[pfn * PAGE_SIZE := layout]
    ensures HeldByHeap(t, pfn * PAGE_SIZE) && (pfn * PAGE_SIZE) % PAGE_SIZE == 0
  {
    assert (pfn * PAGE_SIZE) / PAGE_SIZE == pfn;
  }

  lemma OldBlockKept(s: State, t: State, a: nat, pfn: nat, layout: Layout)
    requires a in s.blocks && a in t.blocks && Served(layout) && (a != pfn * PAGE_SIZE ==> t.blocks[a] == s.blocks[a])
    requires HeldByHeap(s, a) && Served(s.blocks[a]) && a % PAGE_SIZE == 0
    requires Run(pfn, layout.PageCount()) !! s.frames.owner.Keys
    requires t.frames.owner == s.frames.owner + FrameRuns.Owned(Run(pfn, layout.PageCount()), HEAP)
    ensures a != pfn * PAGE_SIZE && HeldByHeap(t, a) && PagesOf(a, s.blocks[a]) !! PagesOf(pfn * PAGE_SIZE, layout)
  {
    assert a / PAGE_SIZE in PagesOf(a, s.blocks[a]);
    assert pfn in Run(pfn, layout.PageCount());
    assert (pfn * PAGE_SIZE) / PAGE_SIZE == pfn;
  }

  lemma DeallocKeepsInv(f0: Frames, s: State, ptr: nat, layout: Layout)
    requires f0.Valid() && Inv(f0, s) && ptr in s.blocks && s.blocks[ptr] == layout
    ensures Inv(f0, Step(s, Dealloc(ptr, layout)))
  {
    assert HeldByHeap(s, ptr);
    FrameRuns.GiveKeepsInv(f0, s.frames, HEAP, ptr / PAGE_SIZE, layout.PageCount());
    var t := Step(s, Dealloc(ptr, layout));
    forall a | a in t.blocks
      ensures HeldByHeap(t, a)
    {
      assert HeldByHeap(s, a);
    }
  }

  lemma OtherKeepsInv(f0: Frames, s: State, o: FrameRuns.Event)
    requires f0.Valid() && Inv(f0, s) && Enabled(s, Other(o))
    ensures Inv(f0, Step(s, Other(o)))
  {
    match o {
      case Take(who, n) =>
        FrameRuns.HandsOutOnlyFreePages(f0, s.frames, n);
        FrameRuns.TakeKeepsInv(f0, s.frames, who, n);
      case Give(who, p, n) =>
        FrameRuns.GiveKeepsInv(f0, s.frames, who, p, n);
    }
    var t := Step(s, Other(o));
    forall a | a in t.blocks
      ensures HeldByHeap(t, a)
    {
      assert HeldByHeap(s, a);
    }
  }

  lemma {:induction false} RunKeepsInv(f0: Frames, s: State, es: seq<Event>)
    requires f0.Valid() && Inv(f0, s) && WellBehaved(s, es)
    ensures Inv(f0, Exec(s, es))
    decreases |es|
  {
    if es != [] {
      match es[0] {
        case Alloc(layout) => AllocKeepsInv(f0, s, layout);
        case Dealloc(ptr, layout) => DeallocKeepsInv(f0, s, ptr, layout);
        case Other(o) => OtherKeepsInv(f0, s, o);
      }
      RunKeepsInv(f0, Step(s, es[0]), es[1..]);
    }
  }

  /** Over every run, two live blocks share no byte, a block lies inside managed memory
      above the kernel's pages, and it has the alignment that was asked for. */
  lemma LiveBlocksAreDisjointAndAligned(f0: Frames, es: seq<Event>, a: nat, b: nat)
    requires f0.Valid() && WellBehaved(State(FrameRuns.Start(f0), map[]), es)
    ensures var s := Exec(State(FrameRuns.Start(f0), map[]), es);
      a in s.blocks ==>
        && Divides(s.blocks[a].align, a)
        && f0.Base() * PAGE_SIZE <= a && a + s.blocks[a].size <= f0.maxPage * PAGE_SIZE
        && (b in s.blocks && a != b ==> a + s.blocks[a].size <= b || b + s.blocks[b].size <= a)
  {
    RunKeepsInv(f0, State(FrameRuns.Start(f0), map[]), es);
    var s := Exec(State(FrameRuns.Start(f0), map[]), es);
    if a in s.blocks {
      PageAddressIsAligned(a / PAGE_SIZE, s.blocks[a].align);
      BlockInBounds(f0, s, a);
      if b in s.blocks && a != b {
        DisjointRunsAreOrdered(a / PAGE_SIZE, s.blocks[a].PageCount(), b / PAGE_SIZE, s.blocks[b].PageCount());
      }
    }
  }

  lemma BlockInBounds(f0: Frames, s: State, a: nat)
    requires Inv(f0, s) && a in s.blocks
    ensures f0.Base() * PAGE_SIZE <= a && a + s.blocks[a].size <= f0.maxPage * PAGE_SIZE
  {
    var first, n := a / PAGE_SIZE, s.blocks[a].PageCount();
    assert HeldByHeap(s, a);
    assert first in PagesOf(a, s.blocks[a]) && first + n - 1 in PagesOf(a, s.blocks[a]);
  }

  lemma DisjointRunsAreOrdered(s: nat, n: nat, t: nat, m: nat)
    requires 0 < n && 0 < m && Run(s, n) !! Run(t, m)
    ensures s + n <= t || t + m <= s
  {
    assert s in Run(s, n) && t in Run(t, m);
    assert s in Run(t, m) || t in Run(s, n) || s + n <= t || t + m <= s;
  }

  /** Freeing with the matching layout names exactly the frames the allocation obtained,
      so it undoes the allocation unless the block sits on the first allocatable page. */
  lemma DeallocUndoesAlloc(f: Frames, layout: Layout)
    requires f.Valid() && Served(layout) && Chosen(f, layout.PageCount()).Some?
    ensures var (g, ptr) := AllocSpec(f, layout);
      && PagesOf(ptr, layout) == g.used - f.used
      && (DeallocSpec(g, ptr, layout).used == f.used <==> ptr != f.Base() * PAGE_SIZE)
  {
    RoundTrip(f, layout.PageCount());
    ChosenIsFirstFit(f, layout.PageCount());
    var pfn := Chosen(f, layout.PageCount()).value;
    assert (pfn * PAGE_SIZE) / PAGE_SIZE == pfn;
  }

  /** A block takes exactly the fewest whole pages that hold its size, from its address on; freeing it
      names the same pages. */
  lemma BlockIsFewestPages(f: Frames, layout: Layout, n: nat)
    requires f.Valid() && Served(layout) && n * PAGE_SIZE - PAGE_SIZE < layout.size <= n * PAGE_SIZE
    ensures Chosen(f, n).Some? ==>
      var (g, ptr) := AllocSpec(f, layout);
      && ptr % PAGE_SIZE == 0 && g.used == f.used + Run(ptr / PAGE_SIZE, n) && Run(ptr / PAGE_SIZE, n) !! f.used
      && (f.Base() < ptr / PAGE_SIZE ==>
            DeallocSpec(g, ptr, layout).used == g.used - Run(ptr / PAGE_SIZE, n))
    ensures Chosen(f, n).None? ==> AllocSpec(f, layout) == (f, NULL)
  {
    assert n == layout.PageCount();
    ChosenIsFirstFit(f, n);
    hide Chosen, Run;
  }

  /** A null pointer is returned exactly for the refused requests and when no free run exists. */
  lemma NullExactlyOnFailure(f: Frames, layout: Layout)
    requires f.Valid() && 0 < f.Base()
    ensures AllocSpec(f, layout).1 == NULL <==>
      layout.size == 0 || layout.align > PAGE_SIZE || forall s: nat :: !Fits(f, s, layout.PageCount())
    ensures AllocSpec(f, layout).1 == NULL ==> AllocSpec(f, layout).0 == f
  {
    if Served(layout) {
      FailsOnlyWhenNothingFits(f, layout.PageCount());
    }
  }
}
