/** What the heap system call promises about one process. */
module UserHeapProps {
  import opened Prelude
  import opened FrameSpec
  import opened UserHeapLedger
  import opened UserHeapSpec
  import R = FrameRuns

  /** The pages of one range. */
  function RangePages(r: Range): set<nat>
  {
    if r.start <= r.end then Run(r.start / PAGE_SIZE, DivCeil(r.end - r.start, PAGE_SIZE)) else {}
  }

  function HeapPages(ranges: seq<Range>): set<nat>
  {
    if ranges == [] then {} else HeapPages(ranges[..|ranges| - 1]) + RangePages(ranges[|ranges| - 1])
  }

  /** Page-aligned, non-empty, inside the heap window. */
  predicate RangeOk(r: Range)
  {
    r.start % PAGE_SIZE == 0 && r.end % PAGE_SIZE == 0 && HEAP_BOTTOM <= r.start < r.end <= STACK_BASE
  }

  /** The list is strictly sorted and its ranges are disjoint. */
  ghost predicate RangesOk(ranges: seq<Range>)
  {
    && (forall k :: 0 <= k < |ranges| ==> RangeOk(ranges[k]))
    && (forall j, k :: 0 <= j < k < |ranges| ==> ranges[j].end <= ranges[k].start)
  }

  /** The frames behind the heap of a process, and behind its image. */
  function HeapFrames(p: Proc): set<nat>
  {
    Backing(p.space, HeapPages(p.ranges))
  }

  function ImageFrames(p: Proc): set<nat>
  {
    Backing(p.image, p.image.Keys)
  }

  /** Everything a process has in the ledger: the frames behind its pages and its range list. */
  function Own(p: Proc): set<nat>
  {
    Backing(p.space, p.space.Keys) + p.buffer.Pages()
  }

  /** Range list, mapping and ledger agree: exactly the pages of the ranges are mapped on
      top of the image, and each page of the process is backed by a frame of its own. */
  ghost predicate ProcOk(c: R.State, p: Proc)
  {
    && RangesOk(p.ranges)
    && p.space.Keys == p.image.Keys + HeapPages(p.ranges)
    && p.image.Keys !! HeapPages(p.ranges)
    && (forall q :: q in p.image ==> p.space[q] == p.image[q])
    && (p.tableAddr != 0 ==> STACK_PAGE in p.image)
    && Held(c, p.space, HeapPages(p.ranges))
    && Injective(p.image, p.image.Keys) && ImageFrames(p) <= Kind(c, IMAGES)
    && p.buffer.Pages() <= Kind(c, LISTS)
  }

  /** The frames held for heap pages, lists and images. */
  function Mine(c: R.State): set<nat>
  {
    Kind(c, USER) + Kind(c, LISTS) + Kind(c, IMAGES)
  }

  /** What a call of process `p` does to everybody else: nothing. The process now has `Own(p')`,
      and the frames `lost` are held for it without being reachable. */
  ghost predicate Footprint(c: R.State, p: Proc, d: R.State, p': Proc, lost: set<nat>)
  {
    && (forall x :: x in c.owner && x !in Own(p) ==> x in d.owner && d.owner[x] == c.owner[x])
    && Mine(d) == Mine(c) - Own(p) + Own(p') + lost
    && Own(p') !! lost && Own(p') + lost !! Mine(c) - Own(p)
    && d.f.Base() == c.f.Base()
  }

  /** The pages of a process are backed one by one, by heap frames and image frames. */
  lemma OwnParts(c: R.State, p: Proc)
    requires ProcOk(c, p)
    ensures Own(p) == HeapFrames(p) + ImageFrames(p) + p.buffer.Pages() && Own(p) <= Mine(c)
    ensures HeapFrames(p) <= Kind(c, USER) && Injective(p.space, p.space.Keys)
  {
    hide RangesOk, HeapPages, Buffer.Pages;
    forall q | q in p.image
      ensures p.space[q] in ImageFrames(p)
    {
      assert p.image[q] in Backing(p.image, p.image.Keys);
    }
    assert Backing(p.space, p.space.Keys) == HeapFrames(p) + ImageFrames(p);
  }

  // ----- Range lists -----

  lemma {:induction false} HeapPagesMember(ranges: seq<Range>, q: nat)
    ensures q in HeapPages(ranges) <==> exists k :: 0 <= k < |ranges| && q in RangePages(ranges[k])
  {
    if ranges != [] {
      var rest := ranges[..|ranges| - 1];
      HeapPagesMember(rest, q);
      if q in HeapPages(rest) {
        var k :| 0 <= k < |rest| && q in RangePages(rest[k]);
        assert ranges[k] == rest[k];
      }
      if k :| 0 <= k < |rest| && q in RangePages(ranges[k]) {
        assert rest[k] == ranges[k];
      }
    }
  }

  lemma HeapPagesAppend(ranges: seq<Range>, r: Range)
    ensures HeapPages(ranges + [r]) == HeapPages(ranges) + RangePages(r)
  {
    assert (ranges + [r])[..|ranges|] == ranges;
  }

  /** A page of an aligned range lies between its ends. */
  lemma RangePageBounds(r: Range, q: nat)
    requires RangeOk(r)
    ensures q in RangePages(r) <==> r.start <= q * PAGE_SIZE < r.end
    ensures DivCeil(r.end - r.start, PAGE_SIZE) * PAGE_SIZE == r.end - r.start
  {
  }

  /** Taking one range out of the list takes exactly its pages out of the heap. */
  lemma HeapPagesWithout(ranges: seq<Range>, k: nat)
    requires RangesOk(ranges) && k < |ranges|
    ensures RangesOk(Without(ranges, k))
    ensures HeapPages(Without(ranges, k)) == HeapPages(ranges) - RangePages(ranges[k])
    ensures RangePages(ranges[k]) <= HeapPages(ranges)
  {
    forall q: nat
      ensures q in HeapPages(Without(ranges, k)) <==> q in HeapPages(ranges) && q !in RangePages(ranges[k])
      ensures q in RangePages(ranges[k]) ==> q in HeapPages(ranges)
    {
      WithoutMember(ranges, k, q);
    }
  }

  /** A page belongs to at most one range. */
  lemma OneRangePerPage(ranges: seq<Range>, j: nat, k: nat, q: nat)
    requires RangesOk(ranges) && j < |ranges| && k < |ranges|
    requires q in RangePages(ranges[j]) && q in RangePages(ranges[k])
    ensures j == k
  {
    RangePageBounds(ranges[j], q);
    RangePageBounds(ranges[k], q);
  }

  lemma WithoutMember(ranges: seq<Range>, k: nat, q: nat)
    requires RangesOk(ranges) && k < |ranges|
    ensures q in HeapPages(Without(ranges, k)) <==> q in HeapPages(ranges) && q !in RangePages(ranges[k])
    ensures q in RangePages(ranges[k]) ==> q in HeapPages(ranges)
  {
    hide HeapPages, RangePages, RangesOk;
    var rest := Without(ranges, k);
    HeapPagesMember(ranges, q);
    HeapPagesMember(rest, q);
    if q in HeapPages(ranges) && q !in RangePages(ranges[k]) {
      var j :| 0 <= j < |ranges| && q in RangePages(ranges[j]);
      assert ranges[j] == rest[if j < k then j else j - 1];
    }
    if q in HeapPages(rest) {
      var j :| 0 <= j < |rest| && q in RangePages(rest[j]);
      var i := if j < k then j else j + 1;
      assert rest[j] == ranges[i];
      if q in RangePages(ranges[k]) {
        OneRangePerPage(ranges, i, k, q);
      }
    }
  }

  lemma {:induction false} MaxEndIsMax(ranges: seq<Range>)
    requires ranges != []
    ensures forall k :: 0 <= k < |ranges| ==> ranges[k].end <= MaxEnd(ranges)
    ensures exists k :: 0 <= k < |ranges| && ranges[k].end == MaxEnd(ranges)
  {
    var rest := ranges[..|ranges| - 1];
    if rest != [] {
      MaxEndIsMax(rest);
      var k :| 0 <= k < |rest| && rest[k].end == MaxEnd(rest);
      assert ranges[k] == rest[k];
      assert forall j :: 0 <= j < |rest| ==> ranges[j] == rest[j];
    }
  }

  /** The heap grows from the end of its highest range. */
  lemma HeapTopBounds(ranges: seq<Range>)
    requires RangesOk(ranges)
    ensures var top := HeapTop(ranges);
      && top % PAGE_SIZE == 0 && HEAP_BOTTOM <= top <= STACK_BASE
      && (forall k :: 0 <= k < |ranges| ==> ranges[k].end <= top)
  {
    if ranges != [] {
      MaxEndIsMax(ranges);
    }
  }

  // ----- allocate -----

  /** What the mapping loop of `allocate` does to a process that was in order. */
  lemma AllocationLoop(f0: Frames, c: R.State, p: Proc, n: nat, o: Oracle)
    requires f0.Valid() && R.Inv(f0, c) && ProcOk(c, p) && p.tableAddr != 0
    ensures var first := HeapTop(p.ranges) / PAGE_SIZE;
      var m := MapLoop(c, p.space, NoBuffer, first, 0, n, o);
      && R.Inv(f0, m.c) && m.count <= n && (m.outcome.Mapped? ==> m.count == n)
      && MapsFreshly(c, p.space, NoBuffer, first, m.count, m)
      && Held(m.c, m.space, Run(first, m.count))
      && first + m.count <= STACK_PAGE
  {
    hide R.Inv, MapLoop, HeldIsUsed, Held, HeapTop, HeapPages, RangesOk, MapsFreshly;
    var first := HeapTop(p.ranges) / PAGE_SIZE;
    var m := MapLoop(c, p.space, NoBuffer, first, 0, n, o);
    InvHeldIsUsed(f0, c);
    MapLoopKeepsInv(f0, c, p.space, NoBuffer, first, 0, n, o);
    MapLoopEffect(c, p.space, NoBuffer, first, 0, n, o);
    HeapTopBounds(p.ranges);
    FreshIsHeld(f0, c, p.space, first, m.count, m);
    StackStopsGrowth(c, p.space, first, m.count, m);
  }

  lemma FreshIsHeld(f0: Frames, c: R.State, space: map<nat, nat>, a: nat, k: nat, m: Progress)
    requires R.Inv(f0, m.c) && MapsFreshly(c, space, NoBuffer, a, k, m)
    ensures Held(m.c, m.space, Run(a, k))
  {
    hide Run, Buffer.Pages;
    forall q | q in Run(a, k)
      ensures m.space[q] in Kind(m.c, USER) && m.c.f.Base() <= m.space[q]
    {
      assert m.space[q] in Backing(m.space, Run(a, k));
    }
  }

  /** Fresh pages cannot run into the mapped stack page. */
  lemma StackStopsGrowth(c: R.State, space: map<nat, nat>, first: nat, k: nat, m: Progress)
    requires MapsFreshly(c, space, NoBuffer, first, k, m) && STACK_PAGE in space && first <= STACK_PAGE
    ensures first + k <= STACK_PAGE
  {
    hide Grows, Injective;
    assert STACK_PAGE in Run(first, k) <==> first <= STACK_PAGE < first + k;
  }

  /** The range pushed for `n` pages at the heap top. */
  lemma NewRange(ranges: seq<Range>, n: nat)
    requires RangesOk(ranges) && 0 < n && HeapTop(ranges) / PAGE_SIZE + n <= STACK_PAGE
    ensures var r := Range(HeapTop(ranges), HeapTop(ranges) + PAGE_SIZE * n);
      && RangesOk(ranges + [r]) && RangePages(r) == Run(r.start / PAGE_SIZE, n)
      && HeapPages(ranges + [r]) == HeapPages(ranges) + Run(r.start / PAGE_SIZE, n)
      && r.end <= STACK_BASE
  {
    hide HeapTop, HeapPages;
    var r := Range(HeapTop(ranges), HeapTop(ranges) + PAGE_SIZE * n);
    HeapTopBounds(ranges);
    HeapPagesAppend(ranges, r);
  }

  /** After the loop the range list is pushed and the page list dropped: together with the loop
      that moves only the range list. */
  lemma PushThenDrop(c: R.State, m: R.State, list: Buffer, b: Buffer, grow: nat, mine: set<nat>)
    requires HeldIsUsed(c) && HeldIsUsed(m) && b.Pages() <= Kind(c, LISTS)
    requires Grows(c, NoBuffer, m, list, mine)
    ensures var (d, b', _) := PushList(m, b, grow);
      && b.Pages() <= Kind(m, LISTS) && list.Pages() <= Kind(d, LISTS)
      && Grows(c, b, DropList(d, list), b', mine)
  {
    hide Run;
    var (d, b', _) := PushList(m, b, grow);
    assert NoBuffer.Pages() == {};
    assert b.Pages() <= Kind(m, LISTS);
    PushGrows(m, b, grow);
    hide PushList, DropList, Buffer.Pages;
    ListSurvives(c, m, list, b, d, b', mine);
    DropGrows(d, list);
    SkipList(c, m, list, b, d, b', DropList(d, list), mine);
  }

  lemma ListSurvives(
    c: R.State, m: R.State, list: Buffer, b: Buffer, d: R.State, b': Buffer, mine: set<nat>)
    requires HeldIsUsed(c) && HeldIsUsed(m) && b.Pages() <= Kind(c, LISTS)
    requires NoBuffer.Pages() == {} && Grows(c, NoBuffer, m, list, mine) && Grows(m, b, d, b', {})
    ensures list.Pages() <= Kind(d, LISTS) && list.Pages() !! b'.Pages() && list.Pages() !! c.f.used
  {
    hide Buffer.Pages;
  }

  lemma SkipList(
    c: R.State, m: R.State, list: Buffer, b: Buffer, d: R.State, b': Buffer, e: R.State, mine: set<nat>)
    requires HeldIsUsed(c) && HeldIsUsed(m) && b.Pages() <= Kind(c, LISTS)
    requires NoBuffer.Pages() == {} && list.Pages() !! b'.Pages() && list.Pages() !! c.f.used
    requires Grows(c, NoBuffer, m, list, mine) && Grows(m, b, d, b', {}) && Grows(d, list, e, NoBuffer, {})
    ensures Grows(c, b, e, b', mine)
  {
    SkipListKinds(c, m, list, b, d, b', e, mine);
    hide Buffer.Pages, Kind;
    assert Fixed(c, b) <= Fixed(m, b);
  }

  lemma SkipListKinds(
    c: R.State, m: R.State, list: Buffer, b: Buffer, d: R.State, b': Buffer, e: R.State, mine: set<nat>)
    requires HeldIsUsed(c) && b.Pages() <= Kind(c, LISTS)
    requires NoBuffer.Pages() == {} && list.Pages() !! b'.Pages() && list.Pages() !! c.f.used
    requires Grows(c, NoBuffer, m, list, mine) && Grows(m, b, d, b', {}) && Grows(d, list, e, NoBuffer, {})
    ensures Kind(e, LISTS) == Kind(c, LISTS) - b.Pages() + b'.Pages()
    ensures Kind(e, USER) == Kind(c, USER) + mine
  {
    assert Kind(c, LISTS) !! list.Pages();
    hide Buffer.Pages, Kind, Fixed, StuckIsRefused;
  }

  /** Mapping `n` fresh pages behind the heap keeps the process in order. */
  lemma GrownProcOk(c: R.State, p: Proc, d: R.State, p': Proc, first: nat, n: nat, m: Progress)
    requires ProcOk(c, p) && HeldIsUsed(c) && MapsFreshly(c, p.space, NoBuffer, first, n, m)
    requires Held(d, m.space, Run(first, n))
    requires Grows(c, p.buffer, d, p'.buffer, Backing(m.space, Run(first, n)))
    requires p'.tableAddr == p.tableAddr && p'.space == m.space && p'.image == p.image
    requires RangesOk(p'.ranges) && HeapPages(p'.ranges) == HeapPages(p.ranges) + Run(first, n)
    ensures ProcOk(d, p') && HeapFrames(p') == HeapFrames(p) + Backing(m.space, Run(first, n))
    ensures Own(p') == Backing(p.space, p.space.Keys) + p'.buffer.Pages() + Backing(m.space, Run(first, n))
  {
    hide RangesOk, HeapPages, Run, Buffer.Pages, Grows, Held, HeldIsUsed, Kind, Injective, Backing, Leaf;
    var newer := Run(first, n);
    KindsGrow(c, p.buffer, d, p'.buffer, Backing(m.space, newer));
    GrownHeap(c, p.space, p.buffer, d, p'.buffer, m.space, HeapPages(p.ranges), newer);
    GrownBacking(p.space, m.space, newer);
  }

  lemma GrownBacking(space: map<nat, nat>, space': map<nat, nat>, newer: set<nat>)
    requires space'.Keys == space.Keys + newer && (forall q :: q in space ==> space'[q] == space[q])
    ensures Backing(space', space'.Keys) == Backing(space, space.Keys) + Backing(space', newer)
  {
  }

  lemma GrownHeap(
    c: R.State, space: map<nat, nat>, b: Buffer, d: R.State, b': Buffer, space': map<nat, nat>,
    older: set<nat>, newer: set<nat>)
    requires HeldIsUsed(c) && Held(c, space, older) && Held(d, space', newer)
    requires Grows(c, b, d, b', Backing(space', newer))
    requires forall q :: q in space ==> q in space' && space'[q] == space[q]
    ensures Held(d, space', older + newer)
    ensures Backing(space', older + newer) == Backing(space, older) + Backing(space', newer)
  {
    hide Buffer.Pages;
    assert Kind(c, USER) <= Kind(d, USER) && Kind(c, USER) !! Backing(space', newer);
    forall q | q in newer
      ensures space'[q] !in Kind(c, USER)
    {
      assert space'[q] in Backing(space', newer);
    }
    hide Grows;
  }

  /** The footprint of a call that moved the range list and gained pages. */
  lemma GrowsFootprint(c: R.State, p: Proc, d: R.State, p': Proc, mine: set<nat>, lost: set<nat>)
    requires ProcOk(c, p) && HeldIsUsed(c) && Grows(c, p.buffer, d, p'.buffer, mine + lost) && mine !! lost
    requires Own(p') == Backing(p.space, p.space.Keys) + p'.buffer.Pages() + mine
    ensures Footprint(c, p, d, p', lost)
  {
    OwnParts(c, p);
    KindsGrow(c, p.buffer, d, p'.buffer, mine + lost);
    hide ProcOk, HeapFrames, ImageFrames, Buffer.Pages;
    SpaceIsNotAList(c, p);
  }

  lemma KindsGrow(c: R.State, b: Buffer, d: R.State, b': Buffer, mine: set<nat>)
    requires HeldIsUsed(c) && Grows(c, b, d, b', mine)
    ensures Kind(d, IMAGES) == Kind(c, IMAGES) && Mine(d) == Mine(c) - b.Pages() + b'.Pages() + mine
    ensures b.Pages() <= Kind(c, LISTS) && b'.Pages() <= Kind(d, LISTS) && Mine(c) <= c.f.used
    ensures mine !! b'.Pages()
  {
    hide Buffer.Pages;
  }

  lemma SpaceIsNotAList(c: R.State, p: Proc)
    requires ProcOk(c, p)
    ensures Backing(p.space, p.space.Keys) !! Kind(c, LISTS) && Backing(p.space, p.space.Keys) <= Mine(c)
  {
    hide RangesOk, HeapPages, Buffer.Pages;
    forall q | q in p.space
      ensures p.space[q] in Kind(c, USER) + Kind(c, IMAGES)
    {
      if q in p.image {
        assert p.image[q] in ImageFrames(p);
      }
    }
  }

  /** A successful call returns the old heap top: page-aligned, at or above the heap bottom,
      the new range is large enough, ends below the stack, and all structures agree again. Apart
      from the moved range list nobody lost a frame, and the new frames were held by nobody. */
  lemma AllocateSucceeds(f0: Frames, c: R.State, p: Proc, size: nat, o: Oracle)
    requires f0.Valid() && R.Inv(f0, c) && ProcOk(c, p) && p.tableAddr != 0
    requires var r := HeapAllocate(c, p, size, o).result; r.Code? && r.value >= 0
    ensures var r := HeapAllocate(c, p, size, o);
      && R.Inv(f0, r.c) && ProcOk(r.c, r.p)
      && r.result.value == HeapTop(p.ranges) && r.result.value % PAGE_SIZE == 0
      && HEAP_BOTTOM <= r.result.value && r.result.value + size <= STACK_BASE
      && (exists e: nat :: r.p.ranges == p.ranges + [Range(HeapTop(p.ranges), e)]
                        && HeapTop(p.ranges) + size <= e < HeapTop(p.ranges) + size + PAGE_SIZE)
      && HeapFrames(p) <= HeapFrames(r.p)
      && Grows(c, p.buffer, r.c, r.p.buffer, HeapFrames(r.p) - HeapFrames(p))
      && Footprint(c, p, r.c, r.p, {})
  {
    hide R.Inv, MapLoop, UnmapLoop, PushList, DropList, HeapTop, HeapPages, RangePages, RangesOk, Held, HeldIsUsed,
      MapsFreshly, HeapFrames, Grows, Own, Buffer.Pages, ImageFrames;
    var top, n := HeapTop(p.ranges), DivCeil(size, PAGE_SIZE);
    AllocationLoop(f0, c, p, n, o);
    HeapTopBounds(p.ranges);
    InvHeldIsUsed(f0, c);
    var m := MapLoop(c, p.space, NoBuffer, top / PAGE_SIZE, 0, n, o);
    var r := HeapAllocate(c, p, size, o);
    NewRange(p.ranges, n);
    InvHeldIsUsed(f0, m.c);
    var mine := Backing(m.space, Run(top / PAGE_SIZE, n));
    LoopGrows(c, p.space, top / PAGE_SIZE, n, m);
    PushThenDrop(c, m.c, m.list, p.buffer, o.ranges, mine);
    FinishKeepsInv(f0, m.c, p.buffer, m.list, o.ranges);
    SameBase(f0, m.c, r.c);
    FreshStaysHeld(f0, c, p.buffer, r.c, r.p.buffer, m, top / PAGE_SIZE, n);
    GrownProcOk(c, p, r.c, r.p, top / PAGE_SIZE, n, m);
    assert mine + {} == mine;
    GrowsFootprint(c, p, r.c, r.p, mine, {});
    NewHeapFrames(c, p, mine, r.c, r.p);
  }

  lemma LoopGrows(c: R.State, space: map<nat, nat>, a: nat, k: nat, m: Progress)
    requires MapsFreshly(c, space, NoBuffer, a, k, m) && !m.outcome.NotMapped?
    ensures Grows(c, NoBuffer, m.c, m.list, Backing(m.space, Run(a, k)))
  {
    hide Grows, Run;
    assert Backing(m.space, Run(a, k)) + Leaf(m.outcome) == Backing(m.space, Run(a, k));
  }

  lemma FinishKeepsInv(f0: Frames, c: R.State, b: Buffer, list: Buffer, grow: nat)
    requires f0.Valid() && R.Inv(f0, c) && b.Pages() <= Kind(c, LISTS)
    requires list.Pages() <= Kind(PushList(c, b, grow).0, LISTS)
    ensures R.Inv(f0, DropList(PushList(c, b, grow).0, list))
  {
    hide R.Inv, PushList, DropList, Buffer.Pages;
    PushKeepsInv(f0, c, b, grow);
    DropKeepsInv(f0, PushList(c, b, grow).0, list);
  }

  lemma FreshStaysHeld(
    f0: Frames, c: R.State, b: Buffer, d: R.State, b': Buffer, m: Progress, a: nat, k: nat)
    requires R.Inv(f0, d) && Grows(c, b, d, b', Backing(m.space, Run(a, k)))
    requires Held(m.c, m.space, Run(a, k))
    ensures Held(d, m.space, Run(a, k))
  {
    hide Run, Buffer.Pages;
    forall q | q in Run(a, k)
      ensures m.space[q] in Kind(d, USER) && d.f.Base() <= m.space[q]
    {
      assert m.space[q] in Backing(m.space, Run(a, k));
    }
  }

  lemma NewHeapFrames(c: R.State, p: Proc, mine: set<nat>, d: R.State, p': Proc)
    requires ProcOk(c, p) && HeldIsUsed(c) && Grows(c, p.buffer, d, p'.buffer, mine)
    requires HeapFrames(p') == HeapFrames(p) + mine
    ensures HeapFrames(p') - HeapFrames(p) == mine
  {
    OwnParts(c, p);
    hide ProcOk, HeapFrames, Own, Buffer.Pages, ImageFrames;
  }

  // ----- Failure -----

  /** Giving back the frames of the pages leaves the failed leaf. */
  lemma GrowThenGiveBack(
    f0: Frames, c: R.State, b: Buffer, m: R.State, b': Buffer, d: R.State, gone: set<nat>, leaf: set<nat>)
    requires R.Inv(f0, c) && R.Inv(f0, d) && Grows(c, b, m, b', gone + leaf) && gone !! leaf
    requires GivesBack(m, d, gone)
    ensures Grows(c, b, d, b', leaf) && b'.Pages() <= Kind(d, LISTS)
  {
    KindsRestored(f0, c, b, m, b', d, gone, leaf);
    FixedRemains(f0, c, b, m, b', d, gone, leaf);
    hide Buffer.Pages, Kind, R.Inv, Fixed;
  }

  lemma KindsRestored(
    f0: Frames, c: R.State, b: Buffer, m: R.State, b': Buffer, d: R.State, gone: set<nat>, leaf: set<nat>)
    requires R.Inv(f0, c) && Grows(c, b, m, b', gone + leaf) && gone !! leaf && GivesBack(m, d, gone)
    ensures Kind(d, USER) == Kind(c, USER) + leaf && Kind(d, LISTS) == Kind(m, LISTS)
  {
    hide Buffer.Pages;
    InvHeldIsUsed(f0, c);
    hide R.Inv;
    assert gone <= Kind(m, USER) && gone !! Kind(c, USER);
  }

  lemma FixedRemains(
    f0: Frames, c: R.State, b: Buffer, m: R.State, b': Buffer, d: R.State, gone: set<nat>, leaf: set<nat>)
    requires R.Inv(f0, c) && R.Inv(f0, d) && Grows(c, b, m, b', gone + leaf) && GivesBack(m, d, gone)
    ensures Fixed(c, b) <= d.f.used
    ensures forall x :: x in c.owner && x !in b.Pages() ==> x in d.owner && d.owner[x] == c.owner[x]
    ensures forall x :: x in d.stuck && x !in c.stuck ==> x !in Fixed(c, b)
  {
    hide Buffer.Pages, Kind, Run;
  }

  /** Undoing the pages mapped so far and dropping the page list restores the mapping and leaves
      `USER` with the frames it had, plus the frame of a failed `map_to`. */
  lemma RollbackRestores(f0: Frames, c: R.State, space: map<nat, nat>, first: nat, k: nat, m: Progress)
    requires f0.Valid() && R.Inv(f0, c) && R.Inv(f0, m.c)
    requires MapsFreshly(c, space, NoBuffer, first, k, m) && Held(m.c, m.space, Run(first, k))
    ensures var (d, space') := UnmapLoop(m.c, m.space, first, 0, k);
      && space' == space && m.list.Pages() <= Kind(d, LISTS)
      && R.Inv(f0, DropList(d, m.list))
      && Grows(c, NoBuffer, DropList(d, m.list), NoBuffer, Leaf(m.outcome))
  {
    hide R.Inv, UnmapLoop, Held, DropList, Grows, GivesBack, Buffer.Pages, HeldIsUsed;
    UnmapLoopEffect(m.c, m.space, first, 0, k);
    UnmapLoopKeepsInv(f0, m.c, m.space, first, 0, k);
    var d := UnmapLoop(m.c, m.space, first, 0, k).0;
    assert m.space - Run(first, k) == space;
    GrowThenGiveBack(f0, c, NoBuffer, m.c, m.list, d, Backing(m.space, Run(first, k)), Leaf(m.outcome));
    InvHeldIsUsed(f0, c);
    InvHeldIsUsed(f0, d);
    DropGrows(d, m.list);
    DropKeepsInv(f0, d, m.list);
    GrowsTransitive(c, NoBuffer, d, m.list, DropList(d, m.list), NoBuffer, Leaf(m.outcome), {});
    assert Leaf(m.outcome) + {} == Leaf(m.outcome);
  }

  /** The used pages follow from the holdings. */
  lemma UsedAfterFailure(f0: Frames, c: R.State, d: R.State, leaf: set<nat>)
    requires R.Inv(f0, c) && R.Inv(f0, d) && Grows(c, NoBuffer, d, NoBuffer, leaf)
    ensures c.f.used <= d.f.used
    ensures forall x :: x in d.f.used && x !in c.f.used ==>
      x in leaf + Kind(d, TABLES) || (x in d.stuck && c.f.Base() !in c.f.used)
  {
    assert NoBuffer.Pages() == {};
    hide Buffer.Pages;
    assert Kind(d, LISTS) == Kind(c, LISTS);
    if d.refusals == 1 {
      assert forall n: nat :: n > 0 ==> f0.Base() in Run(f0.Base(), n);
    }
  }

  /** A process keeps its order as long as its frames keep their holders. */
  lemma ProcOkSurvives(c: R.State, d: R.State, p: Proc)
    requires ProcOk(c, p) && d.f.Base() == c.f.Base()
    requires forall x :: x in c.owner && x in Own(p) ==> x in d.owner && d.owner[x] == c.owner[x]
    ensures ProcOk(d, p)
  {
    OwnParts(c, p);
    hide RangesOk, HeapPages, Buffer.Pages, Own;
    forall q | q in HeapPages(p.ranges)
      ensures p.space[q] in Kind(d, USER)
    {
      assert p.space[q] in HeapFrames(p);
    }
  }

  /** The frame a failing call loses: taken for a page that could not be mapped. */
  function Lost(c: R.State, p: Proc, size: nat, o: Oracle): set<nat>
  {
    if size == 0 then {}
    else
      var m := MapLoop(c, p.space, NoBuffer, HeapTop(p.ranges) / PAGE_SIZE, 0, DivCeil(size, PAGE_SIZE), o);
      Leaf(m.outcome)
  }

  /** A failing call leaves the process exactly as it was and the kernel lists as they were. What it
      leaves behind in the ledger are page-table frames and the frame of a page that could not be
      mapped; the allocator can hold back frames only while its first allocatable frame was free. */
  lemma AllocateFails(f0: Frames, c: R.State, p: Proc, size: nat, o: Oracle)
    requires f0.Valid() && R.Inv(f0, c) && ProcOk(c, p) && p.tableAddr != 0
    requires var r := HeapAllocate(c, p, size, o).result; r.Code? && r.value < 0
    ensures var r := HeapAllocate(c, p, size, o);
      && R.Inv(f0, r.c) && r.p == p && ProcOk(r.c, p)
      && r.result.value == (if size == 0 then -16 else -18) && (size == 0 ==> r.c == c)
      && Grows(c, NoBuffer, r.c, NoBuffer, Lost(c, p, size, o))
      && Footprint(c, p, r.c, p, Lost(c, p, size, o))
      && c.f.used <= r.c.f.used
      && (forall x :: x in r.c.f.used && x !in c.f.used ==>
          x in Lost(c, p, size, o) + Kind(r.c, TABLES) || (x in r.c.stuck && c.f.Base() !in c.f.used))
  {
    hide R.Inv, MapLoop, UnmapLoop, PushList, DropList, HeapTop, HeapPages, RangePages, RangesOk, Held, HeldIsUsed,
      MapsFreshly, HeapFrames, Grows, Own, Buffer.Pages, ImageFrames, ProcOk, Kind, Footprint;
    var top, n := HeapTop(p.ranges), DivCeil(size, PAGE_SIZE);
    var r := HeapAllocate(c, p, size, o);
    if size == 0 {
      NothingLost(c);
    } else {
      AllocationLoop(f0, c, p, n, o);
      var m := MapLoop(c, p.space, NoBuffer, top / PAGE_SIZE, 0, n, o);
      RollbackRestores(f0, c, p.space, top / PAGE_SIZE, m.count, m);
    }
    UsedAfterFailure(f0, c, r.c, Lost(c, p, size, o));
    FailureFootprint(f0, c, r.c, p, Lost(c, p, size, o));
  }

  lemma NothingLost(c: R.State)
    ensures Grows(c, NoBuffer, c, NoBuffer, {})
  {
  }

  lemma FailureFootprint(f0: Frames, c: R.State, d: R.State, p: Proc, lost: set<nat>)
    requires R.Inv(f0, c) && ProcOk(c, p) && Grows(c, NoBuffer, d, NoBuffer, lost)
    ensures ProcOk(d, p) && Footprint(c, p, d, p, lost)
  {
    InvHeldIsUsed(f0, c);
    KindsGrow(c, NoBuffer, d, NoBuffer, lost);
    assert NoBuffer.Pages() == {};
    hide ProcOk, HeapFrames, ImageFrames, Buffer.Pages, Own, R.Inv, Kind;
    OwnParts(c, p);
    ProcOkSurvives(c, d, p);
  }

  // ----- deallocate -----

  lemma RangeIsRun(ranges: seq<Range>, k: nat)
    requires RangesOk(ranges) && k < |ranges|
    ensures var r := ranges[k];
      r.start <= r.end && RangePages(r) == Run(r.start / PAGE_SIZE, DivCeil(r.end - r.start, PAGE_SIZE))
  {
  }

  lemma HeldSubset(c: R.State, space: map<nat, nat>, pages: set<nat>, part: set<nat>)
    requires Held(c, space, pages) && part <= pages
    ensures Held(c, space, part)
  {
  }

  /** Releasing one range: its pages are unmapped, its frames given back, nothing else changes. */
  lemma DeallocateReleasesOneRange(f0: Frames, c: R.State, p: Proc, addr: nat)
    requires f0.Valid() && R.Inv(f0, c) && ProcOk(c, p)
    ensures var r := HeapDeallocate(c, p, addr);
      var k := FindRange(p.ranges, addr);
      && R.Inv(f0, r.c) && ProcOk(r.c, r.p) && Footprint(c, p, r.c, r.p, {})
      && (k == |p.ranges| ==> r == Reply(c, p, Code(-17)))
      && (k < |p.ranges| ==>
          && r.result == Code(0) && r.p.ranges == Without(p.ranges, k)
          && RangePages(p.ranges[k]) <= p.space.Keys && r.p.space == p.space - RangePages(p.ranges[k])
          && GivesBack(c, r.c, Backing(p.space, RangePages(p.ranges[k])))
          && HeapFrames(r.p) == HeapFrames(p) - Backing(p.space, RangePages(p.ranges[k])))
  {
    hide R.Inv, UnmapLoop, HeapPages, RangePages, RangesOk, Held, HeapFrames, GivesBack, Own, Buffer.Pages,
      ImageFrames, Footprint, Kind, Backing;
    var k := FindRange(p.ranges, addr);
    var r := HeapDeallocate(c, p, addr);
    if k < |p.ranges| {
      var range := p.ranges[k];
      RangeIsRun(p.ranges, k);
      HeapPagesWithout(p.ranges, k);
      HeldSubset(c, p.space, HeapPages(p.ranges), RangePages(range));
      var n := DivCeil(range.end - range.start, PAGE_SIZE);
      UnmapLoopEffect(c, p.space, range.start / PAGE_SIZE, 0, n);
      UnmapLoopKeepsInv(f0, c, p.space, range.start / PAGE_SIZE, 0, n);
      ShrunkProcOk(c, p, r.c, r.p, RangePages(range));
    } else {
      SameFootprint(c, p);
    }
  }

  lemma SameFootprint(c: R.State, p: Proc)
    requires ProcOk(c, p)
    ensures Footprint(c, p, c, p, {})
  {
    OwnParts(c, p);
    hide ProcOk, HeapFrames, ImageFrames, Buffer.Pages, Own, Kind;
  }

  /** A process that gives back some of its heap pages stays in order. */
  lemma ShrunkProcOk(c: R.State, p: Proc, d: R.State, p': Proc, gone: set<nat>)
    requires ProcOk(c, p) && GivesBack(c, d, Backing(p.space, gone)) && gone <= HeapPages(p.ranges)
    requires p' == p.(space := p.space - gone, ranges := p'.ranges)
    requires RangesOk(p'.ranges) && HeapPages(p'.ranges) == HeapPages(p.ranges) - gone
    ensures ProcOk(d, p') && HeapFrames(p') == HeapFrames(p) - Backing(p.space, gone)
    ensures Footprint(c, p, d, p', {})
  {
    hide RangesOk, HeapPages, Buffer.Pages, Own, Footprint, Held, Injective, Kind, Backing, GivesBack;
    OwnParts(c, p);
    PartOfHeap(p, gone);
    HeldIsInjective(c, p.space, HeapPages(p.ranges));
    AllBacking(p.space, gone);
    ShrunkBacking(p.space, HeapPages(p.ranges), gone);
    ShrunkBacking(p.space, p.space.Keys, gone);
    ShrunkHeld(c, p.space, d, HeapPages(p.ranges), gone);
    KindsShrink(c, d, Backing(p.space, gone));
    ShrunkFootprint(c, p, d, p', Backing(p.space, gone));
  }

  lemma HeldIsInjective(c: R.State, space: map<nat, nat>, pages: set<nat>)
    requires Held(c, space, pages)
    ensures Injective(space, pages)
  {
  }

  lemma AllBacking(space: map<nat, nat>, pages: set<nat>)
    ensures Backing(space, pages) <= Backing(space, space.Keys)
  {
  }

  lemma ShrunkBacking(space: map<nat, nat>, pages: set<nat>, gone: set<nat>)
    requires Injective(space, pages) && gone <= pages <= space.Keys
    ensures Backing(space - gone, pages - gone) == Backing(space, pages) - Backing(space, gone)
  {
    forall x | x in Backing(space, pages) - Backing(space, gone)
      ensures x in Backing(space - gone, pages - gone)
    {
      var q :| q in pages && space[q] == x;
      assert q in (space - gone) && (space - gone)[q] == x;
    }
  }

  lemma ShrunkHeld(c: R.State, space: map<nat, nat>, d: R.State, pages: set<nat>, gone: set<nat>)
    requires Held(c, space, pages) && gone <= pages && GivesBack(c, d, Backing(space, gone))
    ensures Held(d, space - gone, pages - gone)
  {
  }

  /** Only heap frames are given back. */
  lemma KindsShrink(c: R.State, d: R.State, gone: set<nat>)
    requires GivesBack(c, d, gone) && gone <= Kind(c, USER)
    ensures Kind(d, LISTS) == Kind(c, LISTS) && Kind(d, IMAGES) == Kind(c, IMAGES)
    ensures Mine(d) == Mine(c) - gone
  {
  }

  lemma ShrunkFootprint(c: R.State, p: Proc, d: R.State, p': Proc, gone: set<nat>)
    requires ProcOk(c, p) && GivesBack(c, d, gone) && gone <= Kind(c, USER)
    requires p'.buffer == p.buffer && gone <= Backing(p.space, p.space.Keys)
    requires Backing(p'.space, p'.space.Keys) == Backing(p.space, p.space.Keys) - gone
    ensures Footprint(c, p, d, p', {})
  {
    OwnParts(c, p);
    KindsShrink(c, d, gone);
    hide HeapFrames, ImageFrames, Buffer.Pages, Backing, Injective, Held, HeapPages, RangesOk, R.Inv;
    assert p.buffer.Pages() !! gone;
  }

  // ----- Round trip -----

  /** An address of a range behind all the others finds that range. */
  lemma FindsLast(ranges: seq<Range>, r: Range, addr: nat)
    requires RangesOk(ranges + [r]) && r.start <= addr < r.end
    ensures FindRange(ranges + [r], addr) == |ranges|
  {
    assert (ranges + [r])[|ranges|] == r;
    assert forall k :: 0 <= k < |ranges| ==> (ranges + [r])[k] == ranges[k];
  }

  /** What a successful call leaves in the process. */
  lemma AllocateShape(c: R.State, p: Proc, size: nat, o: Oracle)
    requires var r := HeapAllocate(c, p, size, o).result; r.Code? && 0 <= r.value
    ensures var top, n := HeapTop(p.ranges), DivCeil(size, PAGE_SIZE);
      var m := MapLoop(c, p.space, NoBuffer, top / PAGE_SIZE, 0, n, o);
      var r := HeapAllocate(c, p, size, o);
      && 0 < n && size <= PAGE_SIZE * n && m.outcome.Mapped? && r.result == Code(top)
      && r.p == p.(space := m.space, ranges := p.ranges + [Range(top, top + PAGE_SIZE * n)], buffer := r.p.buffer)
  {
    hide MapLoop, HeapTop, PushList, DropList, UnmapLoop;
  }

  /** Giving back a block through any address inside it restores the process, except that its range
      list may have moved. */
  lemma RoundTripProcess(f0: Frames, c: R.State, p: Proc, size: nat, o: Oracle, addr: nat)
    requires f0.Valid() && R.Inv(f0, c) && ProcOk(c, p) && p.tableAddr != 0
    requires var r := HeapAllocate(c, p, size, o).result; r.Code? && 0 <= r.value <= addr < r.value + size
    ensures var r := HeapAllocate(c, p, size, o);
      var d := HeapDeallocate(r.c, r.p, addr);
      && R.Inv(f0, r.c) && R.Inv(f0, d.c) && d.result == Code(0) && d.p == p.(buffer := r.p.buffer)
      && Grows(c, p.buffer, r.c, r.p.buffer, HeapFrames(r.p) - HeapFrames(p))
      && GivesBack(r.c, d.c, HeapFrames(r.p) - HeapFrames(p))
  {
    hide R.Inv, MapLoop, HeapTop, HeapPages, RangePages, RangesOk, Held, HeapAllocate,
      HeapFrames, Grows, GivesBack, Own, ImageFrames, FindRange, Kind, Backing, Footprint, Injective;
    var r := HeapAllocate(c, p, size, o);
    var top, n := HeapTop(p.ranges), DivCeil(size, PAGE_SIZE);
    AllocateSucceeds(f0, c, p, size, o);
    AllocateShape(c, p, size, o);
    AllocationLoop(f0, c, p, n, o);
    NewRange(p.ranges, n);
    var range := Range(top, top + PAGE_SIZE * n);
    FindsLast(p.ranges, range, addr);
    DeallocateReleasesOneRange(f0, r.c, r.p, addr);
    var d := HeapDeallocate(r.c, r.p, addr);
    hide HeapDeallocate;
    assert r.p.ranges[|p.ranges|] == range;
    assert Without(p.ranges + [range], |p.ranges|) == p.ranges;
    assert r.p.space - RangePages(range) == p.space;
    SamePagesSameFrames(p, d.p);
    PartOfHeap(r.p, RangePages(range));
    assert HeapFrames(r.p) - HeapFrames(p) == Backing(r.p.space, RangePages(range));
  }

  /** Giving back a block through any address inside it undoes the allocation: the process is as it
      was, except that its range list may have moved, and so are the holdings of every client. */
  lemma AllocateThenDeallocate(f0: Frames, c: R.State, p: Proc, size: nat, o: Oracle, addr: nat)
    requires f0.Valid() && R.Inv(f0, c) && ProcOk(c, p) && p.tableAddr != 0
    requires var r := HeapAllocate(c, p, size, o).result; r.Code? && 0 <= r.value <= addr < r.value + size
    ensures var r := HeapAllocate(c, p, size, o);
      var d := HeapDeallocate(r.c, r.p, addr);
      && d.result == Code(0) && d.p == p.(buffer := r.p.buffer)
      && Grows(c, p.buffer, d.c, r.p.buffer, {})
  {
    hide R.Inv, ProcOk, HeapAllocate, HeapDeallocate, HeapFrames, Grows, GivesBack, Kind, Buffer.Pages;
    var r := HeapAllocate(c, p, size, o);
    var d := HeapDeallocate(r.c, r.p, addr);
    RoundTripProcess(f0, c, p, size, o, addr);
    var mine := HeapFrames(r.p) - HeapFrames(p);
    assert mine + {} == mine;
    GrowThenGiveBack(f0, c, p.buffer, r.c, r.p.buffer, d.c, mine, {});
  }

  lemma PartOfHeap(p: Proc, pages: set<nat>)
    requires pages <= HeapPages(p.ranges)
    ensures Backing(p.space, pages) <= HeapFrames(p)
  {
  }

  lemma SamePagesSameFrames(p: Proc, p': Proc)
    requires p'.space == p.space && p'.ranges == p.ranges
    ensures HeapFrames(p') == HeapFrames(p)
  {
  }
}
