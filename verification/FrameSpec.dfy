/** The frame allocator as a plain set of used page numbers (PFNs).
    The byte bitmap of `FrameAlloc` is proved to behave exactly like this. */
module FrameSpec {
  import opened Prelude

  /** `used` are the marked pages, `cap` the number of bits the bitmap can address,
      `reserved` and `selfUsed` the kernel's own pages and the bitmap's own pages,
      `pos` the moving search position. */
  datatype Frames = Frames(used: set<nat>, cap: nat, maxPage: nat, reserved: nat, selfUsed: nat, pos: nat)
  {
    /** The first page that may ever be handed out. */
    function Base(): nat
    {
      reserved + selfUsed
    }

    ghost predicate Valid()
    {
      && maxPage <= cap
      && (forall p :: p in used ==> p < cap)
      && Base() <= pos
      && (forall p: nat :: p < Base() && p < cap ==> p in used)
    }
  }

  predicate InRun(p: nat, s: nat, n: nat)
  {
    s <= p < s + n
  }

  /** The `n` pages from `s` on. */
  function Run(s: nat, n: nat): set<nat>
  {
    set p: nat | p < s + n && InRun(p, s, n)
  }

  /** `n` free pages start at `s`. */
  predicate Fits(f: Frames, s: nat, n: nat)
  {
    s + n <= f.maxPage && Run(s, n) !! f.used
  }

  function FirstFit(f: Frames, from: nat, n: nat): Option<nat>
    decreases f.maxPage + 1 - from
  {
    if from + n > f.maxPage then None
    else if Fits(f, from, n) then Some(from)
    else FirstFit(f, from + 1, n)
  }

  /** `r` is the lowest fitting start at or above `from`, or `None` when there is none. */
  ghost predicate IsLowestFit(f: Frames, from: nat, n: nat, r: Option<nat>)
  {
    match r
    case Some(s) => from <= s && Fits(f, s, n) && forall t: nat :: from <= t < s ==> !Fits(f, t, n)
    case None => forall t: nat :: from <= t ==> !Fits(f, t, n)
  }

  lemma {:induction false} FirstFitIsLowest(f: Frames, from: nat, n: nat)
    ensures IsLowestFit(f, from, n, FirstFit(f, from, n))
    decreases f.maxPage + 1 - from
  {
    if from + n <= f.maxPage && !Fits(f, from, n) {
      FirstFitIsLowest(f, from + 1, n);
    }
  }

  lemma LowestFitIsUnique(f: Frames, from: nat, n: nat, a: Option<nat>, b: Option<nat>)
    requires IsLowestFit(f, from, n, a) && IsLowestFit(f, from, n, b)
    ensures a == b
  {
    hide Fits;
  }

  /** The search runs from `pos` first and from `reserved` when that finds nothing. */
  function Chosen(f: Frames, n: nat): Option<nat>
  {
    var high := FirstFit(f, f.pos, n);
    if high.Some? then high else FirstFit(f, f.reserved, n)
  }

  function Allocate(f: Frames, n: nat): (Frames, Option<nat>)
  {
    var r := Chosen(f, n);
    if r.Some? then (f.(used := f.used + Run(r.value, n), pos := f.pos + n), r) else (f, None)
  }

  /** A release at or below `Base()` is ignored. */
  function Release(f: Frames, p: nat, n: nat): Frames
  {
    if p <= f.Base() then f else f.(used := f.used - Run(p, n))
  }

  // ----- What allocation means -----

  /** The result of an allocation, stated without the search that finds it. */
  lemma ChosenIsFirstFit(f: Frames, n: nat)
    requires f.Valid()
    ensures var r := Chosen(f, n);
      && (r.None? <==> forall s: nat :: f.reserved <= s ==> !Fits(f, s, n))
      && (r.Some? ==> Fits(f, r.value, n))
      && (r.Some? && f.pos <= r.value ==> forall t: nat :: f.pos <= t < r.value ==> !Fits(f, t, n))
      && (r.Some? && r.value < f.pos ==>
            && f.reserved <= r.value
            && (forall t: nat :: f.reserved <= t < r.value ==> !Fits(f, t, n))
            && (forall t: nat :: f.pos <= t ==> !Fits(f, t, n)))
  {
    FirstFitIsLowest(f, f.pos, n);
    FirstFitIsLowest(f, f.reserved, n);
  }

  /** For a non-empty request the allocator fails only when no free run exists anywhere,
      and it never hands out a page below `Base()`. */
  lemma FailsOnlyWhenNothingFits(f: Frames, n: nat)
    requires f.Valid() && 0 < n
    ensures Chosen(f, n).None? <==> forall s: nat :: !Fits(f, s, n)
    ensures Chosen(f, n).Some? ==> f.Base() <= Chosen(f, n).value
  {
    ChosenIsFirstFit(f, n);
    forall s: nat | Fits(f, s, n)
      ensures f.Base() <= s
    {
      assert s in Run(s, n);
    }
  }

  /** Once the search position has passed the last page, allocation is
      lowest-address first fit over all of memory. */
  lemma LowestAddressOncePosIsPastTheEnd(f: Frames, n: nat)
    requires f.Valid() && 0 < n && f.maxPage <= f.pos
    ensures IsLowestFit(f, 0, n, Chosen(f, n))
  {
    ChosenIsFirstFit(f, n);
    FailsOnlyWhenNothingFits(f, n);
    forall s: nat | Fits(f, s, n)
      ensures f.Base() <= s
    {
      assert s in Run(s, n);
    }
  }

  lemma AllocateKeepsValid(f: Frames, n: nat)
    requires f.Valid()
    ensures Allocate(f, n).0.Valid()
  {
    ChosenIsFirstFit(f, n);
  }

  lemma ReleaseKeepsValid(f: Frames, p: nat, n: nat)
    requires f.Valid()
    ensures Release(f, p, n).Valid()
  {
  }

  /** Giving a run straight back restores the used pages exactly when the run does
      not start at the first allocatable page: that one release is refused. */
  lemma RoundTrip(f: Frames, n: nat)
    requires f.Valid() && 0 < n && Chosen(f, n).Some?
    ensures var (taken, r) := Allocate(f, n);
      && (Release(taken, r.value, n).used == f.used <==> r.value != f.Base())
      && (r.value == f.Base() ==> Release(taken, r.value, n).used == f.used + Run(f.Base(), n))
  {
    FailsOnlyWhenNothingFits(f, n);
    ChosenIsFirstFit(f, n);
    var s := Chosen(f, n).value;
    assert s in Run(s, n);
    assert f.used + Run(s, n) - Run(s, n) == f.used;
  }

  /** A state in which the one refused release happens: two free pages above `Base()`. */
  lemma RefusedReleaseExample()
    ensures var f := Frames({0, 1}, 8, 4, 1, 1, 2);
      && f.Valid() && Allocate(f, 1).1 == Some(2)
      && Release(Allocate(f, 1).0, 2, 1).used == {0, 1, 2}
  {
    var f := Frames({0, 1}, 8, 4, 1, 1, 2);
    assert Fits(f, 2, 1);
    assert Run(2, 1) == {2};
  }

  // ----- Set-up from the boot memory map -----

  /** One entry of the boot memory map. */
  datatype Region = Region(base: nat, length: nat, free: bool)
  {
    /** The pages `init` marks for a region that is not free RAM: base and length
        are each rounded up on their own. */
    function MarkedPages(): set<nat>
    {
      Run(DivCeil(base, PAGE_SIZE), DivCeil(length, PAGE_SIZE))
    }

    /** The pages that share a byte with the region. */
    ghost predicate Overlaps(p: nat)
    {
      p * PAGE_SIZE < base + length && base < (p + 1) * PAGE_SIZE && 0 < length
    }
  }

  /** One past the highest byte of free RAM. */
  function FreeEnd(regions: seq<Region>): nat
  {
    if regions == [] then 0
    else
      var rest := FreeEnd(regions[..|regions| - 1]);
      var last := regions[|regions| - 1];
      if last.free && rest < last.base + last.length then last.base + last.length else rest
  }

  lemma {:induction false} FreeEndIsTheHighest(regions: seq<Region>)
    ensures forall k :: 0 <= k < |regions| && regions[k].free ==>
      regions[k].base + regions[k].length <= FreeEnd(regions)
    ensures FreeEnd(regions) == 0
      || exists k :: 0 <= k < |regions| && regions[k].free && regions[k].base + regions[k].length == FreeEnd(regions)
  {
    if regions != [] {
      var rest := regions[..|regions| - 1];
      FreeEndIsTheHighest(rest);
      assert forall k :: 0 <= k < |rest| ==> rest[k] == regions[k];
    }
  }

  function PagesMarkedBy(regions: seq<Region>): set<nat>
  {
    if regions == [] then {}
    else
      var last := regions[|regions| - 1];
      PagesMarkedBy(regions[..|regions| - 1]) + if last.free then {} else last.MarkedPages()
  }

  /** The pages of `marked` that a bitmap of `cap` bits can record. */
  function Below(marked: set<nat>, cap: nat): set<nat>
  {
    set p | p in marked && p < cap
  }

  /** The allocator right after `init`. */
  function Initial(regions: seq<Region>, reserved: nat): Frames
  {
    var maxPage := DivCeil(FreeEnd(regions), PAGE_SIZE);
    var bytes := DivCeil(maxPage, 8);
    var selfUsed := DivCeil(bytes, PAGE_SIZE);
    var marked := PagesMarkedBy(regions) + Run(0, reserved) + Run(reserved, selfUsed);
    Frames(Below(marked, 8 * bytes), 8 * bytes, maxPage, reserved, selfUsed, reserved + selfUsed)
  }

  lemma {:induction false} PagesMarkedByMember(regions: seq<Region>, p: nat)
    ensures p in PagesMarkedBy(regions) <==>
      exists k :: 0 <= k < |regions| && !regions[k].free && p in regions[k].MarkedPages()
  {
    if regions != [] {
      var rest := regions[..|regions| - 1];
      PagesMarkedByMember(rest, p);
      if p in PagesMarkedBy(rest) {
        var k :| 0 <= k < |rest| && !rest[k].free && p in rest[k].MarkedPages();
        assert regions[k] == rest[k];
      }
      if k :| 0 <= k < |regions| && !regions[k].free && p in regions[k].MarkedPages() && k < |rest| {
        assert rest[k] == regions[k];
      }
    }
  }

  /** After `init` a page below `maxPage` is used exactly when it is reserved, holds the
      bitmap, or lies in the rounded interval of a region that is not free RAM. */
  lemma InitialExactly(regions: seq<Region>, reserved: nat, p: nat)
    ensures var f := Initial(regions, reserved);
      && f.Valid()
      && f.pos == f.Base()
      && (p < f.maxPage ==>
            (p in f.used <==>
              || p < f.reserved
              || f.reserved <= p < f.Base()
              || exists k :: 0 <= k < |regions| && !regions[k].free && p in regions[k].MarkedPages()))
  {
    PagesMarkedByMember(regions, p);
  }

  /** Page `p` starts before the region ends. */
  predicate EndsBehind(r: Region, p: nat)
  {
    p * PAGE_SIZE < r.base + r.length
  }

  /** The managed pages reach exactly to the end of free memory. */
  lemma InitialReach(regions: seq<Region>, reserved: nat, k: nat, byte: nat)
    ensures var f := Initial(regions, reserved);
      && (k < |regions| && regions[k].free && regions[k].base <= byte < regions[k].base + regions[k].length ==>
            byte < f.maxPage * PAGE_SIZE)
      && (f.maxPage > 0 ==>
            exists j :: 0 <= j < |regions| && regions[j].free && EndsBehind(regions[j], f.maxPage - 1))
  {
    hide FreeEnd, Initial;
    FreeEndIsTheHighest(regions);
    ManagedEnd(regions, reserved);
    var maxPage := Initial(regions, reserved).maxPage;
    if maxPage > 0 {
      var j :| 0 <= j < |regions| && regions[j].free && regions[j].base + regions[j].length == FreeEnd(regions);
      assert EndsBehind(regions[j], maxPage - 1);
    }
  }

  lemma ManagedEnd(regions: seq<Region>, reserved: nat)
    ensures FreeEnd(regions) <= Initial(regions, reserved).maxPage * PAGE_SIZE < FreeEnd(regions) + PAGE_SIZE
  {
    hide FreeEnd, PagesMarkedBy, Below, Run;
  }

  /** The bitmap has a bit for each managed page, in whole bytes, and the pages set aside for it are as
      few as hold it. */
  lemma InitialBitmap(regions: seq<Region>, reserved: nat)
    ensures var f := Initial(regions, reserved);
      && f.cap % 8 == 0 && f.maxPage <= f.cap < f.maxPage + 8
      && f.cap / 8 <= f.selfUsed * PAGE_SIZE < f.cap / 8 + PAGE_SIZE && f.reserved == reserved
  {
    hide FreeEnd, PagesMarkedBy, Below, Run;
  }

  /** After `init` every page wholly inside free memory can be handed out, unless it is reserved, holds
      the bitmap or lies in the rounded interval of another region. */
  lemma FreeMemoryIsAvailable(regions: seq<Region>, reserved: nat, k: nat, p: nat)
    requires k < |regions| && regions[k].free
    requires regions[k].base <= p * PAGE_SIZE && (p + 1) * PAGE_SIZE <= regions[k].base + regions[k].length
    requires forall j :: 0 <= j < |regions| && !regions[j].free ==> p !in regions[j].MarkedPages()
    requires Initial(regions, reserved).Base() <= p
    ensures var f := Initial(regions, reserved); Fits(f, p, 1) && Chosen(f, 1).Some?
  {
    InitialReach(regions, reserved, k, p * PAGE_SIZE + PAGE_SIZE - 1);
    InitialExactly(regions, reserved, p);
    var f := Initial(regions, reserved);
    hide Initial;
    assert Run(p, 1) == {p};
    FailsOnlyWhenNothingFits(f, 1);
  }

  /** Rounding base and length separately covers every page a region touches exactly
      when the region is empty or starts on a page boundary. */
  lemma RegionCoveredIffAligned(r: Region)
    ensures (forall p: nat :: r.Overlaps(p) ==> p in r.MarkedPages())
       <==> r.length == 0 || r.base % PAGE_SIZE == 0
    ensures r.base % PAGE_SIZE == 0 ==> forall p: nat :: p in r.MarkedPages() <==> r.Overlaps(p)
  {
    if r.base % PAGE_SIZE != 0 && r.length != 0 {
      var p := r.base / PAGE_SIZE;
      assert r.Overlaps(p) && p !in r.MarkedPages();
    }
  }

  /** The bitmap's bytes lie inside the pages marked for it when the bitmap is placed
      right behind the reserved pages. */
  lemma BitmapBytesAreMarked(regions: seq<Region>, reserved: nat, bitmapBase: nat, byte: nat)
    requires bitmapBase == reserved * PAGE_SIZE
    ensures var f := Initial(regions, reserved);
      var p := byte / PAGE_SIZE;
      bitmapBase <= byte < bitmapBase + f.cap / 8 ==> f.reserved <= p < f.Base() && (p < f.cap ==> p in f.used)
  {
    InitialExactly(regions, reserved, byte / PAGE_SIZE);
    var f := Initial(regions, reserved);
    assert f.cap / 8 <= f.selfUsed * PAGE_SIZE;
  }
}
