/** The bitmap frame allocator, updating its bytes in place. */
module FrameAlloc {
  import opened Prelude
  import opened FrameSpec
  import Bitmap

  class FrameAlloc {
    var bitmap: array<bv8>
    var maxPage: nat
    var reserved: nat
    var selfUsedPage: nat
    var pos: nat

    /** The set-level state the bytes stand for. */
    ghost function View(): Frames
      reads this, bitmap
    {
      Frames(Bitmap.Pages(bitmap[..]), 8 * bitmap.Length, maxPage, reserved, selfUsedPage, pos)
    }

    constructor ()
      ensures View() == Frames({}, 0, 0, 0, 0, 0)
      ensures fresh(bitmap)
    {
      bitmap := new bv8[0];
      maxPage, reserved, selfUsedPage, pos := 0, 0, 0, 0;
    }

    /** Set the allocator up from the boot memory map, which must hold at least one
        free region (the maximum over free regions is unwrapped). */
    method Init(regions: seq<Region>, reservedPages: nat)
      requires exists k :: 0 <= k < |regions| && regions[k].free
      modifies this
      ensures fresh(bitmap)
      ensures View() == Initial(regions, reservedPages)
    {
      var maxPhys := 0;
      for k := 0 to |regions|
        invariant maxPhys == FreeEnd(regions[..k])
      {
        assert regions[..k + 1][..k] == regions[..k];
        if regions[k].free && maxPhys < regions[k].base + regions[k].length {
          maxPhys := regions[k].base + regions[k].length;
        }
      }
      assert regions[..|regions|] == regions;
      maxPage := DivCeil(maxPhys, PAGE_SIZE);

      var bitmapBytes := DivCeil(maxPage, 8);
      bitmap := new bv8[bitmapBytes](_ => 0);
      Bitmap.ZeroedMarksNothing(bitmap[..]);

      MarkRegions(regions);

      reserved := reservedPages;
      MarkRun(0, reservedPages);

      selfUsedPage := DivCeil(bitmapBytes, PAGE_SIZE);
      MarkRun(reservedPages, selfUsedPage);

      pos := reservedPages + selfUsedPage;
    }

    /** Mark what is not free RAM, region by region. */
    method MarkRegions(regions: seq<Region>)
      modifies bitmap
      ensures Bitmap.Pages(bitmap[..])
           == old(Bitmap.Pages(bitmap[..])) + Below(PagesMarkedBy(regions), 8 * bitmap.Length)
    {
      for k := 0 to |regions|
        invariant Bitmap.Pages(bitmap[..])
               == old(Bitmap.Pages(bitmap[..])) + Below(PagesMarkedBy(regions[..k]), 8 * bitmap.Length)
      {
        assert regions[..k + 1][..k] == regions[..k];
        if !regions[k].free {
          MarkRun(DivCeil(regions[k].base, PAGE_SIZE), DivCeil(regions[k].length, PAGE_SIZE));
        }
      }
      assert regions[..|regions|] == regions;
    }

    /** Search for the lowest run of `n` free pages at or above `s`. */
    method Scan(s: nat, n: nat) returns (r: Option<nat>)
      requires maxPage <= 8 * bitmap.Length
      ensures IsLowestFit(View(), s, n, r)
      ensures r == FirstFit(View(), s, n)
    {
      FirstFitIsLowest(View(), s, n);
      var cur := s;
      while cur + n <= maxPage
        invariant s <= cur
        invariant forall t: nat :: s <= t < cur ==> !Fits(View(), t, n)
        decreases maxPage + 1 - cur
      {
        var ok := true;
        var i := 0;
        while i < n && ok
          invariant i <= n
          invariant ok ==> Run(cur, i) !! View().used
          invariant !ok ==> !Fits(View(), cur, n)
          decreases n - i, ok
        {
          var bit := GetBit(cur + i);
          if bit == 1 {
            assert cur + i in Run(cur, n);
            ok := false;
          } else {
            assert Run(cur, i + 1) == Run(cur, i) + {cur + i};
            i := i + 1;
          }
        }
        if ok {
          LowestFitIsUnique(View(), s, n, Some(cur), FirstFit(View(), s, n));
          return Some(cur);
        }
        cur := cur + 1;
      }
      LowestFitIsUnique(View(), s, n, None, FirstFit(View(), s, n));
      return None;
    }

    /** Hand out `n` contiguous pages: lowest fit from `pos`, else lowest fit from `reserved`. */
    method AllocateContiguous(n: nat) returns (r: Option<nat>)
      requires View().Valid()
      modifies this, bitmap
      ensures (View(), r) == Allocate(old(View()), n)
      ensures View().Valid() && bitmap == old(bitmap)
      ensures r.None? <==> forall s: nat :: old(reserved) <= s ==> !Fits(old(View()), s, n)
      ensures r.Some? ==> Fits(old(View()), r.value, n)
    {
      ChosenIsFirstFit(View(), n);
      AllocateKeepsValid(View(), n);
      var start := Scan(pos, n);
      if start.None? {
        start := Scan(reserved, n);
      }
      if start.None? {
        return None;
      }
      MarkRun(start.value, n);
      assert Below(Run(start.value, n), 8 * bitmap.Length) == Run(start.value, n);
      pos := pos + n;
      return start;
    }

    /** Give `n` pages back; a run that starts at or below the first allocatable page is kept. */
    method DeallocateContiguous(pfn: nat, n: nat)
      modifies bitmap
      ensures View() == Release(old(View()), pfn, n)
    {
      if pfn <= reserved + selfUsedPage {
        return;
      }
      for i := 0 to n
        invariant Bitmap.Pages(bitmap[..]) == old(Bitmap.Pages(bitmap[..])) - Run(pfn, i)
      {
        SetBit(pfn + i, 0);
        assert Run(pfn, i + 1) == Run(pfn, i) + {pfn + i};
      }
    }

    /** The marking loop shared by `init` and allocation: pages beyond the bitmap are ignored. */
    method MarkRun(start: nat, n: nat)
      modifies bitmap
      ensures Bitmap.Pages(bitmap[..]) == old(Bitmap.Pages(bitmap[..])) + Below(Run(start, n), 8 * bitmap.Length)
    {
      for i := 0 to n
        invariant Bitmap.Pages(bitmap[..])
               == old(Bitmap.Pages(bitmap[..])) + Below(Run(start, i), 8 * bitmap.Length)
      {
        SetBit(start + i, 1);
        assert Run(start, i + 1) == Run(start, i) + {start + i};
      }
    }

    /** Write one bit; pages beyond the bitmap and values other than 0 and 1 change nothing. */
    method SetBit(pfn: nat, value: nat)
      modifies bitmap
      ensures value == 0 ==> Bitmap.Pages(bitmap[..]) == old(Bitmap.Pages(bitmap[..])) - {pfn}
      ensures value == 1 && pfn < 8 * bitmap.Length ==>
        Bitmap.Pages(bitmap[..]) == old(Bitmap.Pages(bitmap[..])) + {pfn}
      ensures value > 1 || pfn >= 8 * bitmap.Length ==> bitmap[..] == old(bitmap[..])
    {
      var byteIdx, bitIdx := pfn / 8, pfn % 8;
      if byteIdx >= bitmap.Length {
        assert pfn !in Bitmap.Pages(bitmap[..]);
        return;
      }
      ghost var before := bitmap[..];
      match value {
        case 0 =>
          Bitmap.StoreChangesOnePage(before, pfn, false);
          bitmap[byteIdx] := Bitmap.WithBit(bitmap[byteIdx], bitIdx, false);
          assert bitmap[..] == before[byteIdx := Bitmap.WithBit(before[byteIdx], bitIdx, false)];
        case 1 =>
          Bitmap.StoreChangesOnePage(before, pfn, true);
          bitmap[byteIdx] := Bitmap.WithBit(bitmap[byteIdx], bitIdx, true);
          assert bitmap[..] == before[byteIdx := Bitmap.WithBit(before[byteIdx], bitIdx, true)];
        case _ =>
      }
    }

    /** Read one bit; every page beyond the bitmap reads as used. */
    method GetBit(pfn: nat) returns (bit: bv8)
      ensures bit == 0 || bit == 1
      ensures bit == 1 <==> pfn >= 8 * bitmap.Length || pfn in View().used
    {
      var byteIdx, bitIdx := pfn / 8, pfn % 8;
      if byteIdx >= bitmap.Length {
        return 1;
      }
      bit := (bitmap[byteIdx] >> bitIdx) & 1;
      assert Bitmap.Marked(bitmap[..], pfn) <==> bit == 1;
    }
  }
}
