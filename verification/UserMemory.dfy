/** The memory system call as it runs: loops over pages, with roll-back in place. */
module UserMemory {
  import opened Prelude
  import opened FrameSpec
  import opened ProcessImage
  import opened UserHeapLedger
  import opened UserHeapProps
  import opened UserHeapRuns
  import opened UserHeapSpec
  import FA = FrameAlloc
  import R = FrameRuns

  /** The 4 KiB page of a virtual address; only lower-half canonical addresses may be used. */
  function PageContaining(addr: nat): nat
    requires addr < 0x8000_0000_0000
  {
    addr / PAGE_SIZE
  }

  lemma PageOf(base: nat, i: nat)
    requires base % PAGE_SIZE == 0
    ensures (base + i * PAGE_SIZE) / PAGE_SIZE == base / PAGE_SIZE + i
    ensures base + i * PAGE_SIZE == (base / PAGE_SIZE + i) * PAGE_SIZE
  {
  }

  /** One round of the mapping loop that gets a frame. */
  lemma MapLoopRound(c: R.State, space: map<nat, nat>, list: Buffer, first: nat, i: nat, n: nat, o: Oracle)
    requires i < n && Chosen(c.f, 1).Some?
    ensures var x := Chosen(c.f, 1).value;
      var (c1, ok) := MapTo(R.Step(c, R.Take(USER, 1)), space, first + i, o.tables(i));
      var (c2, list', pushed) := PushList(c1, list, o.list(i));
      var space' := space[first + i := x];
      MapLoop(c, space, list, first, i, n, o) ==
        if !ok then Progress(c1, space, list, i, NotMapped(x))
        else if !pushed then Progress(c2, space', list', i + 1, ListFull)
        else MapLoop(c2, space', list', first, i + 1, n, o)
  {
    hide R.Step, Chosen, TakeTables, MapTo, PushList;
  }

  lemma MapLoopEnds(c: R.State, space: map<nat, nat>, list: Buffer, first: nat, i: nat, n: nat, o: Oracle)
    requires i <= n
    ensures i == n ==> MapLoop(c, space, list, first, i, n, o) == Progress(c, space, list, i, Mapped)
    ensures i < n && Chosen(c.f, 1).None? ==>
      MapLoop(c, space, list, first, i, n, o) == Progress(c, space, list, i, NoFrame)
  {
    hide R.Step, Chosen, TakeTables, MapTo, PushList;
  }

  /** A page that could be mapped lies below the mapped stack page. */
  lemma BelowStack(c: R.State, space: map<nat, nat>, page: nat, need: nat)
    requires STACK_PAGE in space && page <= STACK_PAGE
    ensures MapTo(c, space, page, need).1 ==> page < STACK_PAGE
  {
    hide TakeTables;
  }

  class MemorySyscall {
    const frames: FA.FrameAlloc
    var process: seq<Proc>
    var halted: bool
    /** Who holds which frame, the runs taken for images and the leaked frames; the kernel itself
        does not record them. */
    ghost var ledger: R.State
    ghost var loose: set<Section>
    ghost var leaked: set<nat>

    ghost predicate Valid()
      reads this, frames, frames.bitmap
    {
      frames.View() == ledger.f && ledger.f.Valid()
    }

    ghost function View(): World
      reads this
    {
      World(ledger, process, loose, leaked, halted)
    }

    constructor (frames: FA.FrameAlloc, normals: nat, drivers: nat)
      requires frames.View().Valid()
      ensures Valid() && View() == Boot(frames.View(), normals, drivers) && this.frames == frames
    {
      this.frames := frames;
      process := seq(normals, _ => EmptySlot(true)) + seq(drivers, _ => EmptySlot(false));
      halted := false;
      ledger, loose, leaked := R.Start(frames.View()), {}, {};
    }

    /** `allocate_contiguous` on behalf of `who`. */
    method TakeFrames(n: nat, ghost who: nat) returns (r: Option<nat>)
      requires Valid()
      modifies this`ledger, frames, frames.bitmap
      ensures Valid() && frames.bitmap == old(frames.bitmap)
      ensures r == Chosen(old(ledger).f, n)
      ensures ledger == if r.None? then old(ledger) else R.Step(old(ledger), R.Take(who, n))
    {
      r := frames.AllocateContiguous(n);
      ledger := R.Step(ledger, R.Take(who, n));
    }

    /** `deallocate_contiguous` on behalf of `who`. */
    method ReturnFrames(x: nat, n: nat, ghost who: nat)
      requires Valid()
      modifies this`ledger, frames.bitmap
      ensures Valid()
      ensures ledger == R.Step(old(ledger), R.Give(who, x, n))
    {
      ReleaseKeepsValid(ledger.f, x, n);
      frames.DeallocateContiguous(x, n);
      ledger := R.Step(ledger, R.Give(who, x, n));
    }

    /** A list's push: a list without room moves to a new buffer of `grow` frames. */
    method Push(b: Buffer, grow: nat) returns (b': Buffer, ok: bool)
      requires Valid()
      modifies this`ledger, frames, frames.bitmap
      ensures Valid() && frames.bitmap == old(frames.bitmap)
      ensures (ledger, b', ok) == PushList(old(ledger), b, grow)
    {
      hide R.Step, Chosen, Frames.Valid;
      if grow == 0 {
        return b, true;
      }
      var r := TakeFrames(grow, LISTS);
      if r.None? {
        return b, false;
      }
      Drop(b);
      return Buffer(r.value, grow), true;
    }

    method Drop(b: Buffer)
      requires Valid()
      modifies this`ledger, frames.bitmap
      ensures Valid()
      ensures ledger == DropList(old(ledger), b)
    {
      if b.Buffer? {
        ReturnFrames(b.start, b.pages, LISTS);
      }
    }

    /** The page-table library's `map_to`, which may need frames for missing tables. */
    method MapPage(space: map<nat, nat>, page: nat, frame: nat, need: nat) returns (ok: bool, after: map<nat, nat>)
      requires Valid()
      modifies this`ledger, frames, frames.bitmap
      ensures Valid() && frames.bitmap == old(frames.bitmap)
      ensures (ledger, ok) == MapTo(old(ledger), space, page, need)
      ensures after == if ok then space[page := frame] else space
    {
      hide R.Step, Chosen, Frames.Valid;
      var left := need;
      while left > 0
        invariant Valid() && frames.bitmap == old(frames.bitmap)
        invariant TakeTables(ledger, left) == TakeTables(old(ledger), need)
      {
        var table := TakeFrames(1, TABLES);
        if table.None? {
          return false, space;
        }
        left := left - 1;
      }
      if page in space {
        return false, space;
      }
      return true, space[page := frame];
    }

    /** Unmap the pages of a run and free what backed them; an unmapped page is skipped. */
    method UnmapPages(space: map<nat, nat>, first: nat, n: nat) returns (after: map<nat, nat>)
      requires Valid()
      modifies this`ledger, frames.bitmap
      ensures Valid()
      ensures (ledger, after) == UnmapLoop(old(ledger), space, first, 0, n)
    {
      hide R.Step, Frames.Valid;
      after := space;
      for k := 0 to n
        invariant Valid()
        invariant UnmapLoop(ledger, after, first, k, n) == UnmapLoop(old(ledger), space, first, 0, n)
      {
        if first + k in after {
          ReturnFrames(after[first + k], 1, USER);
          after := after - {first + k};
        }
      }
    }

    method FindProcess(userTable: nat) returns (k: nat)
      ensures k == FindSlot(process, userTable)
    {
      k := 0;
      while k < |process| && !(process[k].normal && process[k].tableAddr == userTable)
        invariant k <= |process|
        invariant forall j :: 0 <= j < k ==> !(process[j].normal && process[j].tableAddr == userTable)
      {
        k := k + 1;
      }
    }

    method HeapTopOf(ranges: seq<Range>) returns (top: nat)
      ensures top == HeapTop(ranges)
    {
      if ranges == [] {
        return HEAP_BOTTOM;
      }
      top := ranges[0].end;
      for k := 1 to |ranges|
        invariant top == MaxEnd(ranges[..k])
      {
        assert ranges[..k + 1][..k] == ranges[..k];
        if top < ranges[k].end {
          top := ranges[k].end;
        }
      }
      assert ranges[..|ranges|] == ranges;
    }

    /** System call 2, request 0. When a list cannot grow the kernel stops. */
    method Allocate(userTable: nat, size: nat, o: Oracle, ghost f0: Frames) returns (result: Result)
      requires Valid() && f0.Valid() && Inv(f0, View()) && userTable != 0 && !halted
      modifies this, frames, frames.bitmap
      ensures Valid() && Inv(f0, View())
      ensures (View(), result) == AllocateCall(old(View()), userTable, size, o)
    {
      hide R.Inv, MapLoop, UnmapLoop, HeapTop, ProcOk, HeapFrames, PushList, DropList, Accounted, LooseOk,
        RootsOk, Own;
      AllocateKeepsInv(f0, View(), userTable, size, o);
      if size == 0 {
        return Code(-16);
      }
      var k := FindProcess(userTable);
      if k == |process| {
        return Code(-17);
      }
      var p := process[k];
      leaked := leaked + Lost(ledger, p, size, o);
      var heapTop := HeapTopOf(p.ranges);
      var pages := DivCeil(size, PAGE_SIZE);
      var space, list, outcome, count := MapPages(p, heapTop, pages, o, f0);
      if outcome.ListFull? {
        process := process[k := p.(space := space)];
        halted := true;
        return Halted;
      }
      if !outcome.Mapped? {
        space := UnmapPages(space, heapTop / PAGE_SIZE, count);
        Drop(list);
        process := process[k := p.(space := space)];
        return Code(-18);
      }
      var buffer, pushed := Push(p.buffer, o.ranges);
      if !pushed {
        process := process[k := p.(space := space)];
        halted := true;
        return Halted;
      }
      var ranges := p.ranges + [Range(heapTop, heapTop + PAGE_SIZE * pages)];
      process := process[k := p.(space := space, ranges := ranges, buffer := buffer)];
      Drop(list);
      return Code(heapTop);
    }

    /** The mapping loop: one frame, one `map_to` and one push per page, stopping at the first failure.
        Every address it forms is canonical. */
    method MapPages(p: Proc, heapTop: nat, pages: nat, o: Oracle, ghost f0: Frames)
      returns (space: map<nat, nat>, list: Buffer, outcome: Outcome, count: nat)
      requires Valid() && f0.Valid() && R.Inv(f0, ledger) && ProcOk(ledger, p) && p.tableAddr != 0
      requires heapTop == HeapTop(p.ranges)
      modifies this`ledger, frames, frames.bitmap
      ensures Valid() && frames.bitmap == old(frames.bitmap)
      ensures Progress(ledger, space, list, count, outcome) ==
        MapLoop(old(ledger), p.space, NoBuffer, heapTop / PAGE_SIZE, 0, pages, o)
    {
      hide R.Step, R.Inv, Chosen, MapTo, MapLoop, HeapTop, RangesOk, Held, HeapPages, Frames.Valid, Injective,
        Backing, PushList, Kind;
      HeapTopBounds(p.ranges);
      ghost var first := heapTop / PAGE_SIZE;
      space, list := p.space, NoBuffer;
      var i := 0;
      while i < pages
        invariant i <= pages
        invariant Valid() && frames.bitmap == old(frames.bitmap)
        invariant STACK_PAGE in space && first + i <= STACK_PAGE
        invariant MapLoop(ledger, space, list, first, i, pages, o) ==
          MapLoop(old(ledger), p.space, NoBuffer, first, 0, pages, o)
      {
        ghost var c := ledger;
        MapLoopEnds(c, space, list, first, i, pages, o);
        var phys := TakeFrames(1, USER);
        if phys.None? {
          return space, list, NoFrame, i;
        }
        PageOf(heapTop, i);
        var virt := PageContaining(heapTop + i * PAGE_SIZE);
        MapLoopRound(c, space, list, first, i, pages, o);
        BelowStack(ledger, space, virt, o.tables(i));
        var ok, after := MapPage(space, virt, phys.value, o.tables(i));
        if !ok {
          return space, list, NotMapped(phys.value), i;
        }
        space := after;
        var pushed;
        list, pushed := Push(list, o.list(i));
        if !pushed {
          return space, list, ListFull, i + 1;
        }
        i := i + 1;
      }
      MapLoopEnds(ledger, space, list, first, pages, pages, o);
      return space, list, Mapped, pages;
    }

    /** System call 2, request 1. */
    method Deallocate(userTable: nat, addr: nat, ghost f0: Frames) returns (result: Result)
      requires Valid() && f0.Valid() && Inv(f0, View()) && !halted
      modifies this, frames.bitmap
      ensures Valid() && Inv(f0, View())
      ensures (View(), result) == DeallocateCall(old(View()), userTable, addr)
    {
      hide R.Inv, UnmapLoop, ProcOk, HeapFrames, Accounted, LooseOk, RootsOk, Own;
      DeallocateKeepsInv(f0, View(), userTable, addr);
      var k := FindProcess(userTable);
      if k == |process| {
        return Code(-16);
      }
      var p := process[k];
      var idx := 0;
      while idx < |p.ranges| && !(p.ranges[idx].start <= addr < p.ranges[idx].end)
        invariant idx <= |p.ranges|
        invariant forall j :: 0 <= j < idx ==> !(p.ranges[j].start <= addr < p.ranges[j].end)
      {
        idx := idx + 1;
      }
      assert idx == FindRange(p.ranges, addr);
      if idx == |p.ranges| {
        assert process[k := p] == process;
        return Code(-17);
      }
      var range := p.ranges[idx];
      var pages := DivCeil(range.end - range.start, PAGE_SIZE);
      var space := UnmapPages(p.space, range.start / PAGE_SIZE, pages);
      process := process[k := p.(space := space, ranges := p.ranges[..idx] + p.ranges[idx + 1..])];
      return Code(0);
    }

    /** The entry point: unknown request types are refused. */
    method Memory(typ: nat, size: nat, addr: nat, userTable: nat, o: Oracle, ghost f0: Frames)
      returns (result: Result)
      requires Valid() && f0.Valid() && Inv(f0, View()) && userTable != 0 && !halted
      modifies this, frames, frames.bitmap
      ensures Valid() && Inv(f0, View())
      ensures (View(), result) ==
        if typ == 0 then AllocateCall(old(View()), userTable, size, o)
        else if typ == 1 then DeallocateCall(old(View()), userTable, addr)
        else (old(View()), Code(-2))
    {
      match typ {
        case 0 => result := Allocate(userTable, size, o, f0);
        case 1 => result := Deallocate(userTable, addr, f0);
        case _ => result := Code(-2);
      }
    }
  }
}
