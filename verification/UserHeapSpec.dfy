/** The per-process heap system call on values: a process's range list, its page
    mapping and the frame allocator's ledger change together. */
module UserHeapSpec {
  import opened Prelude
  import opened FrameSpec
  import R = FrameRuns

  /** Clients of the frame ledger: heap pages of processes, page tables, top-level tables,
      the growing lists the calls keep in the kernel heap, and process images. */
  const USER: nat := 1
  const TABLES: nat := 2
  const ROOTS: nat := 3
  const LISTS: nat := 4
  const IMAGES: nat := 5

  /** The heap of a process starts here. */
  const HEAP_BOTTOM: nat := 0x1_8000_0000
  /** The two stack pages mapped when a process is created start here. */
  const STACK_BASE: nat := 0x7fff_ffff_e000
  const STACK_PAGE: nat := STACK_BASE / PAGE_SIZE

  datatype Range = Range(start: nat, end: nat)

  /** The memory of a growing list: nothing yet, or a run of frames. */
  datatype Buffer = NoBuffer | Buffer(start: nat, pages: nat)
  {
    function Pages(): set<nat>
    {
      if NoBuffer? then {} else Run(start, pages)
    }
  }

  /** `space` maps page numbers to frames; `image` is the part of it that was mapped when the
      process was created; `buffer` is the memory of the range list. */
  datatype Proc = Proc(
    normal: bool, tableAddr: nat, ranges: seq<Range>, buffer: Buffer, space: map<nat, nat>, image: map<nat, nat>)

  /** What the libraries decide: `tables(i)` frames are needed for page tables when page `i` is
      mapped, and pushing page `i` moves the page list to a buffer of `list(i)` frames, pushing
      the new range moves the range list to one of `ranges` frames (0: the list has room). */
  datatype Oracle = Oracle(tables: nat -> nat, list: nat -> nat, ranges: nat)

  // ----- The calls into the page-table library -----

  /** Take `k` frames for page tables, stopping at the first failure. */
  function TakeTables(c: R.State, k: nat): (R.State, bool)
    decreases k
  {
    if k == 0 then (c, true)
    else if Chosen(c.f, 1).None? then (c, false)
    else TakeTables(R.Step(c, R.Take(TABLES, 1)), k - 1)
  }

  /** Map a page: `need` table frames are taken first; a mapped page is refused. */
  function MapTo(c: R.State, space: map<nat, nat>, page: nat, need: nat): (R.State, bool)
  {
    var (c1, got) := TakeTables(c, need);
    (c1, got && page !in space)
  }

  // ----- The kernel lists -----

  /** A push that needs `grow` frames takes the new buffer first and gives the old one back
      afterwards; without a new buffer the kernel cannot go on. */
  function PushList(c: R.State, b: Buffer, grow: nat): (R.State, Buffer, bool)
  {
    if grow == 0 then (c, b, true)
    else
      var r := Chosen(c.f, grow);
      if r.None? then (c, b, false)
      else (DropList(R.Step(c, R.Take(LISTS, grow)), b), Buffer(r.value, grow), true)
  }

  /** A list that goes out of scope gives its buffer back. */
  function DropList(c: R.State, b: Buffer): R.State
  {
    if b.NoBuffer? then c else R.Step(c, R.Give(LISTS, b.start, b.pages))
  }

  // ----- The loops of the system call -----

  /** How the mapping loop ended. */
  datatype Outcome = Mapped | NoFrame | NotMapped(leaf: nat) | ListFull

  datatype Progress = Progress(c: R.State, space: map<nat, nat>, list: Buffer, count: nat, outcome: Outcome)

  /** Map pages `first + i .. first + n`, one freshly taken frame each, and push each on the page list. */
  function MapLoop(
    c: R.State, space: map<nat, nat>, list: Buffer, first: nat, i: nat, n: nat, o: Oracle): Progress
    requires i <= n
    decreases n - i
  {
    if i == n then Progress(c, space, list, i, Mapped)
    else
      var r := Chosen(c.f, 1);
      if r.None? then Progress(c, space, list, i, NoFrame)
      else
        var (c1, ok) := MapTo(R.Step(c, R.Take(USER, 1)), space, first + i, o.tables(i));
        if !ok then Progress(c1, space, list, i, NotMapped(r.value))
        else
          var (c2, list', pushed) := PushList(c1, list, o.list(i));
          var space' := space[first + i := r.value];
          if !pushed then Progress(c2, space', list', i + 1, ListFull)
          else MapLoop(c2, space', list', first, i + 1, n, o)
  }

  /** Unmap pages `first + k .. first + n` and give their frames back; a page that is
      not mapped is passed over. */
  function UnmapLoop(c: R.State, space: map<nat, nat>, first: nat, k: nat, n: nat): (R.State, map<nat, nat>)
    requires k <= n
    decreases n - k
  {
    if k == n then (c, space)
    else if first + k !in space then UnmapLoop(c, space, first, k + 1, n)
    else UnmapLoop(R.Step(c, R.Give(USER, space[first + k], 1)), space - {first + k}, first, k + 1, n)
  }

  // ----- The two system calls on one process -----

  /** The highest end of a range, or the heap bottom when there is none. */
  function HeapTop(ranges: seq<Range>): nat
  {
    if ranges == [] then HEAP_BOTTOM else MaxEnd(ranges)
  }

  function MaxEnd(ranges: seq<Range>): nat
    requires ranges != []
  {
    var last := ranges[|ranges| - 1].end;
    if |ranges| == 1 then last
    else
      var rest := MaxEnd(ranges[..|ranges| - 1]);
      if rest < last then last else rest
  }

  /** A call returns a value, or the kernel stops because a list could not grow. */
  datatype Result = Code(value: int) | Halted

  /** The ledger and the process after a call, and how it ended. */
  datatype Reply = Reply(c: R.State, p: Proc, result: Result)

  function HeapAllocate(c: R.State, p: Proc, size: nat, o: Oracle): Reply
  {
    if size == 0 then Reply(c, p, Code(-16))
    else
      var top := HeapTop(p.ranges);
      var pages := DivCeil(size, PAGE_SIZE);
      var m := MapLoop(c, p.space, NoBuffer, top / PAGE_SIZE, 0, pages, o);
      match m.outcome
      case Mapped =>
        var (c', buffer, pushed) := PushList(m.c, p.buffer, o.ranges);
        if !pushed then Reply(c', p.(space := m.space), Halted)
        else
          var ranges := p.ranges + [Range(top, top + PAGE_SIZE * pages)];
          Reply(DropList(c', m.list), p.(space := m.space, ranges := ranges, buffer := buffer), Code(top))
      case ListFull => Reply(m.c, p.(space := m.space), Halted)
      case _ =>
        var (c', space') := UnmapLoop(m.c, m.space, top / PAGE_SIZE, 0, m.count);
        Reply(DropList(c', m.list), p.(space := space'), Code(-18))
  }

  /** The first range that contains an address, or the number of ranges. */
  function FindRange(ranges: seq<Range>, addr: nat): (k: nat)
    ensures k <= |ranges|
    ensures k < |ranges| ==> ranges[k].start <= addr < ranges[k].end
    ensures forall j :: 0 <= j < k ==> !(ranges[j].start <= addr < ranges[j].end)
  {
    if ranges == [] then 0
    else if ranges[0].start <= addr < ranges[0].end then 0
    else 1 + FindRange(ranges[1..], addr)
  }

  function Without<T>(s: seq<T>, k: nat): seq<T>
    requires k < |s|
  {
    s[..k] + s[k + 1..]
  }

  function HeapDeallocate(c: R.State, p: Proc, addr: nat): Reply
  {
    var k := FindRange(p.ranges, addr);
    if k == |p.ranges| then Reply(c, p, Code(-17))
    else
      var r := p.ranges[k];
      var pages := DivCeil(r.end - r.start, PAGE_SIZE);
      var (c', space') := UnmapLoop(c, p.space, r.start / PAGE_SIZE, 0, pages);
      Reply(c', p.(space := space', ranges := Without(p.ranges, k)), Code(0))
  }
}
