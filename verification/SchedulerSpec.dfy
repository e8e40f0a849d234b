/** The two-class round-robin scheduler and its process tables, on values. */
module SchedulerSpec {
  import opened Prelude

  /** Slots in each process table. */
  const MAX_PS: nat := 16384
  /** `CURRENT_ID` before anything was dispatched. */
  const NO_ID: nat := 16383
  /** The kernel's page table, loaded whenever the interrupt handler runs. */
  const KERNEL_PML4: nat := 0x10_0000

  datatype ProcType = Normal | Driver
  {
    function Other(): ProcType
    {
      if this == Normal then Driver else Normal
    }
  }

  /** The registers of an interrupted or new process. */
  datatype Context = Context(
    rax: nat, rbx: nat, rcx: nat, rdx: nat, rsi: nat, rdi: nat, rsp: nat, rbp: nat,
    r8: nat, r9: nat, r10: nat, r11: nat, r12: nat, r13: nat, r14: nat, r15: nat,
    rflags: nat, rip: nat, cs: nat, ss: nat)

  const ZERO_CONTEXT := Context(0, 0, 0, 0, 0, 0, 0, 0, 0, 0, 0, 0, 0, 0, 0, 0, 0, 0, 0, 0)

  /** Code and data selectors of the two privilege levels. */
  datatype Selectors = Selectors(userCode: nat, userData: nat, kernelCode: nat, kernelData: nat)

  function InitialContext(k: ProcType, sel: Selectors): Context
  {
    ZERO_CONTEXT.(
    rsp := 0x7fff_ffff_f000,
    rbp := 0x7fff_ffff_f000,
    rip := 0x20_0000,
    rflags := 0x20_0200,
    cs := if k == Normal then sel.userCode else sel.kernelCode,
    ss := if k == Normal then sel.userData else sel.kernelData)
  }

  /** The bit with the given weight is set. */
  predicate HasBit(flags: nat, weight: nat)
    requires weight > 0
  {
    flags / weight % 2 == 1
  }

  /** A new process has interrupts enabled (flag bit 9, next to the identification bit 21) and zero in
      every register it is not given. */
  lemma NewRegisters(k: ProcType, sel: Selectors)
    ensures var c := InitialContext(k, sel);
      && HasBit(c.rflags, 0x200) && HasBit(c.rflags, 0x20_0000) && c.rflags == 0x200 + 0x20_0000
      && c.rax == c.rbx == c.rcx == c.rdx == c.rsi == c.rdi == 0
      && c.r8 == c.r9 == c.r10 == c.r11 == c.r12 == c.r13 == c.r14 == c.r15 == 0
  {
  }

  /** One process table entry; `currentTable` is kept for normal processes only. */
  datatype Slot = Slot(present: bool, context: Context, currentTable: nat, tableAddr: nat)

  const EMPTY_SLOT := Slot(false, ZERO_CONTEXT, 0, 0)

  function NewSlot(k: ProcType, frame: nat, sel: Selectors): Slot
  {
    Slot(true, InitialContext(k, sel), frame, frame)
  }

  /** The queue and the process table of one class. */
  datatype Lane = Lane(queue: seq<nat>, table: seq<Slot>)

  /** `next` is the class whose turn comes at the next tick: the flag `IS_DRIVER` is
      `next == Driver`. `cur` is `CURRENT_ID`. */
  datatype Sched = Sched(normal: Lane, driver: Lane, next: ProcType, cur: nat)
  {
    function Of(k: ProcType): Lane
    {
      if k == Normal then normal else driver
    }

    function With(k: ProcType, l: Lane): Sched
    {
      if k == Normal then this.(normal := l) else this.(driver := l)
    }
  }

  const BOOT := Sched(Lane([], seq(MAX_PS, _ => EMPTY_SLOT)), Lane([], seq(MAX_PS, _ => EMPTY_SLOT)), Normal, NO_ID)

  datatype Pid = Pid(kind: ProcType, id: nat)

  predicate Present(s: Sched, p: Pid)
  {
    p.id < |s.Of(p.kind).table| && s.Of(p.kind).table[p.id].present
  }

  /** How a tick ends: back to the interrupted code under some page table, or on to a process. */
  datatype Outcome =
    | Resume(cr3: nat)
    | Switch(kind: ProcType, id: nat, context: Context, cr3: nat)

  /** The page table a process is resumed under. */
  function TableOf(k: ProcType, p: Slot): nat
  {
    if k == Normal then p.currentTable else p.tableAddr
  }

  function Saved(k: ProcType, p: Slot, ctx: Context, cr3: nat): Slot
  {
    if k == Normal then p.(context := ctx, currentTable := cr3) else p.(context := ctx)
  }

  function Rotated(q: seq<nat>): seq<nat>
    requires q != []
  {
    q[1..] + [q[0]]
  }

  /** `to_normal` / `to_driver`: the head of the queue runs next, unless its slot does not exist. */
  function Dispatch(s: Sched, k: ProcType): (Sched, Outcome)
    requires s.Of(k).queue != []
  {
    var lane := s.Of(k);
    var id := lane.queue[0];
    if id >= |lane.table| || !lane.table[id].present then (s, Resume(KERNEL_PML4))
    else
      (s.With(k, lane.(queue := Rotated(lane.queue))).(cur := id),
       Switch(k, id, lane.table[id].context, TableOf(k, lane.table[id])))
  }

  /** The interrupted registers go into slot `cur` of the class that is not next. */
  function SaveInto(s: Sched, ctx: Context, cr3: nat): Sched
    requires s.cur < |s.Of(s.next.Other()).table|
  {
    var lane := s.Of(s.next.Other());
    s.With(s.next.Other(), lane.(table := lane.table[s.cur := Saved(s.next.Other(), lane.table[s.cur], ctx, cr3)]))
  }

  /** Every index the scheduler uses is inside its table. */
  predicate InBounds(s: Sched)
  {
    |s.normal.table| == MAX_PS && |s.driver.table| == MAX_PS && s.cur < MAX_PS
  }

  /** `switch_task`: `ctx` and `cr3` are what the interrupt found in the registers. */
  function Tick(s: Sched, ctx: Context, cr3: nat): (Sched, Outcome)
    requires InBounds(s)
  {
    var k := s.next;
    var flip := s.Of(k.Other()).queue != [];
    if s.Of(k).queue == [] then
      if !flip then (s, Resume(KERNEL_PML4))
      else
        var table := s.Of(k.Other()).table[s.cur].tableAddr;
        (s.(next := k.Other()), Resume(if table == 0 then KERNEL_PML4 else table))
    else
      var s1 := SaveInto(s, ctx, cr3);
      Dispatch(if flip then s1.(next := k.Other()) else s1, k)
  }

  /** The first absent slot, or the table's length. */
  function FirstAbsent(table: seq<Slot>): (id: nat)
    ensures id <= |table|
    ensures id < |table| ==> !table[id].present
    ensures forall j :: 0 <= j < id ==> table[j].present
  {
    if table == [] || !table[0].present then 0 else 1 + FirstAbsent(table[1..])
  }

  /** A full table makes `create` panic. */
  predicate HasRoom(s: Sched, k: ProcType)
  {
    FirstAbsent(s.Of(k).table) < |s.Of(k).table|
  }

  function Create(s: Sched, k: ProcType, frame: nat, sel: Selectors): Sched
    requires HasRoom(s, k)
  {
    var lane := s.Of(k);
    var id := FirstAbsent(lane.table);
    s.With(k, Lane(lane.queue + [id], lane.table[id := NewSlot(k, frame, sel)]))
  }

  datatype Error = InvalidIndex | ProcessNotExist

  /** `retain(|item| item != id)`. */
  function Without(q: seq<nat>, id: nat): seq<nat>
  {
    if q == [] then [] else if q[0] == id then Without(q[1..], id) else [q[0]] + Without(q[1..], id)
  }

  function Remove(s: Sched, k: ProcType, id: nat): (Sched, Option<Error>)
    requires InBounds(s)
  {
    var lane := s.Of(k);
    if id >= MAX_PS then (s, Some(InvalidIndex))
    else if !lane.table[id].present then (s, Some(ProcessNotExist))
    else
      (s.With(k, Lane(Without(lane.queue, id), lane.table[id := lane.table[id].(present := false)])), None)
  }

  // ----- Queues and tables agree -----

  ghost predicate NoDuplicates(q: seq<nat>)
  {
    forall i, j :: 0 <= i < j < |q| ==> q[i] != q[j]
  }

  /** The queue holds exactly the present slots, once each. */
  ghost predicate LaneOk(l: Lane)
  {
    && NoDuplicates(l.queue)
    && (forall id: nat :: id in l.queue <==> id < |l.table| && l.table[id].present)
  }

  ghost predicate Ok(s: Sched)
  {
    InBounds(s) && LaneOk(s.normal) && LaneOk(s.driver)
  }

  lemma BootOk()
    ensures Ok(BOOT)
  {
  }

  lemma RotatedKeeps(q: seq<nat>)
    requires q != [] && NoDuplicates(q)
    ensures NoDuplicates(Rotated(q))
    ensures forall id :: id in Rotated(q) <==> id in q
  {
    var r := Rotated(q);
    assert forall i :: 0 <= i < |q| - 1 ==> r[i] == q[i + 1];
    assert r[|q| - 1] == q[0];
    forall id | id in q
      ensures id in r
    {
      var i :| 0 <= i < |q| && q[i] == id;
      assert r[if i == 0 then |q| - 1 else i - 1] == id;
    }
  }

  lemma {:induction false} WithoutKeeps(q: seq<nat>, id: nat)
    requires NoDuplicates(q)
    ensures NoDuplicates(Without(q, id))
    ensures forall x :: x in Without(q, id) <==> x in q && x != id
  {
    if q != [] {
      assert q == [q[0]] + q[1..];
      WithoutKeeps(q[1..], id);
      var rest := Without(q[1..], id);
      assert forall j :: 0 <= j < |rest| ==> rest[j] in q[1..];
    }
  }

  /** A tick keeps queues and tables in agreement, and dispatches whenever the class whose
      turn it is has a process: the error returns of the dispatchers are never taken. */
  lemma TickKeepsOk(s: Sched, ctx: Context, cr3: nat)
    requires Ok(s)
    ensures var (t, out) := Tick(s, ctx, cr3);
      && Ok(t)
      && (s.Of(s.next).queue != [] ==>
            out.Switch? && out.kind == s.next && out.id == s.Of(s.next).queue[0] == t.cur)
      && (s.Of(s.next).queue == [] ==> out.Resume? && t.normal == s.normal && t.driver == s.driver && t.cur == s.cur)
  {
    var k := s.next;
    if s.Of(k).queue != [] {
      RotatedKeeps(s.Of(k).queue);
      assert s.Of(k).queue[0] in s.Of(k).queue;
    }
  }

  lemma CreateKeepsOk(s: Sched, k: ProcType, frame: nat, sel: Selectors)
    requires Ok(s) && HasRoom(s, k)
    ensures Ok(Create(s, k, frame, sel))
  {
    var lane, id := s.Of(k), FirstAbsent(s.Of(k).table);
    assert id !in lane.queue;
  }

  lemma RemoveKeepsOk(s: Sched, k: ProcType, id: nat)
    requires Ok(s)
    ensures Ok(Remove(s, k, id).0)
  {
    WithoutKeeps(s.Of(k).queue, id);
  }
}
