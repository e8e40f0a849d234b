/** Every interleaving of process creation, removal and timer ticks. */
module SchedulerRuns {
  import opened Prelude
  import opened SchedulerSpec

  datatype Event =
    | Timer(ctx: Context, cr3: nat)
    | Spawn(kind: ProcType, frame: nat, sel: Selectors)
    | Kill(kind: ProcType, id: nat)

  ghost predicate Enabled(s: Sched, e: Event)
  {
    e.Spawn? ==> HasRoom(s, e.kind)
  }

  function Step(s: Sched, e: Event): Sched
    requires InBounds(s) && Enabled(s, e)
  {
    match e
    case Timer(ctx, cr3) => Tick(s, ctx, cr3).0
    case Spawn(k, frame, sel) => Create(s, k, frame, sel)
    case Kill(k, id) => Remove(s, k, id).0
  }

  lemma StepKeepsOk(s: Sched, e: Event)
    requires Ok(s) && Enabled(s, e)
    ensures Ok(Step(s, e))
  {
    match e
    case Timer(ctx, cr3) => TickKeepsOk(s, ctx, cr3);
    case Spawn(k, frame, sel) => CreateKeepsOk(s, k, frame, sel);
    case Kill(k, id) => RemoveKeepsOk(s, k, id);
  }

  /** The states of a run: `states[i + 1]` follows from `states[i]` by `es[i]`, as long as the
      scheduler's indices are in bounds; nothing is assumed beyond that point. */
  ghost predicate IsRun(states: seq<Sched>, es: seq<Event>)
  {
    && |states| == |es| + 1
    && (forall i :: 0 <= i < |es| && InBounds(states[i]) ==>
          Enabled(states[i], es[i]) && states[i + 1] == Step(states[i], es[i]))
  }

  /** In every state of every run from a state in order, each queue holds exactly the present slots
      of its table, once each, and `CURRENT_ID` is a valid index. */
  lemma {:induction false} EveryStateIsOk(states: seq<Sched>, es: seq<Event>, i: nat)
    requires IsRun(states, es) && Ok(states[0]) && i < |states|
    ensures Ok(states[i])
  {
    if i > 0 {
      EveryStateIsOk(states, es, i - 1);
      StepKeepsOk(states[i - 1], es[i - 1]);
    }
  }

  /** So it is in every run from boot. */
  lemma EveryStateFromBootIsOk(states: seq<Sched>, es: seq<Event>, i: nat)
    requires IsRun(states, es) && states[0] == BOOT && i < |states|
    ensures Ok(states[i])
  {
    BootOk();
    EveryStateIsOk(states, es, i);
  }

  // ----- Bounded waiting -----

  /** How many processes are ahead of `id`. */
  function Position(q: seq<nat>, id: nat): (p: nat)
    requires id in q
    ensures p < |q| && q[p] == id
    ensures forall i :: 0 <= i < p ==> q[i] != id
  {
    if q[0] == id then 0 else 1 + Position(q[1..], id)
  }

  lemma PositionIs(q: seq<nat>, id: nat, p: nat)
    requires NoDuplicates(q) && p < |q| && q[p] == id
    ensures id in q && Position(q, id) == p
  {
  }

  lemma {:induction false} PositionAfterWithout(q: seq<nat>, id: nat, gone: nat)
    requires id in q && id != gone
    ensures id in Without(q, gone)
    ensures Position(Without(q, gone), id) <= Position(q, id)
  {
    if q[0] != id {
      PositionAfterWithout(q[1..], id, gone);
      if q[0] != gone {
        assert Without(q, gone)[1..] == Without(q[1..], gone);
      }
    }
  }

  /** Ticks that can still pass before a waiting process is dispatched. */
  ghost function Budget(s: Sched, k: ProcType, id: nat): nat
    requires id in s.Of(k).queue
  {
    2 * Position(s.Of(k).queue, id) + if s.next == k then 1 else 2
  }

  predicate Dispatches(s: Sched, e: Event, k: ProcType, id: nat)
  {
    && InBounds(s) && e.Timer? && Tick(s, e.ctx, e.cr3).1.Switch?
    && Tick(s, e.ctx, e.cr3).1.kind == k && Tick(s, e.ctx, e.cr3).1.id == id
  }

  /** The process still waits in `t`, no further back than in `s`, and has used up `spent`
      units of its budget. */
  ghost predicate WaitsOn(s: Sched, t: Sched, k: ProcType, id: nat, spent: nat)
    requires id in s.Of(k).queue
  {
    && id in t.Of(k).queue
    && Position(t.Of(k).queue, id) <= Position(s.Of(k).queue, id)
    && Budget(t, k, id) + spent <= Budget(s, k, id)
  }

  /** One event: the process is dispatched or waits on, and a tick uses up budget. */
  lemma EventProgress(s: Sched, e: Event, k: ProcType, id: nat)
    requires Ok(s) && Enabled(s, e) && id in s.Of(k).queue && e != Kill(k, id)
    ensures Dispatches(s, e, k, id) || WaitsOn(s, Step(s, e), k, id, if e.Timer? then 1 else 0)
  {
    hide WaitsOn, Dispatches, Tick, Create, Remove;
    match e
    case Timer(ctx, cr3) => TimerProgress(s, ctx, cr3, k, id);
    case Spawn(k', frame, sel) => SpawnProgress(s, k', frame, sel, k, id);
    case Kill(k', id') => KillProgress(s, k', id', k, id);
  }

  lemma SpawnProgress(s: Sched, k': ProcType, frame: nat, sel: Selectors, k: ProcType, id: nat)
    requires Ok(s) && HasRoom(s, k') && id in s.Of(k).queue
    ensures WaitsOn(s, Create(s, k', frame, sel), k, id, 0)
  {
    CreateKeepsOk(s, k', frame, sel);
    hide HasRoom, FirstAbsent;
    var t := Create(s, k', frame, sel);
    PositionIs(t.Of(k).queue, id, Position(s.Of(k).queue, id));
  }

  lemma KillProgress(s: Sched, k': ProcType, id': nat, k: ProcType, id: nat)
    requires InBounds(s) && id in s.Of(k).queue && !(k' == k && id' == id)
    ensures WaitsOn(s, Remove(s, k', id').0, k, id, 0)
  {
    if k' == k {
      PositionAfterWithout(s.Of(k).queue, id, id');
    }
  }

  lemma TimerProgress(s: Sched, ctx: Context, cr3: nat, k: ProcType, id: nat)
    requires Ok(s) && id in s.Of(k).queue
    ensures Dispatches(s, Timer(ctx, cr3), k, id) || WaitsOn(s, Tick(s, ctx, cr3).0, k, id, 1)
  {
    var t := Tick(s, ctx, cr3).0;
    TickKeepsOk(s, ctx, cr3);
    var q, p := s.Of(k).queue, Position(s.Of(k).queue, id);
    if s.next == k && p > 0 {
      assert t.Of(k).queue == Rotated(q);
      PositionIs(t.Of(k).queue, id, p - 1);
    }
  }

  function TimerCount(es: seq<Event>): nat
  {
    if es == [] then 0 else TimerCount(es[..|es| - 1]) + if es[|es| - 1].Timer? then 1 else 0
  }

  /** As long as a process has not been dispatched it is still queued, no further back, and
      every tick so far came off its budget. */
  lemma {:induction false} WaitingUsesUpTheBudget(states: seq<Sched>, es: seq<Event>, k: ProcType, id: nat, i: nat)
    requires IsRun(states, es) && Ok(states[0]) && i <= |es|
    requires id in states[0].Of(k).queue && Kill(k, id) !in es[..i]
    requires forall j :: 0 <= j < i ==> !Dispatches(states[j], es[j], k, id)
    ensures id in states[i].Of(k).queue
    ensures Position(states[i].Of(k).queue, id) <= Position(states[0].Of(k).queue, id)
    ensures Budget(states[i], k, id) + TimerCount(es[..i]) <= Budget(states[0], k, id)
  {
    if i > 0 {
      assert es[..i][..i - 1] == es[..i - 1];
      assert es[..i][i - 1] == es[i - 1];
      WaitingUsesUpTheBudget(states, es, k, id, i - 1);
      EveryStateIsOk(states, es, i - 1);
      EventProgress(states[i - 1], es[i - 1], k, id);
    }
  }

  /** Bounded waiting: a process with `p` others ahead of it is dispatched within `2 * (p + 1)`
      ticks (one fewer when its class is next), whatever else is created, removed or run. */
  lemma DispatchedWithinBound(states: seq<Sched>, es: seq<Event>, k: ProcType, id: nat)
    requires IsRun(states, es) && Ok(states[0])
    requires id in states[0].Of(k).queue && Kill(k, id) !in es
    requires TimerCount(es) >= 2 * Position(states[0].Of(k).queue, id) + (if states[0].next == k then 1 else 2)
    ensures exists j :: 0 <= j < |es| && Dispatches(states[j], es[j], k, id)
  {
    if forall j :: 0 <= j < |es| ==> !Dispatches(states[j], es[j], k, id) {
      assert es[..|es|] == es;
      WaitingUsesUpTheBudget(states, es, k, id, |es|);
    }
  }

  // ----- The bound is exact while both classes are busy -----

  /** With both queues busy a tick that does not dispatch the process uses up exactly one unit,
      and the process is dispatched exactly when one unit is left. */
  lemma TimerIsExact(s: Sched, ctx: Context, cr3: nat, k: ProcType, id: nat)
    requires Ok(s) && id in s.Of(k).queue && s.Of(k.Other()).queue != []
    ensures var t := Tick(s, ctx, cr3).0;
      && (Dispatches(s, Timer(ctx, cr3), k, id) <==> Budget(s, k, id) == 1)
      && id in t.Of(k).queue && t.Of(k.Other()).queue != []
      && (Budget(s, k, id) > 1 ==> Budget(t, k, id) == Budget(s, k, id) - 1)
  {
    var t := Tick(s, ctx, cr3).0;
    TickKeepsOk(s, ctx, cr3);
    var q, p := s.Of(k).queue, Position(s.Of(k).queue, id);
    if s.next == k {
      RotatedKeeps(q);
      assert t.Of(k).queue == Rotated(q);
      if p > 0 {
        PositionIs(t.Of(k).queue, id, p - 1);
      }
    } else {
      RotatedKeeps(s.Of(s.next).queue);
    }
  }

  /** While nothing is created or removed and both classes have processes, a process with `p`
      others ahead of it is first dispatched by tick number `2 * p + 1` or `2 * p + 2`,
      depending on whose turn it is, and by no earlier one. */
  lemma {:induction false} FirstDispatchIsExact(states: seq<Sched>, es: seq<Event>, k: ProcType, id: nat, i: nat)
    requires IsRun(states, es) && Ok(states[0]) && (forall j :: 0 <= j < |es| ==> es[j].Timer?)
    requires id in states[0].Of(k).queue && states[0].Of(k.Other()).queue != []
    requires i < Budget(states[0], k, id) && i < |es|
    ensures id in states[i].Of(k).queue && states[i].Of(k.Other()).queue != []
    ensures Budget(states[i], k, id) == Budget(states[0], k, id) - i
    ensures Dispatches(states[i], es[i], k, id) <==> i == Budget(states[0], k, id) - 1
  {
    if i > 0 {
      FirstDispatchIsExact(states, es, k, id, i - 1);
      EveryStateIsOk(states, es, i - 1);
      TimerIsExact(states[i - 1], es[i - 1].ctx, es[i - 1].cr3, k, id);
    }
    EveryStateIsOk(states, es, i);
    hide Tick, Budget;
    TimerIsExact(states[i], es[i].ctx, es[i].cr3, k, id);
  }

  // ----- Removal -----

  /** Dropping an entry keeps the others in their order. */
  lemma {:induction false} WithoutKeepsOrder(q: seq<nat>, id: nat, x: nat, y: nat)
    requires x in q && y in q && x != id && y != id
    ensures x in Without(q, id) && y in Without(q, id)
    ensures Position(Without(q, id), x) < Position(Without(q, id), y) <==> Position(q, x) < Position(q, y)
  {
    PositionAfterWithout(q, x, id);
    PositionAfterWithout(q, y, id);
    if q[0] == id || (q[0] != x && q[0] != y) {
      WithoutKeepsOrder(q[1..], id, x, y);
      if q[0] != id {
        assert Without(q, id)[1..] == Without(q[1..], id);
      }
    }
  }

  /** `remove` answers by index and presence alone. A present process is gone afterwards, from its table
      and its queue; every other process keeps its slot and its place among the others. */
  lemma RemoveExactly(s: Sched, k: ProcType, id: nat)
    requires Ok(s)
    ensures var (t, r) := Remove(s, k, id);
      && (r == None <==> Present(s, Pid(k, id)))
      && (r == Some(InvalidIndex) <==> id >= 16384)
      && (r == Some(ProcessNotExist) <==> id < 16384 && !Present(s, Pid(k, id)))
      && (r != None ==> t == s)
      && (r == None ==>
            && !Present(t, Pid(k, id)) && id !in t.Of(k).queue
            && (forall p :: Present(s, p) && p != Pid(k, id) ==>
                  Present(t, p) && t.Of(p.kind).table[p.id] == s.Of(p.kind).table[p.id])
            && (forall p :: Present(t, p) ==> Present(s, p))
            && t.Of(k.Other()) == s.Of(k.Other()) && t.next == s.next && t.cur == s.cur)
  {
    WithoutKeeps(s.Of(k).queue, id);
  }

  /** After a removal the others wait in the order they waited in. */
  lemma RemoveKeepsOrder(s: Sched, k: ProcType, id: nat, x: nat, y: nat)
    requires Ok(s) && Present(s, Pid(k, id)) && x != id && y != id
    requires Present(s, Pid(k, x)) && Present(s, Pid(k, y))
    ensures var q, q' := s.Of(k).queue, Remove(s, k, id).0.Of(k).queue;
      && x in q && y in q && x in q' && y in q'
      && (Position(q', x) < Position(q', y) <==> Position(q, x) < Position(q, y))
  {
    WithoutKeepsOrder(s.Of(k).queue, id, x, y);
  }

  /** An event that creates no process in a slot does not make it present. */
  lemma AbsentStays(s: Sched, e: Event, p: Pid)
    requires Ok(s) && Enabled(s, e) && !Present(s, p)
    requires e.Spawn? ==> Pid(e.kind, FirstAbsent(s.Of(e.kind).table)) != p
    ensures !Present(Step(s, e), p) && !Dispatches(s, e, p.kind, p.id)
  {
    match e
    case Timer(ctx, cr3) => TickKeepsOk(s, ctx, cr3);
    case Spawn(k, frame, sel) =>
    case Kill(k, id) => RemoveExactly(s, k, id);
  }

  /** In every run: once a process is removed no tick dispatches it, until its slot is filled again. */
  lemma {:induction false} RemovedIsNeverDispatched(states: seq<Sched>, es: seq<Event>, i: nat, j: nat, p: Pid)
    requires IsRun(states, es) && Ok(states[0]) && i < j < |es|
    requires es[i] == Kill(p.kind, p.id) && Present(states[i], p)
    requires forall m :: i < m < j && es[m].Spawn? ==>
      Pid(es[m].kind, FirstAbsent(states[m].Of(es[m].kind).table)) != p
    ensures !Present(states[j], p) && !(es[j].Timer? && Dispatches(states[j], es[j], p.kind, p.id))
    decreases j
  {
    hide Step, Dispatches, Present, FirstAbsent;
    EveryStateIsOk(states, es, j - 1);
    if j - 1 == i {
      RemoveExactly(states[i], p.kind, p.id);
      RemovedHere(states[i], p);
    } else {
      RemovedIsNeverDispatched(states, es, i, j - 1, p);
      AbsentStays(states[j - 1], es[j - 1], p);
    }
    EveryStateIsOk(states, es, j);
    if es[j].Timer? {
      AbsentStays(states[j], es[j], p);
    }
  }

  lemma RemovedHere(s: Sched, p: Pid)
    requires Ok(s) && Present(s, p)
    ensures !Present(Step(s, Kill(p.kind, p.id)), p)
  {
    RemoveExactly(s, p.kind, p.id);
    hide Remove;
  }
}
