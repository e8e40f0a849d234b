/** When a preempted process gets its own registers back. */
module SchedulerContexts {
  import opened Prelude
  import opened SchedulerSpec
  import opened SchedulerRuns

  /** What a process must be resumed with. */
  datatype Image = Image(ctx: Context, cr3: nat)

  /** An observer outside the scheduler: it knows which process the processor is running and,
      for each process, the registers it had when it was last preempted (or created), and for each
      slot the page table of the last process created in it. */
  datatype Observer = Observer(running: Option<Pid>, due: map<Pid, Image>, homes: map<Pid, nat>)

  const BLANK := Observer(None, map[], map[])

  /** Preemption records the registers and, for a normal process, the page table in use;
      a driver always runs under its own table. */
  function Preempted(o: Observer, ctx: Context, cr3: nat): map<Pid, Image>
  {
    if o.running.Some? && o.running.value in o.due then
      var p := o.running.value;
      o.due[p := Image(ctx, if p.kind == Normal then cr3 else o.due[p].cr3)]
    else o.due
  }

  /** What the observer sees of one event. */
  function Observe(s: Sched, o: Observer, e: Event): Observer
    requires InBounds(s) && Enabled(s, e)
  {
    match e
    case Timer(ctx, cr3) =>
      var out := Tick(s, ctx, cr3).1;
      if out.Switch? then o.(running := Some(Pid(out.kind, out.id)), due := Preempted(o, ctx, cr3)) else o
    case Spawn(k, frame, sel) =>
      var p := Pid(k, FirstAbsent(s.Of(k).table));
      o.(due := o.due[p := Image(InitialContext(k, sel), frame)], homes := o.homes[p := frame])
    case Kill(k, id) =>
      if !Present(s, Pid(k, id)) then o
      else
        o.(running := if o.running == Some(Pid(k, id)) then None else o.running, due := o.due - {Pid(k, id)})
  }

  /** What the process table holds for a process. */
  function Stored(s: Sched, p: Pid): Image
    requires Present(s, p)
  {
    var slot := s.Of(p.kind).table[p.id];
    Image(slot.context, TableOf(p.kind, slot))
  }

  /** The observer and the scheduler agree on which processes exist and which one is current. */
  ghost predicate InStep(s: Sched, o: Observer)
  {
    && (forall p :: p in o.due <==> Present(s, p))
    && (o.running.Some? ==> Present(s, o.running.value) && o.running.value.id == s.cur)
  }

  /** Every process that is not running is stored with what it must be resumed with. */
  ghost predicate Faithful(s: Sched, o: Observer)
  {
    forall p :: p in o.due && Present(s, p) ==>
      if o.running == Some(p) then p.kind == Driver ==> o.due[p].cr3 == s.Of(Driver).table[p.id].tableAddr
      else Stored(s, p) == o.due[p]
  }

  /** The tick delivers to the process it dispatches exactly what that process must be resumed
      with, and every other process keeps its own. */
  ghost predicate GoodTick(s: Sched, o: Observer, ctx: Context, cr3: nat)
    requires InBounds(s)
  {
    var (t, out) := Tick(s, ctx, cr3);
    var o' := Observe(s, o, Timer(ctx, cr3));
    && Faithful(t, o')
    && (out.Switch? ==> Pid(out.kind, out.id) in o'.due && Image(out.context, out.cr3) == o'.due[Pid(out.kind, out.id)])
  }

  /** The slot a tick saves into is the running process's own, or nobody's. */
  predicate SafeSave(s: Sched, o: Observer)
  {
    match o.running
    case Some(p) => p.kind == s.next.Other()
    case None => !Present(s, Pid(s.next.Other(), s.cur))
  }

  /** Any other register contents than the given ones. */
  function Changed(c: Context): Context
  {
    c.(rax := c.rax + 1)
  }

  lemma TickKeepsInStep(s: Sched, o: Observer, ctx: Context, cr3: nat)
    requires Ok(s) && InStep(s, o)
    ensures InStep(Tick(s, ctx, cr3).0, Observe(s, o, Timer(ctx, cr3)))
  {
    var t := Tick(s, ctx, cr3).0;
    TickKeepsOk(s, ctx, cr3);
    if s.Of(s.next).queue != [] {
      assert s.Of(s.next).queue[0] in s.Of(s.next).queue;
      assert forall p :: Present(t, p) <==> Present(s, p);
    }
  }

  /** A dispatching tick writes one slot, and only its saved registers. */
  lemma TickStores(s: Sched, ctx: Context, cr3: nat, p: Pid)
    requires Ok(s) && s.Of(s.next).queue != [] && Present(s, p)
    ensures var t := Tick(s, ctx, cr3).0;
      && Present(t, p) && t.Of(p.kind).table[p.id].tableAddr == s.Of(p.kind).table[p.id].tableAddr
      && (p != Pid(s.next.Other(), s.cur) ==> Stored(t, p) == Stored(s, p))
      && (p == Pid(s.next.Other(), s.cur) ==>
            Stored(t, p) == Image(ctx, if p.kind == Normal then cr3 else s.Of(Driver).table[p.id].tableAddr))
  {
    assert s.Of(s.next).queue[0] in s.Of(s.next).queue;
  }

  /** What a dispatching tick delivers is what the table held before it. */
  lemma TickDelivers(s: Sched, ctx: Context, cr3: nat)
    requires Ok(s) && s.Of(s.next).queue != []
    ensures var out := Tick(s, ctx, cr3).1;
      var p := Pid(s.next, s.Of(s.next).queue[0]);
      && Present(s, p) && out == Switch(p.kind, p.id, Stored(s, p).ctx, Stored(s, p).cr3)
  {
    assert s.Of(s.next).queue[0] in s.Of(s.next).queue;
  }

  lemma SafeSaveSuffices(s: Sched, o: Observer, ctx: Context, cr3: nat)
    requires Ok(s) && InStep(s, o) && Faithful(s, o) && s.Of(s.next).queue != [] && SafeSave(s, o)
    ensures GoodTick(s, o, ctx, cr3)
  {
    TickDelivers(s, ctx, cr3);
    TickKeepsInStep(s, o, ctx, cr3);
    var t, o' := Tick(s, ctx, cr3).0, Observe(s, o, Timer(ctx, cr3));
    forall p | p in o'.due && Present(t, p)
      ensures if o'.running == Some(p) then p.kind == Driver ==> o'.due[p].cr3 == t.Of(Driver).table[p.id].tableAddr
              else Stored(t, p) == o'.due[p]
    {
      assert Present(s, p);
      TickStores(s, ctx, cr3, p);
      hide Tick;
    }
  }

  /** An unsafe save loses or overwrites somebody's registers for some interrupted registers. */
  lemma UnsafeSaveLosesRegisters(s: Sched, o: Observer) returns (ctx: Context)
    requires Ok(s) && InStep(s, o) && Faithful(s, o) && s.Of(s.next).queue != [] && !SafeSave(s, o)
    ensures !GoodTick(s, o, ctx, 0)
  {
    var victim := if o.running.Some? then o.running.value else Pid(s.next.Other(), s.cur);
    assert Present(s, victim);
    ctx := Changed(Stored(s, victim).ctx);
    TickDelivers(s, ctx, 0);
    TickStores(s, ctx, 0, victim);
    TickKeepsInStep(s, o, ctx, 0);
    hide Tick;
    var t, o' := Tick(s, ctx, 0).0, Observe(s, o, Timer(ctx, 0));
    assert victim in o'.due && Present(t, victim);
  }

  /** Exactly when a dispatching tick preserves every process's registers, whatever the
      interrupted ones are: when it saves into the running process's own slot, or, with no
      process running, into an unused one. */
  lemma TickIsGoodIffSaveIsSafe(s: Sched, o: Observer)
    requires Ok(s) && InStep(s, o) && Faithful(s, o) && s.Of(s.next).queue != []
    ensures (forall ctx, cr3 :: GoodTick(s, o, ctx, cr3)) <==> SafeSave(s, o)
  {
    if SafeSave(s, o) {
      forall ctx, cr3
        ensures GoodTick(s, o, ctx, cr3)
      {
        SafeSaveSuffices(s, o, ctx, cr3);
      }
    } else {
      var ctx := UnsafeSaveLosesRegisters(s, o);
    }
  }

  // ----- Whole runs -----

  /** A run watched by an observer. */
  ghost predicate IsObservedRun(states: seq<Sched>, obs: seq<Observer>, es: seq<Event>)
  {
    && IsRun(states, es) && |obs| == |states|
    && (forall i :: 0 <= i < |es| && InBounds(states[i]) ==> obs[i + 1] == Observe(states[i], obs[i], es[i]))
  }

  /** What holds of a run that never saves into the wrong slot. */
  ghost predicate Kept(s: Sched, o: Observer)
  {
    Ok(s) && InStep(s, o) && Faithful(s, o)
  }

  /** A tick that dispatches saves safely. */
  ghost predicate SavesSafely(s: Sched, o: Observer, e: Event)
  {
    e.Timer? && s.Of(s.next).queue != [] ==> SafeSave(s, o)
  }

  lemma StepIsKept(s: Sched, o: Observer, e: Event)
    requires Kept(s, o) && Enabled(s, e) && SavesSafely(s, o, e)
    ensures Kept(Step(s, e), Observe(s, o, e))
    ensures e.Timer? ==> GoodTick(s, o, e.ctx, e.cr3)
  {
    match e
    case Timer(ctx, cr3) =>
      TickKeepsOk(s, ctx, cr3);
      TickKeepsInStep(s, o, ctx, cr3);
      if s.Of(s.next).queue != [] {
        SafeSaveSuffices(s, o, ctx, cr3);
      } else {
        IdleTickIsGood(s, o, ctx, cr3);
      }
      hide Ok, Tick, Faithful, InStep;
    case Spawn(k, frame, sel) =>
      hide Ok, Create, InStep, Faithful;
      SpawnIsKept(s, o, k, frame, sel);
    case Kill(k, id) =>
      hide Ok, Remove, InStep, Faithful;
      KillIsKept(s, o, k, id);
  }

  /** A tick that dispatches nobody changes no process. */
  lemma IdleTickIsGood(s: Sched, o: Observer, ctx: Context, cr3: nat)
    requires Ok(s) && Faithful(s, o) && s.Of(s.next).queue == []
    ensures GoodTick(s, o, ctx, cr3)
  {
    TickKeepsOk(s, ctx, cr3);
    var t := Tick(s, ctx, cr3).0;
    assert forall k :: t.Of(k) == s.Of(k);
    hide Tick, Ok;
  }

  /** Over every run in which each dispatching tick saves safely, whatever else happens, each
      process is resumed with exactly what it had when it was last preempted or created. */
  lemma {:induction false} EverySafeRunIsFaithful(states: seq<Sched>, obs: seq<Observer>, es: seq<Event>, i: nat)
    requires IsObservedRun(states, obs, es) && Kept(states[0], obs[0]) && i < |states|
    requires forall j :: 0 <= j < |es| ==> SavesSafely(states[j], obs[j], es[j])
    ensures Kept(states[i], obs[i])
    ensures i < |es| && es[i].Timer? ==> GoodTick(states[i], obs[i], es[i].ctx, es[i].cr3)
  {
    hide Step, Observe, SavesSafely, GoodTick;
    if i > 0 {
      EverySafeRunIsFaithful(states, obs, es, i - 1);
      StepIsKept(states[i - 1], obs[i - 1], es[i - 1]);
    }
    if i < |es| {
      StepIsKept(states[i], obs[i], es[i]);
    }
  }

  // ----- Runs with both classes busy -----

  /** At a tick both queues are non-empty and, when no living process is running (at the very
      first tick, or because the running one was removed), the slot saved into is unused. */
  ghost predicate Undisturbed(s: Sched, o: Observer, e: Event)
  {
    e.Timer? ==> s.normal.queue != [] && s.driver.queue != [] && (o.running.None? ==> SafeSave(s, o))
  }

  /** The running process belongs to the class that is not next. */
  predicate Aligned(s: Sched, o: Observer)
  {
    o.running.Some? ==> o.running.value.kind == s.next.Other()
  }

  ghost predicate Sound(s: Sched, o: Observer)
  {
    Kept(s, o) && Aligned(s, o)
  }

  /** A tick dispatches a process of the class that did not run, with its own registers. */
  ghost predicate AlternatesFaithfully(s: Sched, o: Observer, e: Event)
    requires InBounds(s)
  {
    e.Timer? ==>
      var out := Tick(s, e.ctx, e.cr3).1;
      && GoodTick(s, o, e.ctx, e.cr3)
      && out.Switch? && (o.running.Some? ==> out.kind == o.running.value.kind.Other())
  }

  /** With both queues busy the turn passes to the other class at every tick. */
  lemma TurnsAlternate(s: Sched, ctx: Context, cr3: nat)
    requires Ok(s) && s.normal.queue != [] && s.driver.queue != []
    ensures Tick(s, ctx, cr3).0.next == s.next.Other()
  {
    assert s.Of(s.next).queue[0] in s.Of(s.next).queue;
  }

  /** Alignment survives a dispatch exactly when the other class has a process waiting. */
  lemma AlignedAfterDispatchIff(s: Sched, o: Observer, ctx: Context, cr3: nat)
    requires Ok(s) && s.Of(s.next).queue != []
    ensures Aligned(Tick(s, ctx, cr3).0, Observe(s, o, Timer(ctx, cr3))) <==> s.Of(s.next.Other()).queue != []
  {
    assert s.Of(s.next).queue[0] in s.Of(s.next).queue;
  }

  lemma SpawnFillsOneSlot(s: Sched, k: ProcType, frame: nat, sel: Selectors)
    requires InBounds(s) && HasRoom(s, k)
    ensures var t := Create(s, k, frame, sel);
      var new' := Pid(k, FirstAbsent(s.Of(k).table));
      && t.cur == s.cur && t.next == s.next
      && !Present(s, new') && Present(t, new') && Stored(t, new') == Image(InitialContext(k, sel), frame)
      && (forall p :: p != new' ==> (Present(t, p) <==> Present(s, p)))
      && (forall p :: Present(s, p) ==> t.Of(p.kind).table[p.id] == s.Of(p.kind).table[p.id])
  {
  }

  lemma SpawnIsKept(s: Sched, o: Observer, k: ProcType, frame: nat, sel: Selectors)
    requires Kept(s, o) && HasRoom(s, k)
    ensures Kept(Create(s, k, frame, sel), Observe(s, o, Spawn(k, frame, sel)))
    ensures Create(s, k, frame, sel).next == s.next
  {
    hide LaneOk, Create, FirstAbsent, Present, InitialContext;
    CreateKeepsOk(s, k, frame, sel);
    SpawnFillsOneSlot(s, k, frame, sel);
  }

  lemma KillClearsOneSlot(s: Sched, k: ProcType, id: nat)
    requires InBounds(s)
    ensures var t := Remove(s, k, id).0;
      && t.cur == s.cur && t.next == s.next && (!Present(s, Pid(k, id)) ==> t == s)
      && (forall p :: Present(t, p) <==> Present(s, p) && p != Pid(k, id))
      && (forall p :: Present(t, p) ==> t.Of(p.kind).table[p.id] == s.Of(p.kind).table[p.id])
  {
    hide Without;
  }

  lemma KillIsKept(s: Sched, o: Observer, k: ProcType, id: nat)
    requires Kept(s, o)
    ensures Kept(Remove(s, k, id).0, Observe(s, o, Kill(k, id)))
    ensures Remove(s, k, id).0.next == s.next
  {
    hide LaneOk, Remove, Present;
    RemoveKeepsOk(s, k, id);
    KillClearsOneSlot(s, k, id);
  }

  /** Over every run in which both classes stay busy and the slot of a removed running process
      is not reused before the next tick, dispatches alternate between the classes and each process
      is resumed with exactly what it had when it was last preempted, or was created with. */
  lemma {:induction false} EveryDispatchResumesFaithfully(
    states: seq<Sched>, obs: seq<Observer>, es: seq<Event>, i: nat)
    requires IsObservedRun(states, obs, es) && Sound(states[0], obs[0]) && i < |states|
    requires forall j :: 0 <= j < |es| ==> Undisturbed(states[j], obs[j], es[j])
    ensures Sound(states[i], obs[i])
    ensures i < |es| ==> AlternatesFaithfully(states[i], obs[i], es[i])
  {
    hide Step, Observe, Undisturbed, AlternatesFaithfully;
    if i > 0 {
      EveryDispatchResumesFaithfully(states, obs, es, i - 1);
      StepIsSound(states[i - 1], obs[i - 1], es[i - 1]);
    }
    if i < |es| {
      StepIsSound(states[i], obs[i], es[i]);
    }
  }

  lemma StepIsSound(s: Sched, o: Observer, e: Event)
    requires Sound(s, o) && Enabled(s, e) && Undisturbed(s, o, e)
    ensures Sound(Step(s, e), Observe(s, o, e)) && AlternatesFaithfully(s, o, e)
  {
    StepIsKept(s, o, e);
    match e
    case Timer(ctx, cr3) =>
      TickKeepsOk(s, ctx, cr3);
      TurnsAlternate(s, ctx, cr3);
      hide Tick, Kept, GoodTick;
    case Spawn(k, frame, sel) =>
      SpawnIsKept(s, o, k, frame, sel);
      hide Create, Kept;
    case Kill(k, id) =>
      KillIsKept(s, o, k, id);
      hide Remove, Kept;
  }

  /** The system starts sound: nothing runs and nothing exists. */
  lemma BootIsSound()
    ensures Sound(BOOT, BLANK)
  {
    BootOk();
  }

  /** So it is in every such run from boot. */
  lemma EveryDispatchFromBootResumesFaithfully(
    states: seq<Sched>, obs: seq<Observer>, es: seq<Event>, i: nat)
    requires IsObservedRun(states, obs, es) && states[0] == BOOT && obs[0] == BLANK && i < |states|
    requires forall j :: 0 <= j < |es| ==> Undisturbed(states[j], obs[j], es[j])
    ensures Sound(states[i], obs[i])
    ensures i < |es| ==> AlternatesFaithfully(states[i], obs[i], es[i])
  {
    BootIsSound();
    hide Sound, Undisturbed, AlternatesFaithfully;
    EveryDispatchResumesFaithfully(states, obs, es, i);
  }

  // ----- Ticks that dispatch nobody -----

  /** The page table of the last process created in a slot; none was created in a slot without one. */
  function Home(o: Observer, p: Pid): nat
  {
    if p in o.homes then o.homes[p] else 0
  }

  /** Every slot has the page table its last process was created with. */
  ghost predicate HomesOk(s: Sched, o: Observer)
    requires InBounds(s)
  {
    forall p: Pid :: p.id < MAX_PS ==> s.Of(p.kind).table[p.id].tableAddr == Home(o, p)
  }

  ghost predicate Watched(s: Sched, o: Observer)
  {
    Ok(s) && InStep(s, o) && HomesOk(s, o)
  }

  lemma TickKeepsHomes(s: Sched, ctx: Context, cr3: nat, p: Pid)
    requires Ok(s) && p.id < MAX_PS
    ensures var t := Tick(s, ctx, cr3).0;
      InBounds(t) && t.Of(p.kind).table[p.id].tableAddr == s.Of(p.kind).table[p.id].tableAddr
  {
    TickKeepsOk(s, ctx, cr3);
  }

  lemma TickKeepsWatched(s: Sched, o: Observer, ctx: Context, cr3: nat)
    requires Watched(s, o)
    ensures Watched(Tick(s, ctx, cr3).0, Observe(s, o, Timer(ctx, cr3)))
  {
    hide Tick, LaneOk, InStep;
    TickKeepsOk(s, ctx, cr3);
    TickKeepsInStep(s, o, ctx, cr3);
    forall p: Pid | p.id < MAX_PS
      ensures Tick(s, ctx, cr3).0.Of(p.kind).table[p.id].tableAddr == Home(o, p)
    {
      TickKeepsHomes(s, ctx, cr3, p);
    }
  }

  lemma SpawnKeepsWatched(s: Sched, o: Observer, k: ProcType, frame: nat, sel: Selectors)
    requires Watched(s, o) && HasRoom(s, k)
    ensures Watched(Create(s, k, frame, sel), Observe(s, o, Spawn(k, frame, sel)))
  {
    CreateKeepsOk(s, k, frame, sel);
    SpawnFillsOneSlot(s, k, frame, sel);
    SpawnKeepsHomes(s, o, k, frame, sel);
    hide Create, Ok, HomesOk, FirstAbsent, Present, InitialContext;
  }

  lemma SpawnKeepsHomes(s: Sched, o: Observer, k: ProcType, frame: nat, sel: Selectors)
    requires InBounds(s) && HomesOk(s, o) && HasRoom(s, k)
    ensures InBounds(Create(s, k, frame, sel))
    ensures HomesOk(Create(s, k, frame, sel), Observe(s, o, Spawn(k, frame, sel)))
  {
    hide FirstAbsent, InitialContext;
  }

  lemma KillKeepsWatched(s: Sched, o: Observer, k: ProcType, id: nat)
    requires Watched(s, o)
    ensures Watched(Remove(s, k, id).0, Observe(s, o, Kill(k, id)))
  {
    RemoveKeepsOk(s, k, id);
    KillClearsOneSlot(s, k, id);
    KillKeepsHomes(s, o, k, id);
    hide Remove, Ok, HomesOk, Present;
  }

  lemma KillKeepsHomes(s: Sched, o: Observer, k: ProcType, id: nat)
    requires InBounds(s) && HomesOk(s, o)
    ensures InBounds(Remove(s, k, id).0) && HomesOk(Remove(s, k, id).0, Observe(s, o, Kill(k, id)))
  {
    hide Without;
  }

  lemma StepKeepsWatched(s: Sched, o: Observer, e: Event)
    requires Watched(s, o) && Enabled(s, e)
    ensures Watched(Step(s, e), Observe(s, o, e))
  {
    hide Tick, Create, Remove, LaneOk, InStep, HomesOk, Observe;
    match e
    case Timer(ctx, cr3) => TickKeepsWatched(s, o, ctx, cr3);
    case Spawn(k, frame, sel) => SpawnKeepsWatched(s, o, k, frame, sel);
    case Kill(k, id) => KillKeepsWatched(s, o, k, id);
  }

  /** What is loaded for a page table; without one the kernel's stays, at 1 MiB. */
  function LoadedTable(frame: nat): nat
  {
    if frame == 0 then 0x10_0000 else frame
  }

  /** When the class in turn has no process the tick returns to the interrupted code. With no process
      at all nothing changes and the kernel's table stays. Otherwise the turn passes, and the code goes
      on under the page table that the running process was created with; when none is running, under
      that of the last process in the slot the scheduler takes for current. */
  ghost predicate ReturnsHome(s: Sched, o: Observer, e: Event)
    requires InBounds(s)
  {
    e.Timer? && s.Of(s.next).queue == [] ==>
      var (t, out) := Tick(s, e.ctx, e.cr3);
      if s.Of(s.next.Other()).queue == [] then t == s && out == Resume(0x10_0000)
      else
        && t == s.(next := s.next.Other())
        && (match o.running
            case Some(p) => p.kind == s.next.Other() && out == Resume(LoadedTable(Home(o, p)))
            case None => out == Resume(LoadedTable(Home(o, Pid(s.next.Other(), s.cur)))))
  }

  lemma TickReturnsHome(s: Sched, o: Observer, e: Event)
    requires Watched(s, o)
    ensures ReturnsHome(s, o, e)
  {
    if o.running.Some? {
      assert o.running.value.id in s.Of(o.running.value.kind).queue;
    }
    assert Home(o, Pid(s.next.Other(), s.cur)) == s.Of(s.next.Other()).table[s.cur].tableAddr;
  }

  /** So it is at every tick of every run from boot, whatever is created, removed or saved. */
  lemma {:induction false} EveryIdleTickReturnsHome(
    states: seq<Sched>, obs: seq<Observer>, es: seq<Event>, i: nat)
    requires IsObservedRun(states, obs, es) && states[0] == BOOT && obs[0] == BLANK && i < |states|
    ensures Watched(states[i], obs[i])
    ensures i < |es| ==> ReturnsHome(states[i], obs[i], es[i])
  {
    hide Step, Observe, ReturnsHome;
    if i == 0 {
      BootIsSound();
    } else {
      EveryIdleTickReturnsHome(states, obs, es, i - 1);
      StepKeepsWatched(states[i - 1], obs[i - 1], es[i - 1]);
    }
    if i < |es| {
      TickReturnsHome(states[i], obs[i], es[i]);
    }
  }

  // ----- What happens with only one class -----

  /** Only processes of class `k` exist and all of them are stored with their first registers. */
  ghost predicate OnlyFresh(s: Sched, k: ProcType, sel: Selectors)
  {
    && Ok(s) && s.Of(k.Other()).queue == []
    && (forall id: nat :: Present(s, Pid(k, id)) ==> s.Of(k).table[id].context == InitialContext(k, sel))
  }

  lemma StepKeepsOnlyFresh(s: Sched, e: Event, k: ProcType, sel: Selectors)
    requires OnlyFresh(s, k, sel) && Enabled(s, e) && (e.Spawn? ==> e.kind == k && e.sel == sel)
    ensures OnlyFresh(Step(s, e), k, sel)
    ensures e.Timer? && Tick(s, e.ctx, e.cr3).1.Switch? ==>
      Tick(s, e.ctx, e.cr3).1.kind == k && Tick(s, e.ctx, e.cr3).1.context == InitialContext(k, sel)
  {
    StepKeepsOk(s, e);
    hide Ok, InitialContext;
    match e
    case Timer(ctx, cr3) =>
      TickKeepsOk(s, ctx, cr3);
    case Spawn(_, frame, _) =>
    case Kill(k', id) =>
      assert k' != k ==> Remove(s, k', id).0.Of(k) == s.Of(k);
      assert Without([], id) == [];
  }

  /** While only one class has processes, no registers are ever saved for them: every dispatch
      starts its process over from its creation registers, whatever it had done. */
  lemma {:induction false} SingleClassProcessesStartOver(
    states: seq<Sched>, es: seq<Event>, k: ProcType, sel: Selectors, i: nat)
    requires IsRun(states, es) && OnlyFresh(states[0], k, sel) && i < |states|
    requires forall j :: 0 <= j < |es| && es[j].Spawn? ==> es[j].kind == k && es[j].sel == sel
    ensures OnlyFresh(states[i], k, sel)
    ensures i < |es| && es[i].Timer? ==>
      var out := Tick(states[i], es[i].ctx, es[i].cr3).1;
      out.Switch? ==> out.context == InitialContext(k, sel)
  {
    hide Step, Tick;
    if i > 0 {
      SingleClassProcessesStartOver(states, es, k, sel, i - 1);
      StepKeepsOnlyFresh(states[i - 1], es[i - 1], k, sel);
    }
    if i < |es| {
      StepKeepsOnlyFresh(states[i], es[i], k, sel);
    }
  }

  /** The shortest case: one process, two ticks. Whatever registers `ctx` the second tick finds,
      the process is resumed with its creation registers, not with `ctx`. */
  lemma LostRegistersExample(frame: nat, sel: Selectors, boot: Context, bootCr3: nat, ctx: Context, cr3: nat)
    ensures HasRoom(BOOT, Normal)
    ensures var s := Create(BOOT, Normal, frame, sel);
      var first := Tick(s, boot, bootCr3);
      && first.1 == Switch(Normal, 0, InitialContext(Normal, sel), frame)
      && InBounds(first.0)
      && Tick(first.0, ctx, cr3).1 == Switch(Normal, 0, InitialContext(Normal, sel), frame)
  {
    assert FirstAbsent(BOOT.normal.table) == 0;
    var s := Create(BOOT, Normal, frame, sel);
    assert s.normal.queue == [0];
    var t := Tick(s, boot, bootCr3).0;
    hide InitialContext;
    assert t.normal.queue == [0] && t.next == Normal && t.normal.table == s.normal.table;
  }
}
