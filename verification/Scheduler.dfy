/** The scheduler's shared state and the code that updates it in place. */
module Scheduler {
  import opened Prelude
  import opened SchedulerSpec

  class Scheduler {
    var normalQueue: seq<nat>
    var driverQueue: seq<nat>
    var normalProcess: seq<Slot>
    var driverProcess: seq<Slot>
    /** Whose turn is next: a driver's or a normal process's. */
    var isDriver: bool
    var currentId: nat

    ghost function View(): Sched
      reads this
    {
      Sched(Lane(normalQueue, normalProcess), Lane(driverQueue, driverProcess),
            if isDriver then Driver else Normal, currentId)
    }

    constructor ()
      ensures View() == BOOT && Ok(View())
      ensures normalQueue == driverQueue == [] && !isDriver && currentId == 16383
      ensures |normalProcess| == |driverProcess| == 16384
    {
      normalQueue, driverQueue := [], [];
      normalProcess := seq(MAX_PS, _ => EMPTY_SLOT);
      driverProcess := seq(MAX_PS, _ => EMPTY_SLOT);
      isDriver, currentId := false, NO_ID;
    }

    /** The timer interrupt: save the interrupted registers, pick the next process. */
    method SwitchTask(ctx: Context, cr3: nat) returns (out: Outcome)
      requires Ok(View())
      modifies this
      ensures Ok(View()) && (View(), out) == Tick(old(View()), ctx, cr3)
    {
      TickKeepsOk(View(), ctx, cr3);
      var normalEmpty, driverEmpty := normalQueue == [], driverQueue == [];
      if normalEmpty && driverEmpty {
        return Resume(KERNEL_PML4);
      }
      var cur := currentId;
      if isDriver {
        if !normalEmpty {
          isDriver := false;
        }
        if driverEmpty {
          var table := normalProcess[cur].tableAddr;
          return Resume(if table == 0 then KERNEL_PML4 else table);
        }
        normalProcess := normalProcess[cur := normalProcess[cur].(context := ctx, currentTable := cr3)];
        out := ToDriver();
      } else {
        if !driverEmpty {
          isDriver := true;
        }
        if normalEmpty {
          var table := driverProcess[cur].tableAddr;
          return Resume(if table == 0 then KERNEL_PML4 else table);
        }
        driverProcess := driverProcess[cur := driverProcess[cur].(context := ctx)];
        out := ToNormal();
      }
    }

    method ToDriver() returns (out: Outcome)
      requires driverQueue != []
      modifies this`currentId, this`driverQueue
      ensures (View(), out) == Dispatch(old(View()), Driver)
    {
      var did := driverQueue[0];
      if did >= |driverProcess| || !driverProcess[did].present {
        return Resume(KERNEL_PML4);
      }
      currentId := did;
      driverQueue := driverQueue[1..] + [did];
      return Switch(Driver, did, driverProcess[did].context, driverProcess[did].tableAddr);
    }

    method ToNormal() returns (out: Outcome)
      requires normalQueue != []
      modifies this`currentId, this`normalQueue
      ensures (View(), out) == Dispatch(old(View()), Normal)
    {
      var pid := normalQueue[0];
      if pid >= |normalProcess| || !normalProcess[pid].present {
        return Resume(KERNEL_PML4);
      }
      currentId := pid;
      normalQueue := normalQueue[1..] + [pid];
      return Switch(Normal, pid, normalProcess[pid].context, normalProcess[pid].currentTable);
    }

    /** Put a new process into the first free slot of its table and at the end of its queue. */
    method CreateProcess(kind: ProcType, frame: nat, sel: Selectors)
      requires Ok(View()) && HasRoom(View(), kind)
      modifies this
      ensures Ok(View()) && View() == Create(old(View()), kind, frame, sel)
    {
      CreateKeepsOk(View(), kind, frame, sel);
      match kind
      case Normal =>
        var pid := FindAbsent(normalProcess);
        normalProcess := normalProcess[pid := NewSlot(Normal, frame, sel)];
        normalQueue := normalQueue + [pid];
      case Driver =>
        var did := FindAbsent(driverProcess);
        driverProcess := driverProcess[did := NewSlot(Driver, frame, sel)];
        driverQueue := driverQueue + [did];
    }

    method FindAbsent(table: seq<Slot>) returns (id: nat)
      ensures id == FirstAbsent(table)
    {
      id := 0;
      while id < |table| && table[id].present
        invariant id <= |table|
        invariant forall j :: 0 <= j < id ==> table[j].present
      {
        id := id + 1;
      }
    }

    method RemoveProcess(kind: ProcType, index: nat) returns (r: Option<Error>)
      requires Ok(View())
      modifies this
      ensures Ok(View()) && (View(), r) == Remove(old(View()), kind, index)
    {
      RemoveKeepsOk(View(), kind, index);
      if index >= MAX_PS {
        return Some(InvalidIndex);
      }
      match kind
      case Normal =>
        if !normalProcess[index].present {
          return Some(ProcessNotExist);
        }
        normalProcess := normalProcess[index := normalProcess[index].(present := false)];
        normalQueue := Retain(normalQueue, index);
        return None;
      case Driver =>
        if !driverProcess[index].present {
          return Some(ProcessNotExist);
        }
        driverProcess := driverProcess[index := driverProcess[index].(present := false)];
        driverQueue := Retain(driverQueue, index);
        return None;
    }

    /** Keep every queue entry that is not `id`, in order. */
    method Retain(queue: seq<nat>, id: nat) returns (kept: seq<nat>)
      ensures kept == Without(queue, id)
    {
      kept := [];
      for i := 0 to |queue|
        invariant kept + Without(queue[i..], id) == Without(queue, id)
      {
        assert queue[i..][1..] == queue[i + 1..];
        if queue[i] != id {
          kept := kept + [queue[i]];
        }
      }
    }
  }
}
