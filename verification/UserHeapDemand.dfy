/** How the heap system call ends: what it asks of the frame allocator. */
module UserHeapDemand {
  import opened Prelude
  import opened FrameSpec
  import opened UserHeapProps
  import opened UserHeapSpec
  import R = FrameRuns

  // ----- What the calls ask for, on the allocator alone -----

  /** Take `k` single frames. */
  function Singles(f: Frames, k: nat): Option<Frames>
    decreases k
  {
    if k == 0 then Some(f)
    else if Chosen(f, 1).None? then None
    else Singles(Allocate(f, 1).0, k - 1)
  }

  /** Take a new buffer of `grow` frames and release the old one. */
  function Moved(f: Frames, b: Buffer, grow: nat): Frames
  {
    var g := Allocate(f, grow).0;
    if b.NoBuffer? then g else Release(g, b.start, b.pages)
  }

  /** The allocator can serve rounds `i .. n` and the push of the new range: in each round a
      frame for the page, its page tables and, where the page list moves, the new buffer. */
  predicate Serves(f: Frames, list: Buffer, i: nat, n: nat, o: Oracle)
    requires i <= n
    decreases n - i
  {
    if i == n then o.ranges == 0 || Chosen(f, o.ranges).Some?
    else
      var g := Singles(f, 1 + o.tables(i));
      && g.Some?
      && if o.list(i) == 0 then Serves(g.value, list, i + 1, n, o)
         else
           var r := Chosen(g.value, o.list(i));
           && r.Some?
           && Serves(Moved(g.value, list, o.list(i)), Buffer(r.value, o.list(i)), i + 1, n, o)
  }

  /** How a request ends: it is served; the frames run out between two pages; a page's frame is taken
      but the page cannot be mapped; or a list finds no new buffer. */
  datatype Fate = Served | Exhausted | PageLost | Stalled

  /** The end of rounds `i .. n` and the push of the new range, from the allocator and the set of
      mapped pages alone. */
  function FateOf(f: Frames, mapped: set<nat>, list: Buffer, first: nat, i: nat, n: nat, o: Oracle): Fate
    requires i <= n
    decreases n - i
  {
    if i == n then if o.ranges == 0 || Chosen(f, o.ranges).Some? then Served else Stalled
    else if Chosen(f, 1).None? then Exhausted
    else
      var g := Singles(f, 1 + o.tables(i));
      if g.None? || first + i in mapped then PageLost
      else if o.list(i) == 0 then FateOf(g.value, mapped, list, first, i + 1, n, o)
      else
        var r := Chosen(g.value, o.list(i));
        if r.None? then Stalled
        else
          var buffer := Buffer(r.value, o.list(i));
          FateOf(Moved(g.value, list, o.list(i)), mapped, buffer, first, i + 1, n, o)
  }

  lemma {:induction false} TakeTablesIsSingles(c: R.State, k: nat)
    ensures var (d, got) := TakeTables(c, k);
      && (got <==> Singles(c.f, k).Some?) && (got ==> d.f == Singles(c.f, k).value)
    decreases k
  {
    hide Chosen, Run;
    if k > 0 && Chosen(c.f, 1).Some? {
      TakeTablesIsSingles(R.Step(c, R.Take(TABLES, 1)), k - 1);
    }
  }

  /** A mapping call takes its table frames before it looks at the page, and keeps them when it fails;
      it fails for want of tables only when it has taken the last free frame. */
  lemma MapTakesTablesFirst(c: R.State, space: map<nat, nat>, page: nat, need: nat)
    ensures var (d, ok) := MapTo(c, space, page, need);
      var g := Singles(c.f, need);
      && (ok <==> g.Some? && page !in space)
      && (g.Some? ==> d.f == g.value) && (g.None? ==> Chosen(d.f, 1).None?)
  {
    hide Chosen, Run;
    TakeTablesIsSingles(c, need);
    TablesRunOut(c, need);
  }

  lemma {:induction false} TablesRunOut(c: R.State, k: nat)
    ensures !TakeTables(c, k).1 ==> Chosen(TakeTables(c, k).0.f, 1).None?
    decreases k
  {
    hide Chosen, Run;
    if k > 0 && Chosen(c.f, 1).Some? {
      TablesRunOut(R.Step(c, R.Take(TABLES, 1)), k - 1);
    }
  }

  lemma PushIsMoved(c: R.State, b: Buffer, grow: nat)
    requires grow > 0
    ensures var (d, b', pushed) := PushList(c, b, grow);
      var r := Chosen(c.f, grow);
      && (pushed <==> r.Some?) && (pushed ==> d.f == Moved(c.f, b, grow) && b' == Buffer(r.value, grow))
  {
    hide Chosen, Run;
  }

  lemma PeelRun(a: nat, k: nat)
    ensures k == 0 ==> Run(a, k) == {}
    ensures k > 0 ==> Run(a, k) == {a} + Run(a + 1, k - 1)
    ensures a !in Run(a + 1, k)
  {
  }

  lemma FirstOfRound(c: R.State, k: nat)
    ensures Chosen(c.f, 1).None? ==> Singles(c.f, 1 + k).None?
    ensures Chosen(c.f, 1).Some? ==>
      var (d, got) := TakeTables(R.Step(c, R.Take(USER, 1)), k);
      && (got <==> Singles(c.f, 1 + k).Some?) && (got ==> d.f == Singles(c.f, 1 + k).value)
  {
    hide Chosen, Run;
    if Chosen(c.f, 1).Some? {
      TakeTablesIsSingles(R.Step(c, R.Take(USER, 1)), k);
    }
  }

  // ----- The loop ends as the allocator says -----

  /** The end of a loop, given whether the push behind it went through. */
  function EndOf(m: Progress, pushed: bool): Fate
  {
    match m.outcome
    case Mapped => if pushed then Served else Stalled
    case NoFrame => Exhausted
    case NotMapped(_) => PageLost
    case ListFull => Stalled
  }

  /** The same pages of a run are mapped. */
  ghost predicate SameOn(space: map<nat, nat>, mapped: set<nat>, run: set<nat>)
  {
    forall q :: q in run ==> (q in space <==> q in mapped)
  }

  /** The mapping loop and the push of the new range end as the allocator and the mapped pages say. */
  lemma {:induction false} LoopMeetsItsFate(
    c: R.State, space: map<nat, nat>, mapped: set<nat>, list: Buffer, b: Buffer, first: nat, i: nat, n: nat, o: Oracle)
    requires i <= n && SameOn(space, mapped, Run(first + i, n - i))
    ensures var m := MapLoop(c, space, list, first, i, n, o);
      EndOf(m, PushList(m.c, b, o.ranges).2) == FateOf(c.f, mapped, list, first, i, n, o)
    decreases n - i
  {
    hide R.Step, Chosen, Allocate, Moved, TakeTables, Run;
    PeelRun(first + i, n - i);
    if i == n {
      if o.ranges > 0 {
        PushIsMoved(c, b, o.ranges);
      }
    } else {
      PeelRun(first + i, n - i - 1);
      FirstOfRound(c, o.tables(i));
      if Chosen(c.f, 1).Some? {
        var x := Chosen(c.f, 1).value;
        var (c1, ok) := MapTo(R.Step(c, R.Take(USER, 1)), space, first + i, o.tables(i));
        if ok {
          if o.list(i) > 0 {
            PushIsMoved(c1, list, o.list(i));
          }
          var (c2, list', pushed) := PushList(c1, list, o.list(i));
          if pushed {
            LoopMeetsItsFate(c2, space[first + i := x], mapped, list', b, first, i + 1, n, o);
          }
        }
      }
    }
  }

  /** Being served needs unmapped pages and an allocator that can serve them. */
  lemma {:induction false} ServedIff(
    f: Frames, mapped: set<nat>, list: Buffer, first: nat, i: nat, n: nat, o: Oracle)
    requires i <= n
    ensures FateOf(f, mapped, list, first, i, n, o) == Served <==>
      Run(first + i, n - i) !! mapped && Serves(f, list, i, n, o)
    decreases n - i
  {
    hide Chosen, Allocate, Moved, Run;
    PeelRun(first + i, n - i);
    if i < n {
      var g := Singles(f, 1 + o.tables(i));
      if g.Some? {
        var r := Chosen(g.value, o.list(i));
        if o.list(i) == 0 {
          ServedIff(g.value, mapped, list, first, i + 1, n, o);
        } else if r.Some? {
          ServedIff(Moved(g.value, list, o.list(i)), mapped, Buffer(r.value, o.list(i)), first, i + 1, n, o);
        }
      }
    }
  }

  /** The mapping loop and the push of the new range go through exactly when the pages are
      unmapped and the allocator can serve them. */
  lemma CompletesIff(
    c: R.State, space: map<nat, nat>, list: Buffer, b: Buffer, first: nat, i: nat, n: nat, o: Oracle)
    requires i <= n
    ensures var m := MapLoop(c, space, list, first, i, n, o);
      m.outcome.Mapped? && PushList(m.c, b, o.ranges).2 <==>
      Run(first + i, n - i) !! space.Keys && Serves(c.f, list, i, n, o)
  {
    hide MapLoop, PushList, FateOf, Serves, Run;
    LoopMeetsItsFate(c, space, space.Keys, list, b, first, i, n, o);
    ServedIff(c.f, space.Keys, list, first, i, n, o);
  }

  // ----- The calls -----

  /** How `allocate` will end, read off the allocator and the mapped pages before the call. */
  function AllocationFate(f: Frames, p: Proc, size: nat, o: Oracle): Fate
  {
    FateOf(f, p.space.Keys, NoBuffer, HeapTop(p.ranges) / PAGE_SIZE, 0, DivCeil(size, PAGE_SIZE), o)
  }

  /** The four ends of a call with a positive size: an address, -18 with nothing lost, -18 with the
      frame of one page lost, and the stop of the kernel, each exactly when it is the call's fate. */
  lemma AllocateEndsAsFated(c: R.State, p: Proc, size: nat, o: Oracle)
    requires size > 0
    ensures var r := HeapAllocate(c, p, size, o).result;
      var fate, lost := AllocationFate(c.f, p, size, o), Lost(c, p, size, o);
      && (fate == Served <==> r.Code? && r.value >= 0)
      && (fate == Exhausted <==> r == Code(-18) && lost == {})
      && (fate == PageLost <==> r == Code(-18) && |lost| == 1)
      && (fate == Stalled <==> r == Halted)
      && (lost != {} <==> fate == PageLost)
  {
    hide MapLoop, UnmapLoop, PushList, DropList, FateOf, Run;
    LoopMeetsItsFate(
      c, p.space, p.space.Keys, NoBuffer, p.buffer, HeapTop(p.ranges) / PAGE_SIZE, 0, DivCeil(size, PAGE_SIZE), o);
  }

  /** `allocate` succeeds exactly when the size is positive, the pages behind the heap top are
      unmapped and the allocator can serve the pages, their tables and both growing lists. */
  lemma AllocateSucceedsIff(c: R.State, p: Proc, size: nat, o: Oracle)
    ensures var n := DivCeil(size, PAGE_SIZE);
      var r := HeapAllocate(c, p, size, o).result;
      r.Code? && r.value >= 0 <==>
      && size > 0 && Run(HeapTop(p.ranges) / PAGE_SIZE, n) !! p.space.Keys
      && Serves(c.f, NoBuffer, 0, n, o)
  {
    hide MapLoop, UnmapLoop, PushList, DropList, Serves, Run;
    CompletesIff(c, p.space, NoBuffer, p.buffer, HeapTop(p.ranges) / PAGE_SIZE, 0, DivCeil(size, PAGE_SIZE), o);
  }

  // ----- One free run is enough -----

  /** Everything rounds `i .. n` and the last push take, nothing given back. */
  function Total(o: Oracle, i: nat, n: nat): nat
    requires i <= n
    decreases n - i
  {
    if i == n then o.ranges else 1 + o.tables(i) + o.list(i) + Total(o, i + 1, n)
  }

  /** A free run of `d` pages that the search reaches from below: it starts at or behind the search
      position, or the position has passed the end of memory. */
  ghost predicate RunAhead(f: Frames, s: nat, d: nat)
  {
    Fits(f, s, d) && (f.pos <= s || f.maxPage <= f.pos)
  }

  ghost predicate Roomy(f: Frames, d: nat)
  {
    f.Valid() && exists s: nat :: RunAhead(f, s, d)
  }

  /** First fit takes from the front of such a run or from before it. */
  lemma TakeFromRun(f: Frames, d: nat, m: nat)
    requires Roomy(f, d) && 0 < m <= d
    ensures Chosen(f, m).Some? && Roomy(Allocate(f, m).0, d - m)
  {
    var s: nat :| RunAhead(f, s, d);
    PartFits(f, s, d, s, m);
    FirstFitIsLowest(f, f.pos, m);
    if f.pos > s {
      LowestAddressOncePosIsPastTheEnd(f, m);
    }
    var r := Chosen(f, m).value;
    assert r <= s && Fits(f, r, m);
    AllocateKeepsValid(f, m);
    hide Chosen, FirstFit;
    var s' := if s < r + m then r + m else s;
    PartFits(f, s, d, s', d - m);
    var g := Allocate(f, m).0;
    assert Run(r, m) !! Run(s', d - m);
    assert RunAhead(g, s', d - m);
  }

  lemma PartFits(f: Frames, s: nat, d: nat, s': nat, d': nat)
    requires Fits(f, s, d) && s <= s' && s' + d' <= s + d
    ensures Fits(f, s', d')
  {
    assert Run(s', d') <= Run(s, d);
  }

  lemma {:induction false} SinglesFromRun(f: Frames, d: nat, k: nat)
    requires Roomy(f, d) && k <= d
    ensures Singles(f, k).Some? && Roomy(Singles(f, k).value, d - k)
    decreases k
  {
    hide Chosen, Allocate, Roomy;
    if k > 0 {
      TakeFromRun(f, d, 1);
      SinglesFromRun(Allocate(f, 1).0, d - 1, k - 1);
    }
  }

  lemma MovedFromRun(f: Frames, b: Buffer, d: nat, grow: nat)
    requires Roomy(f, d) && 0 < grow <= d
    ensures Chosen(f, grow).Some? && Roomy(Moved(f, b, grow), d - grow)
  {
    hide Chosen, Allocate;
    TakeFromRun(f, d, grow);
    var g := Allocate(f, grow).0;
    if b.Buffer? {
      var s: nat :| RunAhead(g, s, d - grow);
      ReleaseKeepsValid(g, b.start, b.pages);
      assert RunAhead(Release(g, b.start, b.pages), s, d - grow);
    }
  }

  lemma {:induction false} ServesFromRun(f: Frames, list: Buffer, i: nat, n: nat, o: Oracle)
    requires i <= n && Roomy(f, Total(o, i, n))
    ensures Serves(f, list, i, n, o)
    decreases n - i
  {
    hide Chosen, Allocate, Roomy, Moved;
    if i == n {
      if o.ranges > 0 {
        TakeFromRun(f, o.ranges, o.ranges);
      }
    } else {
      SinglesFromRun(f, Total(o, i, n), 1 + o.tables(i));
      var g := Singles(f, 1 + o.tables(i)).value;
      if o.list(i) == 0 {
        ServesFromRun(g, list, i + 1, n, o);
      } else {
        MovedFromRun(g, list, o.list(i) + Total(o, i + 1, n), o.list(i));
        ServesFromRun(
          Moved(g, list, o.list(i)), Buffer(Chosen(g, o.list(i)).value, o.list(i)), i + 1, n, o);
      }
    }
  }

  /** However the lists grow, a free run that holds everything the call takes is enough, provided the
      search reaches it from below. */
  lemma AllocateSucceedsFromOneRun(c: R.State, p: Proc, size: nat, o: Oracle, s: nat)
    requires c.f.Valid() && size > 0
    requires Run(HeapTop(p.ranges) / PAGE_SIZE, DivCeil(size, PAGE_SIZE)) !! p.space.Keys
    requires RunAhead(c.f, s, Total(o, 0, DivCeil(size, PAGE_SIZE)))
    ensures var r := HeapAllocate(c, p, size, o).result; r.Code? && r.value >= 0
  {
    hide HeapAllocate, Serves, Run, RunAhead;
    AllocateSucceedsIff(c, p, size, o);
    ServesFromRun(c.f, NoBuffer, 0, DivCeil(size, PAGE_SIZE), o);
  }

  /** The proviso matters: with the search position inside the run, the page is taken from the middle
      and the four free pages no longer hold a list of three. */
  lemma PositionInsideTheRunExample()
    ensures var f := Frames({0, 1}, 8, 6, 1, 1, 3);
      var o := Oracle(_ => 0, _ => 3, 0);
      f.Valid() && Fits(f, 2, Total(o, 0, 1)) && FateOf(f, {}, NoBuffer, 0, 0, 1, o) == Stalled
  {
    var f := Frames({0, 1}, 8, 6, 1, 1, 3);
    var o := Oracle(_ => 0, _ => 3, 0);
    assert Total(o, 0, 1) == 4;
    assert Run(3, 1) == {3} && Fits(f, 3, 1);
    var g := Allocate(f, 1).0;
    assert g == f.(used := {0, 1, 3}, pos := 4);
    forall s: nat
      ensures !Fits(g, s, 3)
    {
      assert s in Run(s, 3) && s + 1 in Run(s, 3);
    }
    FailsOnlyWhenNothingFits(g, 3);
    hide Chosen;
    assert Singles(f, 1) == Some(g);
  }
}
