/** Whole runs of the frame allocator under any number of clients that give back
    only pages they hold. */
module FrameRuns {
  import opened FrameSpec

  datatype Event =
    | Take(who: nat, n: nat)
    | Give(who: nat, p: nat, n: nat)

  /** `owner` says who holds each handed-out page, `stuck` are the pages of refused
      releases, `issued` counts the pages ever handed out. */
  datatype State = State(f: Frames, owner: map<nat, nat>, stuck: set<nat>, issued: nat, refusals: nat)

  function Start(f: Frames): State
  {
    State(f, map[], {}, 0, 0)
  }

  /** A client gives back pages it holds, in any portions. */
  ghost predicate Enabled(s: State, e: Event)
  {
    e.Give? ==> forall p :: p in Run(e.p, e.n) ==> p in s.owner && s.owner[p] == e.who
  }

  function Owned(r: set<nat>, who: nat): map<nat, nat>
  {
    map p | p in r :: who
  }

  function Step(s: State, e: Event): State
  {
    match e
    case Take(who, n) =>
      var (g, r) := Allocate(s.f, n);
      if r.None? then s
      else s.(f := g, owner := s.owner + Owned(Run(r.value, n), who), issued := s.issued + n)
    case Give(who, p, n) =>
      var refused := p <= s.f.Base() && n > 0;
      s.(f := Release(s.f, p, n),
      owner := s.owner - Run(p, n),
      stuck := if refused then s.stuck + Run(p, n) else s.stuck,
      refusals := if refused then s.refusals + 1 else s.refusals)
  }

  function Exec(s: State, es: seq<Event>): State
    decreases |es|
  {
    if es == [] then s else Exec(Step(s, es[0]), es[1..])
  }

  ghost predicate WellBehaved(s: State, es: seq<Event>)
    decreases |es|
  {
    es == [] || (Enabled(s, es[0]) && WellBehaved(Step(s, es[0]), es[1..]))
  }

  /** Same memory size, same kernel pages, same bitmap pages. */
  ghost predicate SameLayout(f: Frames, g: Frames)
  {
    f.cap == g.cap && f.maxPage == g.maxPage && f.reserved == g.reserved && f.selfUsed == g.selfUsed
  }

  /** Every used page has exactly one reason to be used. */
  ghost predicate Inv(f0: Frames, s: State)
  {
    && s.f.Valid() && SameLayout(f0, s.f)
    && f0.used !! s.owner.Keys && f0.used !! s.stuck && s.owner.Keys !! s.stuck
    && s.f.used == f0.used + s.owner.Keys + s.stuck
    && (forall p :: p in s.owner || p in s.stuck ==> f0.Base() <= p < f0.maxPage)
    && s.f.pos == f0.pos + s.issued
    && s.refusals <= 1
    && (s.refusals == 0 ==> s.stuck == {})
    && (s.refusals == 1 ==> exists n: nat :: n > 0 && s.stuck == Run(f0.Base(), n))
  }

  /** What a successful `Take` hands out belonged to nobody. */
  lemma HandsOutOnlyFreePages(f0: Frames, s: State, n: nat)
    requires f0.Valid() && Inv(f0, s)
    ensures var r := Allocate(s.f, n).1;
      r.Some? ==>
        && Run(r.value, n) !! s.owner.Keys + s.stuck + f0.used
        && (forall p :: p in Run(r.value, n) ==> f0.Base() <= p < f0.maxPage)
  {
    ChosenIsFirstFit(s.f, n);
    if n > 0 {
      FailsOnlyWhenNothingFits(s.f, n);
    }
  }

  lemma TakeKeepsInv(f0: Frames, s: State, who: nat, n: nat)
    requires f0.Valid() && Inv(f0, s)
    ensures Inv(f0, Step(s, Take(who, n)))
  {
    HandsOutOnlyFreePages(f0, s, n);
    AllocateKeepsValid(s.f, n);
    var (g, r) := Allocate(s.f, n);
    if r.Some? {
      assert (s.owner + Owned(Run(r.value, n), who)).Keys == s.owner.Keys + Run(r.value, n);
    }
  }

  lemma GiveKeepsInv(f0: Frames, s: State, who: nat, p: nat, n: nat)
    requires f0.Valid() && Inv(f0, s) && Enabled(s, Give(who, p, n))
    ensures Inv(f0, Step(s, Give(who, p, n)))
  {
    if n == 0 {
      assert Run(p, n) == {};
    } else {
      assert p in Run(p, n);
      if p <= f0.Base() {
        assert forall m: nat :: m > 0 ==> f0.Base() in Run(f0.Base(), m);
        assert s.stuck == {};
        assert s.stuck + Run(p, n) == Run(f0.Base(), n);
      }
    }
  }

  lemma {:induction false} RunKeepsInv(f0: Frames, s: State, es: seq<Event>)
    requires f0.Valid() && Inv(f0, s) && WellBehaved(s, es)
    ensures Inv(f0, Exec(s, es))
    decreases |es|
  {
    if es != [] {
      match es[0]
      case Take(who, n) =>
        TakeKeepsInv(f0, s, who, n);
        RunKeepsInv(f0, Step(s, es[0]), es[1..]);
      case Give(who, p, n) =>
        GiveKeepsInv(f0, s, who, p, n);
        RunKeepsInv(f0, Step(s, es[0]), es[1..]);
    }
  }

  /** Safety over every run: held pages lie above the kernel's and the bitmap's pages,
      those are never cleared, and nothing is used without a holder or a reason. */
  lemma EveryRunIsSafe(f0: Frames, es: seq<Event>)
    requires f0.Valid() && WellBehaved(Start(f0), es)
    ensures Inv(f0, Exec(Start(f0), es))
    ensures var s := Exec(Start(f0), es);
      && (forall p: nat :: p < f0.Base() && p < f0.cap ==> p in s.f.used && p !in s.owner)
      && (forall p: nat :: p < f0.maxPage && p !in s.f.used ==> p !in s.owner && p !in f0.used)
  {
    RunKeepsInv(f0, Start(f0), es);
  }

  /** Conservation: used pages are the initial ones, the held ones and at most one
      refused run; once everybody has given everything back only that run is missing. */
  lemma FramesAreConserved(f0: Frames, es: seq<Event>)
    requires f0.Valid() && WellBehaved(Start(f0), es)
    ensures var s := Exec(Start(f0), es);
      && |s.f.used| == |f0.used| + |s.owner| + |s.stuck|
      && s.refusals <= 1
      && (s.refusals == 0 ==> |s.stuck| == 0)
      && (s.owner == map[] ==> s.f.used - Run(f0.Base(), |s.stuck|) == f0.used)
      && s.f.pos == f0.pos + s.issued
  {
    EveryRunIsSafe(f0, es);
    var s := Exec(Start(f0), es);
    assert |s.owner.Keys| == |s.owner|;
    assert |f0.used + s.owner.Keys + s.stuck| == |f0.used| + |s.owner.Keys| + |s.stuck|;
    if s.refusals == 1 {
      var n: nat :| n > 0 && s.stuck == Run(f0.Base(), n);
      RunSize(f0.Base(), n);
    } else {
      assert Run(f0.Base(), 0) == {};
    }
  }

  lemma {:induction false} RunSize(s: nat, n: nat)
    ensures |Run(s, n)| == n
  {
    if n == 0 {
      assert Run(s, n) == {};
    } else {
      RunSize(s, n - 1);
      assert Run(s, n) == Run(s, n - 1) + {s + n - 1};
    }
  }

  lemma {:induction false} ExecConcat(s: State, es: seq<Event>, later: seq<Event>)
    ensures Exec(s, es + later) == Exec(Exec(s, es), later)
    ensures WellBehaved(s, es + later) <==> WellBehaved(s, es) && WellBehaved(Exec(s, es), later)
    decreases |es|
  {
    if es == [] {
      assert es + later == later;
    } else {
      assert (es + later)[1..] == es[1..] + later;
      ExecConcat(Step(s, es[0]), es[1..], later);
    }
  }

  lemma {:induction false} PosNeverDecreases(s: State, es: seq<Event>)
    ensures s.f.pos <= Exec(s, es).f.pos && s.f.maxPage == Exec(s, es).f.maxPage
    decreases |es|
  {
    if es != [] {
      PosNeverDecreases(Step(s, es[0]), es[1..]);
    }
  }

  /** Once the search position has run past memory, every later non-empty request of the
      run is served lowest address first. */
  lemma LowestFitForTheRestOfTheRun(f0: Frames, es: seq<Event>, later: seq<Event>, n: nat)
    requires f0.Valid() && WellBehaved(Start(f0), es + later) && 0 < n
    requires f0.pos + Exec(Start(f0), es).issued >= f0.maxPage
    ensures var f := Exec(Start(f0), es + later).f;
      IsLowestFit(f, 0, n, Chosen(f, n))
  {
    ExecConcat(Start(f0), es, later);
    EveryRunIsSafe(f0, es);
    EveryRunIsSafe(f0, es + later);
    PosNeverDecreases(Exec(Start(f0), es), later);
    LowestAddressOncePosIsPastTheEnd(Exec(Start(f0), es + later).f, n);
  }
}
