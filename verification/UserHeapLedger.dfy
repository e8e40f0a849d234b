/** What the parts of the heap system call do to the frame ledger. */
module UserHeapLedger {
  import opened FrameSpec
  import opened UserHeapSpec
  import R = FrameRuns

  /** The frames a client holds. */
  function Kind(c: R.State, who: nat): set<nat>
  {
    set x | x in c.owner && c.owner[x] == who
  }

  /** Every held frame is marked used. */
  ghost predicate HeldIsUsed(c: R.State)
  {
    c.owner.Keys <= c.f.used
  }

  /** The used frames other than those of a list that may be moved or dropped. */
  function Fixed(c: R.State, b: Buffer): set<nat>
  {
    c.f.used - b.Pages()
  }

  /** Frames get stuck only when a release is refused. */
  ghost predicate StuckIsRefused(c: R.State, d: R.State)
  {
    c.refusals <= d.refusals && (c.refusals == d.refusals ==> c.stuck == d.stuck)
  }

  /** From `c` to `d` the list moved from buffer `b` to `b'`, and `USER` gained exactly the frames
      `mine`. Apart from `b` nobody lost a frame; what was gained was not in fixed use; only page
      tables gained anything else; a frame got stuck only if it was not in fixed use. */
  ghost predicate Grows(c: R.State, b: Buffer, d: R.State, b': Buffer, mine: set<nat>)
  {
    && b.Pages() <= Kind(c, LISTS)
    && (forall x :: x in c.owner && x !in b.Pages() ==> x in d.owner && d.owner[x] == c.owner[x])
    && (forall x :: x in d.owner && (x !in c.owner || x in b.Pages()) ==> d.owner[x] in {USER, TABLES, LISTS})
    && Kind(d, USER) == Kind(c, USER) + mine
    && Kind(d, LISTS) == Kind(c, LISTS) - b.Pages() + b'.Pages()
    && mine !! Fixed(c, b) && b'.Pages() !! Fixed(c, b)
    && Fixed(c, b) <= d.f.used
    && c.stuck <= d.stuck && (forall x :: x in d.stuck && x !in c.stuck ==> x !in Fixed(c, b))
    && d.f.Base() == c.f.Base() && StuckIsRefused(c, d)
  }

  lemma GrowsTransitive(
    c: R.State, b: Buffer, d: R.State, b': Buffer, e: R.State, b'': Buffer, mine: set<nat>, more: set<nat>)
    requires HeldIsUsed(c) && Grows(c, b, d, b', mine) && Grows(d, b', e, b'', more)
    ensures Grows(c, b, e, b'', mine + more)
  {
    FixedStays(c, b, d, b', mine);
    hide Fixed, HeldIsUsed;
    forall x | x in c.owner && x !in b.Pages()
      ensures x in e.owner && e.owner[x] == c.owner[x]
    {
      HeldIsFixed(c, b, x);
    }
    forall x | x in e.owner && (x !in c.owner || x in b.Pages())
      ensures e.owner[x] in {USER, TABLES, LISTS}
    {
      if x in d.owner && x !in b'.Pages() {
        assert e.owner[x] == d.owner[x];
      }
    }
    assert Kind(c, LISTS) - b.Pages() !! b'.Pages() by {
      forall x | x in Kind(c, LISTS) - b.Pages()
        ensures x !in b'.Pages()
      {
        HeldIsFixed(c, b, x);
      }
    }
  }

  lemma HeldIsFixed(c: R.State, b: Buffer, x: nat)
    requires HeldIsUsed(c) && x in c.owner && x !in b.Pages()
    ensures x in Fixed(c, b)
  {
  }

  lemma FixedStays(c: R.State, b: Buffer, d: R.State, b': Buffer, mine: set<nat>)
    requires Grows(c, b, d, b', mine)
    ensures Fixed(c, b) <= Fixed(d, b')
  {
  }

  // ----- Single steps -----

  lemma TakeRun(c: R.State, who: nat, n: nat)
    requires HeldIsUsed(c) && Chosen(c.f, n).Some?
    ensures var d := R.Step(c, R.Take(who, n));
      var run := Run(Chosen(c.f, n).value, n);
      && HeldIsUsed(d) && run !! c.f.used
      && d.owner == c.owner + R.Owned(run, who) && d.f.used == c.f.used + run
      && d.stuck == c.stuck && d.refusals == c.refusals && d.f.Base() == c.f.Base()
  {
    FirstFitIsLowest(c.f, c.f.pos, n);
    FirstFitIsLowest(c.f, c.f.reserved, n);
  }

  /** Taking frames for page tables or for a heap page. */
  lemma TakeGrows(c: R.State, b: Buffer, who: nat, n: nat)
    requires HeldIsUsed(c) && Chosen(c.f, n).Some? && who in {USER, TABLES} && b.Pages() <= Kind(c, LISTS)
    ensures var d := R.Step(c, R.Take(who, n));
      var run := Run(Chosen(c.f, n).value, n);
      HeldIsUsed(d) && Grows(c, b, d, b, if who == USER then run else {})
  {
    TakeRun(c, who, n);
    hide R.Step, Chosen, Run, Buffer.Pages;
  }

  lemma GiveRun(c: R.State, who: nat, p: nat, n: nat)
    requires HeldIsUsed(c)
    ensures var d := R.Step(c, R.Give(who, p, n));
      && HeldIsUsed(d) && d.owner == c.owner - Run(p, n) && d.f.Base() == c.f.Base()
      && c.f.used - Run(p, n) <= d.f.used
      && c.stuck <= d.stuck <= c.stuck + Run(p, n)
      && StuckIsRefused(c, d)
  {
  }

  lemma DropGrows(c: R.State, b: Buffer)
    requires HeldIsUsed(c) && b.Pages() <= Kind(c, LISTS)
    ensures HeldIsUsed(DropList(c, b)) && Grows(c, b, DropList(c, b), NoBuffer, {})
  {
    if b.Buffer? {
      GiveRun(c, LISTS, b.start, b.pages);
      hide R.Step, Run;
    }
  }

  /** A push moves the list, or leaves everything as it is. */
  lemma PushGrows(c: R.State, b: Buffer, grow: nat)
    requires HeldIsUsed(c) && b.Pages() <= Kind(c, LISTS)
    ensures var (d, b', _) := PushList(c, b, grow);
      HeldIsUsed(d) && Grows(c, b, d, b', {})
  {
    if grow > 0 && Chosen(c.f, grow).Some? {
      TakeRun(c, LISTS, grow);
      var d := R.Step(c, R.Take(LISTS, grow));
      var b' := Buffer(Chosen(c.f, grow).value, grow);
      hide R.Step, Chosen, Run;
      DropGrows(d, b);
      MovedList(c, d, DropList(d, b), b, b');
    }
  }

  lemma MovedList(c: R.State, d: R.State, e: R.State, b: Buffer, b': Buffer)
    requires HeldIsUsed(c) && b.Pages() <= Kind(c, LISTS) && b'.Pages() !! c.f.used
    requires d.owner == c.owner + R.Owned(b'.Pages(), LISTS) && d.f.used == c.f.used + b'.Pages()
    requires d.stuck == c.stuck && d.refusals == c.refusals && d.f.Base() == c.f.Base()
    requires Grows(d, b, e, NoBuffer, {})
    ensures Grows(c, b, e, b', {})
  {
    hide Run;
    KindsAfterTake(c, d, b'.Pages());
    forall x | x in e.owner && (x !in c.owner || x in b.Pages())
      ensures e.owner[x] in {USER, TABLES, LISTS}
    {
      if x in b'.Pages() {
        assert d.owner[x] == LISTS;
      }
    }
    hide Kind;
    assert NoBuffer.Pages() == {};
  }

  lemma KindsAfterTake(c: R.State, d: R.State, run: set<nat>)
    requires HeldIsUsed(c) && run !! c.f.used && d.owner == c.owner + R.Owned(run, LISTS)
    ensures Kind(d, LISTS) == Kind(c, LISTS) + run && Kind(d, USER) == Kind(c, USER)
  {
  }

  lemma {:induction false} TakeTablesGrows(c: R.State, b: Buffer, k: nat)
    requires HeldIsUsed(c) && b.Pages() <= Kind(c, LISTS)
    ensures HeldIsUsed(TakeTables(c, k).0) && Grows(c, b, TakeTables(c, k).0, b, {})
    decreases k
  {
    hide R.Step, Chosen, Buffer.Pages, HeldIsUsed, Grows;
    if k > 0 && Chosen(c.f, 1).Some? {
      var d := R.Step(c, R.Take(TABLES, 1));
      TakeGrows(c, b, TABLES, 1);
      GrowsHolds(c, b, d, b, {});
      TakeTablesGrows(d, b, k - 1);
      GrowsTransitive(c, b, d, b, TakeTables(c, k).0, b, {}, {});
      var none: set<nat> := {};
      assert none + none == none;
    } else {
      GrowsReflexive(c, b);
    }
  }

  lemma GrowsReflexive(c: R.State, b: Buffer)
    requires b.Pages() <= Kind(c, LISTS)
    ensures Grows(c, b, c, b, {})
  {
  }

  lemma GrowsHolds(c: R.State, b: Buffer, d: R.State, b': Buffer, mine: set<nat>)
    requires Grows(c, b, d, b', mine)
    ensures b'.Pages() <= Kind(d, LISTS)
  {
  }

  // ----- The mapping loop -----

  /** The frames that back a set of pages. */
  function Backing(space: map<nat, nat>, pages: set<nat>): set<nat>
  {
    set q | q in pages && q in space :: space[q]
  }

  /** Distinct pages of `pages` are backed by distinct frames. */
  ghost predicate Injective(space: map<nat, nat>, pages: set<nat>)
  {
    forall q, q' :: q in pages && q' in pages && q in space && q' in space && q != q' ==> space[q] != space[q']
  }

  /** The frame a failed `map_to` leaves behind. */
  function Leaf(o: Outcome): set<nat>
  {
    if o.NotMapped? then {o.leaf} else {}
  }

  /** A mapping loop that started with mapping `space` and list buffer `b` has mapped the `k` pages
      from `a` on, one by one, to frames that were not in fixed use. */
  ghost predicate MapsFreshly(c: R.State, space: map<nat, nat>, b: Buffer, a: nat, k: nat, m: Progress)
  {
    && m.space.Keys == space.Keys + Run(a, k) && space.Keys !! Run(a, k)
    && (forall q :: q in space ==> m.space[q] == space[q])
    && Injective(m.space, Run(a, k))
    && Grows(c, b, m.c, m.list, Backing(m.space, Run(a, k)) + Leaf(m.outcome))
    && Leaf(m.outcome) !! Backing(m.space, Run(a, k))
  }

  /** One round takes one frame for the page. */
  lemma MapRound(c: R.State, b: Buffer, space: map<nat, nat>, page: nat, need: nat)
    requires HeldIsUsed(c) && Chosen(c.f, 1).Some? && b.Pages() <= Kind(c, LISTS)
    ensures var d := MapTo(R.Step(c, R.Take(USER, 1)), space, page, need).0;
      HeldIsUsed(d) && Grows(c, b, d, b, {Chosen(c.f, 1).value})
  {
    hide R.Step, Chosen, Buffer.Pages, HeldIsUsed, Grows, TakeTables;
    var x := Chosen(c.f, 1).value;
    var d := R.Step(c, R.Take(USER, 1));
    TakeGrows(c, b, USER, 1);
    assert Run(x, 1) == {x};
    GrowsHolds(c, b, d, b, {x});
    TakeTablesGrows(d, b, need);
    GrowsTransitive(c, b, d, b, TakeTables(d, need).0, b, {x}, {});
    assert {x} + {} == {x};
  }

  lemma NoPageYet(c: R.State, b: Buffer, space: map<nat, nat>, a: nat, m: Progress)
    requires m.space == space && Grows(c, b, m.c, m.list, Leaf(m.outcome))
    ensures MapsFreshly(c, space, b, a, 0, m)
  {
    hide Grows;
    assert Run(a, 0) == {};
    assert Backing(m.space, {}) + Leaf(m.outcome) == Leaf(m.outcome);
  }

  /** One more page in front of a run that was mapped freshly. */
  lemma PrependPage(
    c: R.State, b: Buffer, c1: R.State, b1: Buffer, space: map<nat, nat>, a: nat, x: nat, k: nat, m: Progress)
    requires HeldIsUsed(c) && HeldIsUsed(c1) && a !in space && Grows(c, b, c1, b1, {x})
    requires MapsFreshly(c1, space[a := x], b1, a + 1, k, m)
    ensures MapsFreshly(c, space, b, a, k + 1, m)
  {
    hide Grows, Run, HeldIsUsed;
    var rest := Run(a + 1, k);
    RunSplits(a, k);
    NewFrameDiffers(c, b, c1, b1, x, m.c, m.list, Backing(m.space, rest) + Leaf(m.outcome));
    GrowsTransitive(c, b, c1, b1, m.c, m.list, {x}, Backing(m.space, rest) + Leaf(m.outcome));
    assert Backing(m.space, Run(a, k + 1)) == {x} + Backing(m.space, rest);
    assert {x} + (Backing(m.space, rest) + Leaf(m.outcome)) == Backing(m.space, Run(a, k + 1)) + Leaf(m.outcome);
    forall q | q in rest
      ensures m.space[q] != x
    {
      assert m.space[q] in Backing(m.space, rest);
    }
  }

  lemma RunSplits(a: nat, k: nat)
    ensures Run(a, k + 1) == {a} + Run(a + 1, k) && a !in Run(a + 1, k)
  {
  }

  /** Frames gained later are not the one gained first. */
  lemma NewFrameDiffers(
    c: R.State, b: Buffer, c1: R.State, b1: Buffer, x: nat, d: R.State, b2: Buffer, more: set<nat>)
    requires HeldIsUsed(c1) && Grows(c, b, c1, b1, {x}) && Grows(c1, b1, d, b2, more)
    ensures x !in more
  {
    assert x in Kind(c1, USER) && x !in b1.Pages();
    HeldIsFixed(c1, b1, x);
  }

  /** The mapping loop maps exactly the pages it counts, to frames nobody held. */
  lemma {:induction false} MapLoopEffect(
    c: R.State, space: map<nat, nat>, b: Buffer, first: nat, i: nat, n: nat, o: Oracle)
    requires HeldIsUsed(c) && i <= n && b.Pages() <= Kind(c, LISTS)
    ensures var m := MapLoop(c, space, b, first, i, n, o);
      && HeldIsUsed(m.c)
      && i <= m.count <= n && (m.outcome.Mapped? ==> m.count == n)
      && MapsFreshly(c, space, b, first + i, m.count - i, m)
    decreases n - i
  {
    hide R.Step, Chosen, TakeTables, PushList, HeldIsUsed, Grows, MapsFreshly, Buffer.Pages;
    var m := MapLoop(c, space, b, first, i, n, o);
    if i == n || Chosen(c.f, 1).None? {
      GrowsReflexive(c, b);
      NoPageYet(c, b, space, first + i, m);
    } else {
      MapRound(c, b, space, first + i, o.tables(i));
      var x := Chosen(c.f, 1).value;
      var (c1, ok) := MapTo(R.Step(c, R.Take(USER, 1)), space, first + i, o.tables(i));
      if ok {
        GrowsHolds(c, b, c1, b, {x});
        PushGrows(c1, b, o.list(i));
        var (c2, b', pushed) := PushList(c1, b, o.list(i));
        GrowsTransitive(c, b, c1, b, c2, b', {x}, {});
        assert {x} + {} == {x};
        GrowsHolds(c, b, c2, b', {x});
        if pushed {
          MapLoopEffect(c2, space[first + i := x], b', first, i + 1, n, o);
          PrependPage(c, b, c2, b', space, first + i, x, m.count - i - 1, m);
        } else {
          GrowsReflexive(c2, b');
          NoPageYet(c2, b', space[first + i := x], first + i + 1, m);
          PrependPage(c, b, c2, b', space, first + i, x, 0, m);
        }
      } else {
        NoPageYet(c, b, space, first + i, m);
      }
    }
  }

  // ----- The ledger invariant -----

  lemma {:induction false} TakeTablesKeepsInv(f0: Frames, c: R.State, k: nat)
    requires f0.Valid() && R.Inv(f0, c)
    ensures R.Inv(f0, TakeTables(c, k).0)
    decreases k
  {
    hide R.Step, R.Inv, Chosen;
    if k > 0 && Chosen(c.f, 1).Some? {
      R.TakeKeepsInv(f0, c, TABLES, 1);
      TakeTablesKeepsInv(f0, R.Step(c, R.Take(TABLES, 1)), k - 1);
    }
  }

  lemma InvHeldIsUsed(f0: Frames, c: R.State)
    requires R.Inv(f0, c)
    ensures HeldIsUsed(c)
  {
  }

  lemma SameBase(f0: Frames, c: R.State, d: R.State)
    requires R.Inv(f0, c) && R.Inv(f0, d)
    ensures c.f.Base() == d.f.Base() == f0.Base()
  {
  }

  lemma DropKeepsInv(f0: Frames, c: R.State, b: Buffer)
    requires f0.Valid() && R.Inv(f0, c) && b.Pages() <= Kind(c, LISTS)
    ensures R.Inv(f0, DropList(c, b))
  {
    hide R.Step, R.Inv;
    if b.Buffer? {
      R.GiveKeepsInv(f0, c, LISTS, b.start, b.pages);
    }
  }

  lemma PushKeepsInv(f0: Frames, c: R.State, b: Buffer, grow: nat)
    requires f0.Valid() && R.Inv(f0, c) && b.Pages() <= Kind(c, LISTS)
    ensures R.Inv(f0, PushList(c, b, grow).0)
  {
    if grow > 0 && Chosen(c.f, grow).Some? {
      R.TakeKeepsInv(f0, c, LISTS, grow);
      InvHeldIsUsed(f0, c);
      TakeRun(c, LISTS, grow);
      var d := R.Step(c, R.Take(LISTS, grow));
      hide R.Step, R.Inv, Chosen, Run;
      assert b.Pages() <= Kind(d, LISTS);
      DropKeepsInv(f0, d, b);
    }
  }

  lemma {:induction false} MapLoopKeepsInv(
    f0: Frames, c: R.State, space: map<nat, nat>, b: Buffer, first: nat, i: nat, n: nat, o: Oracle)
    requires f0.Valid() && R.Inv(f0, c) && i <= n && b.Pages() <= Kind(c, LISTS)
    ensures R.Inv(f0, MapLoop(c, space, b, first, i, n, o).c)
    decreases n - i
  {
    hide R.Step, R.Inv, Chosen, TakeTables, PushList, HeldIsUsed, Grows, Buffer.Pages;
    if i < n && Chosen(c.f, 1).Some? {
      var x := Chosen(c.f, 1).value;
      InvHeldIsUsed(f0, c);
      MapRound(c, b, space, first + i, o.tables(i));
      R.TakeKeepsInv(f0, c, USER, 1);
      TakeTablesKeepsInv(f0, R.Step(c, R.Take(USER, 1)), o.tables(i));
      var (c1, ok) := MapTo(R.Step(c, R.Take(USER, 1)), space, first + i, o.tables(i));
      if ok {
        GrowsHolds(c, b, c1, b, {x});
        PushGrows(c1, b, o.list(i));
        PushKeepsInv(f0, c1, b, o.list(i));
        var (c2, b', pushed) := PushList(c1, b, o.list(i));
        GrowsHolds(c1, b, c2, b', {});
        if pushed {
          MapLoopKeepsInv(f0, c2, space[first + i := x], b', first, i + 1, n, o);
        }
      }
    }
  }

  // ----- The unmapping loop -----

  /** From `c` to `d` exactly the frames `gone` lost their holder; only the first
      allocatable frame is withheld by the allocator. */
  ghost predicate GivesBack(c: R.State, d: R.State, gone: set<nat>)
  {
    && d.owner == c.owner - gone
    && d.f.Base() == c.f.Base()
    && d.stuck == c.stuck + (if c.f.Base() in gone then {c.f.Base()} else {})
    && StuckIsRefused(c, d)
  }

  /** Giving back one heap frame. */
  lemma GiveOne(c: R.State, x: nat)
    requires c.f.Base() <= x
    ensures GivesBack(c, R.Step(c, R.Give(USER, x, 1)), {x})
  {
    assert Run(x, 1) == {x};
  }

  lemma GiveOneKeepsInv(f0: Frames, c: R.State, x: nat)
    requires f0.Valid() && R.Inv(f0, c) && x in Kind(c, USER)
    ensures R.Inv(f0, R.Step(c, R.Give(USER, x, 1)))
  {
    assert Run(x, 1) == {x};
    R.GiveKeepsInv(f0, c, USER, x, 1);
  }

  lemma GivesBackTransitive(c: R.State, d: R.State, e: R.State, a: set<nat>, b: set<nat>)
    requires GivesBack(c, d, a) && GivesBack(d, e, b)
    ensures GivesBack(c, e, a + b)
  {
    assert c.owner - a - b == c.owner - (a + b);
  }

  /** `pages` are mapped to distinct frames that are held for heap pages. */
  ghost predicate Held(c: R.State, space: map<nat, nat>, pages: set<nat>)
  {
    && pages <= space.Keys
    && Injective(space, pages)
    && (forall q :: q in pages ==> space[q] in Kind(c, USER) && c.f.Base() <= space[q])
  }

  /** One round of the unmapping loop peels the first page off a held run. */
  lemma UnmapRound(c: R.State, space: map<nat, nat>, a: nat, k: nat)
    requires Held(c, space, Run(a, k + 1))
    ensures a in space && space[a] in Kind(c, USER)
    ensures var d := R.Step(c, R.Give(USER, space[a], 1));
      && GivesBack(c, d, {space[a]})
      && Held(d, space - {a}, Run(a + 1, k))
    ensures Backing(space, Run(a, k + 1)) == {space[a]} + Backing(space - {a}, Run(a + 1, k))
    ensures space - {a} - Run(a + 1, k) == space - Run(a, k + 1)
  {
    RunSplits(a, k);
    GiveOne(c, space[a]);
    hide R.Step, Run;
  }

  lemma GivesBackNothing(c: R.State, space: map<nat, nat>, a: nat)
    ensures Run(a, 0) == {} && space - Run(a, 0) == space && GivesBack(c, c, Backing(space, Run(a, 0)))
  {
    assert Run(a, 0) == {} && c.owner - {} == c.owner;
  }

  /** Unmapping a held run removes exactly its pages and gives back exactly their frames. */
  lemma {:induction false} UnmapLoopEffect(c: R.State, space: map<nat, nat>, first: nat, k: nat, n: nat)
    requires k <= n && Held(c, space, Run(first + k, n - k))
    ensures var (d, space') := UnmapLoop(c, space, first, k, n);
      && space' == space - Run(first + k, n - k)
      && GivesBack(c, d, Backing(space, Run(first + k, n - k)))
    decreases n - k
  {
    hide R.Step, GivesBack, Kind, Injective, Run, Backing;
    if k == n {
      GivesBackNothing(c, space, first + k);
    } else {
      var q := first + k;
      UnmapRound(c, space, q, n - k - 1);
      var c1 := R.Step(c, R.Give(USER, space[q], 1));
      UnmapLoopEffect(c1, space - {q}, first, k + 1, n);
      GivesBackTransitive(
        c, c1, UnmapLoop(c, space, first, k, n).0, {space[q]}, Backing(space - {q}, Run(q + 1, n - k - 1)));
    }
  }

  lemma {:induction false} UnmapLoopKeepsInv(
    f0: Frames, c: R.State, space: map<nat, nat>, first: nat, k: nat, n: nat)
    requires f0.Valid() && R.Inv(f0, c)
    requires k <= n && Held(c, space, Run(first + k, n - k))
    ensures R.Inv(f0, UnmapLoop(c, space, first, k, n).0)
    decreases n - k
  {
    hide R.Step, R.Inv, GivesBack, Held, Backing, Run, Kind;
    if k < n {
      var q := first + k;
      UnmapRound(c, space, q, n - k - 1);
      GiveOneKeepsInv(f0, c, space[q]);
      UnmapLoopKeepsInv(f0, R.Step(c, R.Give(USER, space[q], 1)), space - {q}, first, k + 1, n);
    }
  }
}
