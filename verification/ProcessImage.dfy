/** Where process creation puts the pages of an executable's sections. */
module ProcessImage {
  import opened Prelude

  /** The first page of the image, at address 0x200000. */
  const FIRST_PAGE: nat := 0x20_0000 / PAGE_SIZE

  /** A loaded section: its first physical frame and its number of pages. */
  datatype Section = Section(frame: nat, pages: nat)

  /** The loader's page counter before section `s`. */
  function Before(sections: seq<Section>, s: nat): nat
    requires s <= |sections|
  {
    if s == 0 then 0 else Before(sections, s - 1) + sections[s - 1].pages
  }

  /** Page `i` of section `s`: the counter has itself advanced by `i` when `i` is added to it. */
  function PageAt(sections: seq<Section>, s: nat, i: nat): nat
    requires s < |sections|
  {
    FIRST_PAGE + Before(sections, s) + 2 * i
  }

  /** Pages `0 .. i` of section `s` are mapped to its frames, in `after` on top of `space`. */
  ghost predicate Placed(space: map<nat, nat>, after: map<nat, nat>, sections: seq<Section>, s: nat, i: nat)
    requires s <= |sections| && (i > 0 ==> s < |sections|)
  {
    && (forall q :: q in space ==> q in after && after[q] == space[q])
    && (forall t: nat, j: nat :: InLoad(sections, s, i, t, j) ==>
          && PageAt(sections, t, j) in after && after[PageAt(sections, t, j)] == sections[t].frame + j
          && PageAt(sections, t, j) !in space)
    && (forall q :: q in after && q !in space ==>
          exists t: nat, j: nat :: InLoad(sections, s, i, t, j) && PageAt(sections, t, j) == q)
    && (forall t: nat, j: nat, t': nat, j': nat ::
          InLoad(sections, s, i, t, j) && InLoad(sections, s, i, t', j') && (t, j) != (t', j') ==>
          PageAt(sections, t, j) != PageAt(sections, t', j'))
  }

  /** Page `j` of section `t` comes before page `i` of section `s`. */
  predicate InLoad(sections: seq<Section>, s: nat, i: nat, t: nat, j: nat)
  {
    t < |sections| && ((t < s && j < sections[t].pages) || (t == s && j < i))
  }

  /** Two sections get a page in common. */
  predicate Collide(sections: seq<Section>, s: nat, t: nat)
    requires s < t < |sections|
  {
    var gap := Before(sections, t) - Before(sections, s);
    0 < sections[t].pages && gap % 2 == 0 && gap / 2 < sections[s].pages
  }

  ghost predicate Loadable(space: map<nat, nat>, sections: seq<Section>)
  {
    && (forall s, t :: 0 <= s < t < |sections| ==> !Collide(sections, s, t))
    && (forall s: nat, i: nat :: InLoad(sections, |sections|, 0, s, i) ==> PageAt(sections, s, i) !in space)
  }

  lemma {:induction false} BeforeGrows(sections: seq<Section>, s: nat, t: nat)
    requires s < t <= |sections|
    ensures Before(sections, s) + sections[s].pages <= Before(sections, t)
    decreases t
  {
    if s < t - 1 {
      BeforeGrows(sections, s, t - 1);
    }
  }

  /** Pages of two sections coincide exactly when the sections collide. */
  lemma SharedPageIffCollide(sections: seq<Section>, s: nat, t: nat)
    requires s < t < |sections|
    ensures Collide(sections, s, t) <==>
      exists i, j ::
        && 0 <= i < sections[s].pages && 0 <= j < sections[t].pages
        && PageAt(sections, s, i) == PageAt(sections, t, j)
  {
    BeforeGrows(sections, s, t);
    var gap := Before(sections, t) - Before(sections, s);
    if Collide(sections, s, t) {
      assert PageAt(sections, s, gap / 2) == PageAt(sections, t, 0);
    }
  }

  /** The mapping after pages `0 .. i` of section `s`, with all sections before it. */
  function Loaded(space: map<nat, nat>, sections: seq<Section>, s: nat, i: nat): map<nat, nat>
    requires s <= |sections| && (i > 0 ==> s < |sections|)
    decreases s, i
  {
    if i > 0 then Loaded(space, sections, s, i - 1)[PageAt(sections, s, i - 1) := sections[s].frame + (i - 1)]
    else if s > 0 then Loaded(space, sections, s - 1, sections[s - 1].pages)
    else space
  }

  /** Loadable sections end up where `PageAt` says. */
  lemma {:induction false} LoadedIsPlaced(space: map<nat, nat>, sections: seq<Section>, s: nat, i: nat)
    requires Loadable(space, sections) && s <= |sections| && (i > 0 ==> s < |sections| && i <= sections[s].pages)
    ensures Placed(space, Loaded(space, sections, s, i), sections, s, i)
    decreases s, i
  {
    hide Placed, Loadable, PageAt;
    if i > 0 {
      LoadedIsPlaced(space, sections, s, i - 1);
      var before := Loaded(space, sections, s, i - 1);
      if PageAt(sections, s, i - 1) in before {
        AlreadyMapped(space, before, sections, s, i - 1);
      }
      PlaceOne(space, before, sections, s, i - 1);
    } else if s > 0 {
      LoadedIsPlaced(space, sections, s - 1, sections[s - 1].pages);
      SectionDone(space, Loaded(space, sections, s, 0), sections, s - 1);
    } else {
      NothingPlaced(space, sections);
    }
  }

  /** The loading loops: one mapping call per page, stopping with an error at a page that is
      already mapped or when `tables` says that call `k` finds no frame for a page table. They
      succeed exactly for loadable sections with enough tables, and then every page is where
      `PageAt` says. */
  method LoadSections(space: map<nat, nat>, sections: seq<Section>, tables: nat -> bool)
    returns (ok: bool, after: map<nat, nat>)
    ensures ok <==> Loadable(space, sections) && forall k :: 0 <= k < Before(sections, |sections|) ==> tables(k)
    ensures ok ==> after == Loaded(space, sections, |sections|, 0) && Placed(space, after, sections, |sections|, 0)
  {
    hide Placed, Loadable;
    NothingPlaced(space, sections);
    after := space;
    var current := 0;
    for s := 0 to |sections|
      invariant current == Before(sections, s)
      invariant after == Loaded(space, sections, s, 0) && Placed(space, after, sections, s, 0)
      invariant forall k :: 0 <= k < current ==> tables(k)
    {
      for i := 0 to sections[s].pages
        invariant current == Before(sections, s) + i
        invariant after == Loaded(space, sections, s, i) && Placed(space, after, sections, s, i)
        invariant forall k :: 0 <= k < current ==> tables(k)
      {
        var page := FIRST_PAGE + (current + i);
        CountedInAll(sections, s, i);
        if !tables(current) {
          return false, after;
        }
        if page in after {
          AlreadyMapped(space, after, sections, s, i);
          return false, after;
        }
        PlaceOne(space, after, sections, s, i);
        after := after[page := sections[s].frame + i];
        current := current + 1;
      }
      SectionDone(space, after, sections, s);
    }
    AllPlaced(space, after, sections);
    return true, after;
  }

  lemma CountedInAll(sections: seq<Section>, s: nat, i: nat)
    requires s < |sections| && i < sections[s].pages
    ensures Before(sections, s) + i < Before(sections, |sections|)
  {
    BeforeGrows(sections, s, |sections|);
  }

  lemma NothingPlaced(space: map<nat, nat>, sections: seq<Section>)
    ensures Placed(space, space, sections, 0, 0)
  {
  }

  lemma PlaceOne(space: map<nat, nat>, after: map<nat, nat>, sections: seq<Section>, s: nat, i: nat)
    requires s < |sections| && i < sections[s].pages && Placed(space, after, sections, s, i)
    requires PageAt(sections, s, i) !in after
    ensures Placed(space, after[PageAt(sections, s, i) := sections[s].frame + i], sections, s, i + 1)
  {
    hide PageAt;
    var q := PageAt(sections, s, i);
    assert forall t: nat, j: nat ::
      InLoad(sections, s, i + 1, t, j) <==> InLoad(sections, s, i, t, j) || (t == s && j == i);
    assert InLoad(sections, s, i + 1, s, i);
  }

  lemma SectionDone(space: map<nat, nat>, after: map<nat, nat>, sections: seq<Section>, s: nat)
    requires s < |sections| && Placed(space, after, sections, s, sections[s].pages)
    ensures Placed(space, after, sections, s + 1, 0)
  {
    hide PageAt;
    assert forall t: nat, j: nat ::
      InLoad(sections, s + 1, 0, t, j) <==> InLoad(sections, s, sections[s].pages, t, j);
  }

  lemma AlreadyMapped(space: map<nat, nat>, after: map<nat, nat>, sections: seq<Section>, s: nat, i: nat)
    requires s < |sections| && i < sections[s].pages && Placed(space, after, sections, s, i)
    requires PageAt(sections, s, i) in after
    ensures !Loadable(space, sections)
  {
    var q := PageAt(sections, s, i);
    assert InLoad(sections, |sections|, 0, s, i);
    if q !in space {
      var t: nat, j: nat :| InLoad(sections, s, i, t, j) && PageAt(sections, t, j) == q;
      assert t < s;
      SharedPageIffCollide(sections, t, s);
    }
  }

  lemma AllPlaced(space: map<nat, nat>, after: map<nat, nat>, sections: seq<Section>)
    requires Placed(space, after, sections, |sections|, 0)
    ensures Loadable(space, sections)
  {
    forall s, t | 0 <= s < t < |sections|
      ensures !Collide(sections, s, t)
    {
      SharedPageIffCollide(sections, s, t);
      if Collide(sections, s, t) {
        var i, j :|
          && 0 <= i < sections[s].pages && 0 <= j < sections[t].pages
          && PageAt(sections, s, i) == PageAt(sections, t, j);
        assert InLoad(sections, |sections|, 0, s, i) && InLoad(sections, |sections|, 0, t, j);
      }
    }
  }

  // ----- What that means -----

  /** A section lies in consecutive pages exactly when it has at most one page. */
  lemma ContiguousIffOnePage(sections: seq<Section>, s: nat)
    requires s < |sections|
    ensures (forall i :: 0 < i < sections[s].pages ==> PageAt(sections, s, i) == PageAt(sections, s, i - 1) + 1)
       <==> sections[s].pages <= 1
  {
    if sections[s].pages > 1 {
      assert PageAt(sections, s, 1) == PageAt(sections, s, 0) + 2;
    }
  }

  /** Two sections can be loaded together exactly when one is empty or the first has an odd
      number of pages. */
  lemma TwoSectionsLoadIff(a: Section, b: Section)
    ensures Loadable(map[], [a, b]) <==> a.pages == 0 || b.pages == 0 || a.pages % 2 == 1
  {
    assert Before([a, b], 1) == a.pages;
    assert Collide([a, b], 0, 1) <==> 0 < b.pages && a.pages % 2 == 0 && a.pages / 2 < a.pages;
  }
}
