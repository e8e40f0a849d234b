/** The frames behind a new process: its stack and the sections of its executable. */
module UserHeapImages {
  import opened FrameSpec
  import opened ProcessImage
  import opened UserHeapLedger
  import opened UserHeapSpec

  /** The frames of one run that was taken for an image. */
  function SectionRun(s: Section): set<nat>
  {
    Run(s.frame, s.pages)
  }

  function SectionFrames(sections: seq<Section>): set<nat>
  {
    set t, x | 0 <= t < |sections| && x in SectionRun(sections[t]) :: x
  }

  /** The two stack pages. */
  function StackMap(stack: Section): map<nat, nat>
  {
    map[STACK_PAGE := stack.frame, STACK_PAGE + 1 := stack.frame + 1]
  }

  /** What is mapped when a process is created: the stack, then the sections. */
  function ImageOf(stack: Section, sections: seq<Section>): map<nat, nat>
  {
    Loaded(StackMap(stack), sections, |sections|, 0)
  }

  /** No frame is in two of the runs. */
  ghost predicate Apart(stack: Section, sections: seq<Section>)
  {
    && (forall t :: 0 <= t < |sections| ==> SectionRun(sections[t]) !! SectionRun(stack))
    && (forall s, t :: 0 <= s < t < |sections| ==> SectionRun(sections[s]) !! SectionRun(sections[t]))
  }

  /** The stack and the sections end up behind the pages of the process, each frame once. */
  lemma ImageBacking(stack: Section, sections: seq<Section>)
    requires stack.pages == 2 && Loadable(StackMap(stack), sections) && Apart(stack, sections)
    ensures var image := ImageOf(stack, sections);
      && STACK_PAGE in image && image[STACK_PAGE] == stack.frame
      && Backing(image, image.Keys) == SectionRun(stack) + SectionFrames(sections)
      && Injective(image, image.Keys)
  {
    hide Loaded, Loadable, Run, PageAt;
    var space, image := StackMap(stack), ImageOf(stack, sections);
    LoadedIsPlaced(space, sections, |sections|, 0);
    StackBacking(stack);
    PlacedBacking(space, image, sections);
    PlacedInjective(space, image, sections);
  }

  lemma StackBacking(stack: Section)
    requires stack.pages == 2
    ensures var space := StackMap(stack);
      Backing(space, space.Keys) == SectionRun(stack) && Injective(space, space.Keys)
  {
    var space := StackMap(stack);
    assert SectionRun(stack) == {stack.frame, stack.frame + 1};
    assert space[STACK_PAGE] == stack.frame && space[STACK_PAGE + 1] == stack.frame + 1;
  }

  lemma PlacedBacking(space: map<nat, nat>, image: map<nat, nat>, sections: seq<Section>)
    requires Placed(space, image, sections, |sections|, 0)
    ensures Backing(image, image.Keys) == Backing(space, space.Keys) + SectionFrames(sections)
  {
    hide PageAt;
    forall q | q in image
      ensures image[q] in Backing(space, space.Keys) + SectionFrames(sections)
    {
      if q !in space {
        var t: nat, j: nat :| InLoad(sections, |sections|, 0, t, j) && PageAt(sections, t, j) == q;
        InSection(sections, t, j);
      }
    }
    forall x | x in SectionFrames(sections)
      ensures x in Backing(image, image.Keys)
    {
      var t :| 0 <= t < |sections| && x in SectionRun(sections[t]);
      var j := x - sections[t].frame;
      assert InLoad(sections, |sections|, 0, t, j);
      assert image[PageAt(sections, t, j)] == x;
    }
    forall x | x in Backing(space, space.Keys)
      ensures x in Backing(image, image.Keys)
    {
      var q :| q in space && space[q] == x;
      assert image[q] == x;
    }
  }

  lemma InSection(sections: seq<Section>, t: nat, j: nat)
    requires InLoad(sections, |sections|, 0, t, j)
    ensures sections[t].frame + j in SectionRun(sections[t]) && sections[t].frame + j in SectionFrames(sections)
  {
    assert InRun(sections[t].frame + j, sections[t].frame, sections[t].pages);
  }

  lemma PlacedInjective(space: map<nat, nat>, image: map<nat, nat>, sections: seq<Section>)
    requires Placed(space, image, sections, |sections|, 0) && Injective(space, space.Keys)
    requires forall t :: 0 <= t < |sections| ==> SectionRun(sections[t]) !! Backing(space, space.Keys)
    requires forall s, t :: 0 <= s < t < |sections| ==> SectionRun(sections[s]) !! SectionRun(sections[t])
    ensures Injective(image, image.Keys)
  {
    hide PageAt;
    forall q, q' | q in image && q' in image && q != q'
      ensures image[q] != image[q']
    {
      if q in space && q' in space {
      } else if q in space {
        OldAndNewDiffer(space, image, sections, q, q');
      } else if q' in space {
        OldAndNewDiffer(space, image, sections, q', q);
      } else {
        NewDiffer(space, image, sections, q, q');
      }
    }
  }

  lemma OldAndNewDiffer(space: map<nat, nat>, image: map<nat, nat>, sections: seq<Section>, q: nat, q': nat)
    requires Placed(space, image, sections, |sections|, 0) && q in space && q' in image && q' !in space
    requires forall t :: 0 <= t < |sections| ==> SectionRun(sections[t]) !! Backing(space, space.Keys)
    ensures image[q] != image[q']
  {
    hide PageAt, Run;
    var t: nat, j: nat :| InLoad(sections, |sections|, 0, t, j) && PageAt(sections, t, j) == q';
    InSection(sections, t, j);
    assert space[q] in Backing(space, space.Keys);
  }

  lemma NewDiffer(space: map<nat, nat>, image: map<nat, nat>, sections: seq<Section>, q: nat, q': nat)
    requires Placed(space, image, sections, |sections|, 0)
    requires q in image && q' in image && q !in space && q' !in space && q != q'
    requires forall s, t :: 0 <= s < t < |sections| ==> SectionRun(sections[s]) !! SectionRun(sections[t])
    ensures image[q] != image[q']
  {
    hide PageAt, Run;
    var t: nat, j: nat :| InLoad(sections, |sections|, 0, t, j) && PageAt(sections, t, j) == q;
    var t': nat, j': nat :| InLoad(sections, |sections|, 0, t', j') && PageAt(sections, t', j') == q';
    InSection(sections, t, j);
    InSection(sections, t', j');
  }

  /** A new process finds its first instruction and its stack: the first image page holds the
      first frame of the first section that has pages, and the page below the initial stack
      pointer holds the first stack frame. */
  lemma ImageHoldsEntryAndStack(stack: Section, sections: seq<Section>, s: nat)
    requires Loadable(StackMap(stack), sections) && s < |sections|
    requires sections[s].pages > 0 && Before(sections, s) == 0
    ensures var image := ImageOf(stack, sections);
      && FIRST_PAGE in image && image[FIRST_PAGE] == sections[s].frame
      && STACK_PAGE in image && image[STACK_PAGE] == stack.frame
  {
    LoadedIsPlaced(StackMap(stack), sections, |sections|, 0);
    hide Loaded, Loadable;
    assert InLoad(sections, |sections|, 0, s, 0);
    assert PageAt(sections, s, 0) == FIRST_PAGE;
    assert StackMap(stack)[STACK_PAGE] == stack.frame;
  }
}
