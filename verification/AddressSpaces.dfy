/** What the boot page tables translate, for the kernel and for new processes. */
module AddressSpaces {
  import opened BootPaging
  import opened PageWalk
  import opened Prelude
  import opened ProcessImage
  import opened SchedulerSpec
  import opened UserHeapImages
  import FrameSpec

  /** The pages the x86-64 kernel keeps for itself, and where it puts the frame bitmap. */
  const USED_PAGE: nat := 0x1e00
  const FREE_ADDR: nat := 0x1e0_0000

  /** The upper half of the address space starts here, at top-level entry 256. */
  const HIGH: nat := 0xffff_8000_0000_0000
  const MIB: nat := 0x10_0000
  const GIB: nat := 0x4000_0000

  /** Bits 63 to 47 are all equal. */
  predicate Canonical(va: nat)
  {
    va < 0x8000_0000_0000 || HIGH <= va < 0x1_0000_0000_0000_0000
  }

  /** The windows both kernel and processes see above the first gigabyte of the upper half:
      the interrupt stack and the shared data. */
  function SharedWindows(off: nat): Option<Target>
  {
    if GIB <= off < GIB + 2 * MIB then Some(Target(0x180_0000 + (off - GIB), true, false, true))
    else if 2 * GIB <= off < 2 * GIB + 4 * MIB then Some(Target(0x1a0_0000 + (off - 2 * GIB), true, false, true))
    else None
  }

  /** The kernel's upper half: 6 MiB writable, 32 MiB more read-only, the shared windows. */
  function KernelUpper(off: nat): Option<Target>
  {
    if off < 38 * MIB then Some(Target(off + 2 * MIB, off < 6 * MIB, false, false)) else SharedWindows(off)
  }

  /** A driver's upper half: 48 MiB read-only and the shared windows. */
  function DriverUpper(off: nat): Option<Target>
  {
    if off < 48 * MIB then Some(Target(off + 2 * MIB, false, false, false)) else SharedWindows(off)
  }

  /** The kernel's whole address space. */
  function KernelView(va: nat): Option<Target>
  {
    if va < GIB then Some(Target(va, true, false, false))
    else if HIGH <= va < HIGH + 512 * GIB then KernelUpper(va - HIGH)
    else None
  }

  /** The top-level entry for the upper half that `create` gives a new process. */
  function UpperEntry(k: ProcType): Entry
  {
    Entry(if k == Driver then PDPT_HPROC else PDPT_HIGH, READ_WRITE)
  }

  /** Reading entry `i` of the `t`-th boot table. */
  lemma ReadIs(fb: nat, t: nat, i: nat)
    requires t < 37 && i < 512
    ensures Read(BootWords(fb), TABLE_BASE + 0x1000 * t, i) == Layout(fb, 512 * t + i)
    ensures (512 * t + i) / 512 == t && (512 * t + i) % 512 == i
  {
    hide Layout;
  }

  /** An address below `512 GiB` is made of its three lower indices and its page offset. */
  lemma Split(va: nat)
    ensures va % 0x80_0000_0000 == Index(va, 3) * GIB + va % GIB
    ensures va % GIB == Index(va, 2) * 0x20_0000 + va % 0x20_0000
    ensures va % 0x20_0000 == Index(va, 1) * 0x1000 + va % 0x1000
    ensures Index(va, 1) < 512 && Index(va, 2) < 512 && Index(va, 3) < 512 && Index(va, 4) < 512
  {
    SplitGigabytes(va);
    SplitHugePages(va);
    SplitPages(va);
  }

  lemma SplitGigabytes(va: nat)
    ensures va % 0x80_0000_0000 == va / GIB % 512 * GIB + va % GIB
  {
  }

  lemma SplitHugePages(va: nat)
    ensures va % GIB == va / 0x20_0000 % 512 * 0x20_0000 + va % 0x20_0000
  {
  }

  lemma SplitPages(va: nat)
    ensures va % 0x20_0000 == va / 0x1000 % 512 * 0x1000 + va % 0x1000
  {
  }

  /** The shared interrupt stack and data directories. */
  lemma WalkShared(fb: nat, va: nat)
    ensures WalkDirectory(BootWords(fb), PDT_GS, va) ==
      if va % GIB < 2 * MIB then Some(Target(0x180_0000 + va % GIB, true, false, true)) else None
    ensures var d := WalkDirectory(BootWords(fb), PDT_GRW, va);
      && (d.Some? <==> va % GIB < 4 * MIB)
      && (d.Some? ==> d.value.phys == 0x1a0_0000 + va % GIB && d.value.writable && d.value.noExecute)
  {
    hide BootWords, Read;
    Split(va);
    ReadIs(fb, 8, Index(va, 2));
    ReadIs(fb, 9, Index(va, 2));
  }

  /** The kernel's window directory. */
  lemma WalkKernelWindow(fb: nat, va: nat)
    ensures WalkDirectory(BootWords(fb), PDT_HIGH, va) ==
      if va % GIB < 38 * MIB then Some(Target(va % GIB + 2 * MIB, va % GIB < 6 * MIB, false, false)) else None
  {
    hide BootWords, Read;
    Split(va);
    var i := Index(va, 2);
    ReadIs(fb, 4, i);
    if i < 3 {
      ReadIs(fb, 10 + i, Index(va, 1));
    }
  }

  /** The read-only window directory of drivers. */
  lemma WalkDriverWindow(fb: nat, va: nat)
    ensures WalkDirectory(BootWords(fb), PDT_HPROC, va) ==
      if va % GIB < 48 * MIB then Some(Target(va % GIB + 2 * MIB, false, false, false)) else None
  {
    hide BootWords, Read;
    Split(va);
    var i := Index(va, 2);
    ReadIs(fb, 7, i);
    if i < 24 {
      ReadIs(fb, 13 + i, Index(va, 1));
    }
  }

  lemma WalkLow(fb: nat, va: nat)
    ensures WalkDirectory(BootWords(fb), PDT_LOW, va) == Some(Target(va % GIB, true, false, false))
  {
    hide BootWords, Read;
    Split(va);
    var i := Index(va, 2);
    ReadIs(fb, 3, i);
    if i == 0 {
      ReadIs(fb, 5, Index(va, 1));
    }
  }

  /** A place in the upper half by gigabyte and offset. */
  lemma UpperCases(i: nat, r: nat)
    requires r < GIB
    ensures SharedWindows(i * GIB + r) ==
      if i == 1 && r < 2 * MIB then Some(Target(0x180_0000 + r, true, false, true))
      else if i == 2 && r < 4 * MIB then Some(Target(0x1a0_0000 + r, true, false, true))
      else None
    ensures i * GIB + r < 48 * MIB <==> i == 0 && r < 48 * MIB
  {
  }

  lemma UpperOffset(va: nat)
    requires HIGH <= va < HIGH + 512 * GIB
    ensures va - HIGH == Index(va, 3) * GIB + va % GIB
  {
    SplitGigabytes(va);
  }

  /** Below the top-level entry of a normal process, or the kernel's own. */
  lemma NormalUpperHalf(fb: nat, va: nat)
    requires HIGH <= va < HIGH + 512 * GIB
    ensures WalkFrom(BootWords(fb), UpperEntry(Normal), va) == KernelUpper(va - HIGH)
  {
    hide BootWords, Read, WalkDirectory, Index, SharedWindows;
    Split(va);
    UpperOffset(va);
    UpperCases(Index(va, 3), va % GIB);
    ReadIs(fb, 1, Index(va, 3));
    WalkShared(fb, va);
    WalkKernelWindow(fb, va);
  }

  /** Below the top-level entry of a driver. */
  lemma DriverUpperHalf(fb: nat, va: nat)
    requires HIGH <= va < HIGH + 512 * GIB
    ensures WalkFrom(BootWords(fb), UpperEntry(Driver), va) == DriverUpper(va - HIGH)
  {
    hide BootWords, Read, WalkDirectory, Index, SharedWindows;
    Split(va);
    UpperOffset(va);
    UpperCases(Index(va, 3), va % GIB);
    ReadIs(fb, 6, Index(va, 3));
    WalkShared(fb, va);
    WalkDriverWindow(fb, va);
  }

  lemma LowHalf(fb: nat, va: nat)
    requires va < 512 * GIB
    ensures WalkFrom(BootWords(fb), Entry(PDPT_LOW, READ_WRITE), va) == KernelView(va)
  {
    hide BootWords, Read, WalkDirectory;
    Split(va);
    ReadIs(fb, 2, Index(va, 3));
    WalkLow(fb, va);
    assert va == Index(va, 3) * GIB + va % GIB;
  }

  /** The complete translation of the kernel's tables: every canonical address outside the
      framebuffer's top-level entry leads exactly where `KernelView` says, or nowhere. */
  lemma KernelTranslation(fb: nat, va: nat)
    requires Canonical(va) && Index(va, 4) != 448
    ensures Walk(BootWords(fb), PML4, va) == KernelView(va)
  {
    hide BootWords, Read, WalkFrom;
    Split(va);
    TopIndex(va);
    ReadIs(fb, 0, Index(va, 4));
    if Index(va, 4) == 0 {
      LowHalf(fb, va);
    } else if Index(va, 4) == 256 {
      NormalUpperHalf(fb, va);
    } else {
      NotPresent(fb, va);
    }
  }

  /** Below top-level entry 448 the walk goes on in the loader's framebuffer table, with a writable
      supervisor entry. */
  lemma FramebufferEntry(fb: nat, va: nat)
    requires Index(va, 4) == 448
    ensures var e := Read(BootWords(fb), PML4, 448);
      && e.addr == fb && e.flags == Flags(true, true, false, false, false, false)
      && Walk(BootWords(fb), PML4, va) == WalkFrom(BootWords(fb), e, va)
  {
    ReadIs(fb, 0, 448);
    hide BootWords, Read, WalkFrom;
  }

  lemma NotPresent(fb: nat, va: nat)
    ensures WalkFrom(BootWords(fb), UNUSED, va) == None
  {
  }

  lemma TopIndex(va: nat)
    requires Canonical(va)
    ensures Index(va, 4) == 0 <==> va < 512 * GIB
    ensures Index(va, 4) == 256 <==> HIGH <= va < HIGH + 512 * GIB
  {
  }

  // ----- What the translations are for -----

  /** The low gigabyte is identity mapped. */
  lemma LowGigabyteIsIdentity(fb: nat, va: nat)
    requires va < GIB
    ensures Walk(BootWords(fb), PML4, va) == Some(Target(va, true, false, false))
  {
    KernelTranslation(fb, va);
  }

  /** In the kernel window a driver sees exactly the memory the kernel sees, and cannot
      write to any of it. */
  lemma WindowsAgree(fb: nat, va: nat)
    requires HIGH <= va < HIGH + 38 * MIB
    ensures var kernel := Walk(BootWords(fb), PML4, va);
      var driver := WalkFrom(BootWords(fb), UpperEntry(Driver), va);
      && kernel.Some? && driver.Some?
      && kernel.value.phys == driver.value.phys == va - HIGH + 2 * MIB
      && !driver.value.writable
  {
    KernelTranslation(fb, va);
    DriverUpperHalf(fb, va);
  }

  /** The 38 MiB are the whole overlap: beyond them the driver window goes on to 48 MiB, where
      the kernel has nothing mapped. */
  lemma WindowsDisagreeBeyond(fb: nat, va: nat)
    requires HIGH + 38 * MIB <= va < HIGH + GIB
    ensures Walk(BootWords(fb), PML4, va) == None
    ensures WalkFrom(BootWords(fb), UpperEntry(Driver), va).Some? <==> va < HIGH + 48 * MIB
  {
    KernelTranslation(fb, va);
    DriverUpperHalf(fb, va);
  }

  /** With write protection a driver can write through its upper half exactly to the two shared
      windows: neither the page tables themselves nor any page the frame allocator hands out can
      be reached. */
  lemma DriverWritesOnlySharedMemory(fb: nat, va: nat, f: FrameSpec.Frames, n: nat)
    requires HIGH <= va < HIGH + 512 * GIB
    requires f.Valid() && f.reserved == USED_PAGE
    ensures var t := WalkFrom(BootWords(fb), UpperEntry(Driver), va);
      && (t.Some? ==> TABLE_BASE + 8 * WORDS <= t.value.phys)
      && (t.Some? && t.value.SupervisorMayWrite(true) ==> 0x180_0000 <= t.value.phys < FREE_ADDR)
      && (t.Some? && t.value.SupervisorMayWrite(true) && FrameSpec.Chosen(f, n).Some? ==>
            t.value.phys / PAGE_SIZE !in FrameSpec.Run(FrameSpec.Chosen(f, n).value, n))
  {
    DriverUpperHalf(fb, va);
    if n > 0 {
      FrameSpec.FailsOnlyWhenNothingFits(f, n);
    }
  }

  /** Drivers run with the kernel's selectors, so they are confined exactly when write protection
      is on: without it the whole kernel image is theirs to write. */
  lemma DriverIsConfinedIffWriteProtected(fb: nat, writeProtect: bool)
    ensures writeProtect <==>
      forall va :: HIGH <= va < HIGH + 512 * GIB ==>
        var t := WalkFrom(BootWords(fb), UpperEntry(Driver), va);
        t.Some? && t.value.SupervisorMayWrite(writeProtect) ==> 0x180_0000 <= t.value.phys < FREE_ADDR
  {
    forall va | HIGH <= va < HIGH + 512 * GIB
      ensures var t := WalkFrom(BootWords(fb), UpperEntry(Driver), va);
        t.Some? && t.value.SupervisorMayWrite(true) ==> 0x180_0000 <= t.value.phys < FREE_ADDR
    {
      DriverUpperHalf(fb, va);
    }
    WindowsAgree(fb, HIGH);
  }

  /** With the x86-64 constants every byte of the frame bitmap lies in a page marked for it. */
  lemma BitmapIsProtected(regions: seq<FrameSpec.Region>, byte: nat)
    ensures var f := FrameSpec.Initial(regions, USED_PAGE);
      var p := byte / PAGE_SIZE;
      FREE_ADDR <= byte < FREE_ADDR + f.cap / 8 ==> f.reserved <= p < f.Base() && (p < f.cap ==> p in f.used)
  {
    FrameSpec.BitmapBytesAreMarked(regions, USED_PAGE, FREE_ADDR, byte);
  }

  /** The three entries of the shared windows are the only global ones, and the last of them is the only
      one with the user flag. */
  lemma SharedEntriesAreGlobal(fb: nat, w: nat)
    requires w < WORDS
    ensures BootWords(fb)[w].flags.global <==> w in {Word(PDT_GS, 0), Word(PDT_GRW, 0), Word(PDT_GRW, 1)}
    ensures BootWords(fb)[w].flags.user <==> w == Word(PDT_GRW, 1)
  {
  }

  /** Nothing in the boot tables is user accessible: the one entry that carries the user flag
      sits below entries that do not. */
  lemma NothingIsUserAccessible(fb: nat, va: nat, k: ProcType)
    requires Canonical(va) && Index(va, 4) != 448
    ensures var t := Walk(BootWords(fb), PML4, va);
      t.Some? ==> !t.value.user
    ensures HIGH <= va < HIGH + 512 * GIB ==>
      var t := WalkFrom(BootWords(fb), UpperEntry(k), va);
      t.Some? ==> !t.value.user
  {
    KernelTranslation(fb, va);
    if HIGH <= va < HIGH + 512 * GIB {
      NormalUpperHalf(fb, va);
      DriverUpperHalf(fb, va);
    }
  }

  /** A new process starts in the first frame of its first section that has pages, its first push
      goes to the first stack frame, interrupts are enabled (bit 9 of the flags), and the code and data
      selectors are those of its class. */
  lemma NewProcessStartsInItsImage(k: ProcType, sel: Selectors, stack: Section, sections: seq<Section>, s: nat)
    requires Loadable(StackMap(stack), sections) && s < |sections|
    requires sections[s].pages > 0 && Before(sections, s) == 0
    ensures var c := InitialContext(k, sel);
      var image := ImageOf(stack, sections);
      && c.rip % PAGE_SIZE == 0 && c.rip / PAGE_SIZE in image && image[c.rip / PAGE_SIZE] == sections[s].frame
      && c.rbp == c.rsp && (c.rsp - 8) / PAGE_SIZE in image && image[(c.rsp - 8) / PAGE_SIZE] == stack.frame
      && (c.cs, c.ss) == (if k == Normal then (sel.userCode, sel.userData) else (sel.kernelCode, sel.kernelData))
    ensures HasBit(InitialContext(k, sel).rflags, 0x200)
  {
    hide ImageOf, Loadable, StackMap;
    ImageHoldsEntryAndStack(stack, sections, s);
    NewRegisters(k, sel);
  }
}
