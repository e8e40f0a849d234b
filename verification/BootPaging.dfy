/** The page tables the kernel builds at boot, written entry by entry. */
module BootPaging {
  import opened PageWalk

  const PML4: nat := 0x10_0000
  const PDPT_HIGH: nat := 0x10_1000
  const PDPT_LOW: nat := 0x10_2000
  const PDT_LOW: nat := 0x10_3000
  const PDT_HIGH: nat := 0x10_4000
  const PT_LOW: nat := 0x10_5000
  const PDPT_HPROC: nat := 0x10_6000
  const PDT_HPROC: nat := 0x10_7000
  const PDT_GS: nat := 0x10_8000
  const PDT_GRW: nat := 0x10_9000
  const PDT_LOW2: nat := 0x10_a000

  /** Entries in the 37 tables. */
  const WORDS: nat := 37 * 512

  const READ_ONLY := Flags(true, false, false, false, false, false)
  const READ_WRITE := Flags(true, true, false, false, false, false)
  const HUGE := READ_WRITE.(huge := true)
  const INITRD := READ_ONLY.(huge := true)
  const SHARED := HUGE.(global := true, noExecute := true)
  const SHARED_USER := SHARED.(user := true)

  /** The table that holds a word, and the word's place in it. */
  function Layout(fb: nat, w: nat): Entry
  {
    var t, i := w / 512, w % 512;
    match t
    case 0 =>
      if i == 0 then Entry(PDPT_LOW, READ_WRITE)
      else if i == 256 then Entry(PDPT_HIGH, READ_WRITE)
      else if i == 448 then Entry(fb, READ_WRITE)
      else UNUSED
    case 1 =>
      if i == 0 then Entry(PDT_HIGH, READ_WRITE)
      else if i == 1 then Entry(PDT_GS, READ_WRITE)
      else if i == 2 then Entry(PDT_GRW, READ_WRITE)
      else UNUSED
    case 2 => if i == 0 then Entry(PDT_LOW, READ_WRITE) else UNUSED
    case 3 => if i == 0 then Entry(PT_LOW, READ_WRITE) else Entry(i * 0x20_0000, HUGE)
    case 4 =>
      if i < 3 then Entry(PDT_LOW2 + i * 0x1000, READ_WRITE)
      else if i < 19 then Entry(0x20_0000 + i * 0x20_0000, INITRD)
      else UNUSED
    case 5 => Entry(i * 0x1000, READ_WRITE)
    case 6 =>
      if i == 0 then Entry(PDT_HPROC, READ_ONLY)
      else if i == 1 then Entry(PDT_GS, READ_WRITE)
      else if i == 2 then Entry(PDT_GRW, READ_WRITE)
      else UNUSED
    case 7 => if i < 24 then Entry(PDT_LOW2 + 0x3000 + i * 0x1000, READ_ONLY) else UNUSED
    case 8 => if i == 0 then Entry(0x180_0000, SHARED) else UNUSED
    case 9 =>
      if i == 0 then Entry(0x1a0_0000, SHARED)
      else if i == 1 then Entry(0x1c0_0000, SHARED_USER)
      else UNUSED
    case _ =>
      if t < 13 then Entry(0x20_0000 + (t - 10) * 0x20_0000 + i * 0x1000, READ_WRITE)
      else if t < 37 then Entry(0x20_0000 + (t - 13) * 0x20_0000 + i * 0x1000, READ_ONLY)
      else UNUSED
  }

  function BootWords(fb: nat): seq<Entry>
  {
    seq(WORDS, w requires 0 <= w => Layout(fb, w))
  }

  class PageTables {
    var words: array<Entry>

    /** The tables' memory after it has been cleared. */
    constructor ()
      ensures fresh(words) && words.Length == WORDS
      ensures forall w :: 0 <= w < WORDS ==> words[w] == UNUSED
    {
      words := new Entry[WORDS](_ => UNUSED);
    }

    method SetAddr(table: nat, i: nat, addr: nat, flags: Flags)
      requires TABLE_BASE <= table && Word(table, i) < words.Length
      modifies words
      ensures words[..] == old(words[..])[Word(table, i) := Entry(addr, flags)]
    {
      words[Word(table, i)] := Entry(addr, flags);
    }

    /** Fill entries `from .. to` of a table with consecutive pages of `step` bytes. */
    method Fill(table: nat, from: nat, to: nat, base: nat, step: nat, flags: Flags)
      requires TABLE_BASE <= table && from <= to && Word(table, to) <= words.Length
      modifies words
      ensures forall w :: 0 <= w < words.Length ==>
        words[w] == if Word(table, from) <= w < Word(table, to)
                    then Entry(base + (w - Word(table, from)) * step, flags)
                    else old(words[w])
    {
      for i := from to to
        invariant forall w :: 0 <= w < words.Length ==>
          words[w] == if Word(table, from) <= w < Word(table, i)
                      then Entry(base + (w - Word(table, from)) * step, flags)
                      else old(words[w])
      {
        words[Word(table, i)] := Entry(base + (i - from) * step, flags);
      }
    }

    /** Map the memory from 2 MiB on through `count` tables of 4 KiB pages, taking the tables
        one after another from `current`. */
    method MapWindow(pdt: nat, current: nat, count: nat, flags: Flags) returns (next: nat)
      requires current % 0x1000 == 0 && pdt % 0x1000 == 0
      requires TABLE_BASE <= pdt && pdt + 0x1000 <= current && count <= 512
      requires Word(current, 512 * count) <= words.Length
      modifies words
      ensures next == current + count * 0x1000
      ensures forall w :: 0 <= w < words.Length ==> words[w] == WindowWord(pdt, current, count, flags, w, old(words[w]))
    {
      next := current;
      for i := 0 to count
        invariant next == current + i * 0x1000
        invariant forall w :: 0 <= w < words.Length ==> words[w] == WindowWord(pdt, current, i, flags, w, old(words[w]))
      {
        Fill(next, 0, 512, 0x20_0000 + i * 0x20_0000, 0x1000, flags);
        words[Word(pdt, i)] := Entry(next, flags);
        next := next + 0x1000;
        forall w | 0 <= w < words.Length
          ensures words[w] == WindowWord(pdt, current, i + 1, flags, w, old(words[w]))
        {
          WindowGrows(pdt, current, i, flags, w, old(words[w]));
          hide WindowWord;
        }
      }
    }

    method InitLow()
      requires words.Length == WORDS
      modifies words
      ensures forall w :: 0 <= w < WORDS ==> words[w] == if InLow(w) then Layout(0, w) else old(words[w])
    {
      SetAddr(PML4, 0, PDPT_LOW, READ_WRITE);
      SetAddr(PDPT_LOW, 0, PDT_LOW, READ_WRITE);
      SetAddr(PDT_LOW, 0, PT_LOW, READ_WRITE);
      Fill(PT_LOW, 0, 512, 0, 0x1000, READ_WRITE);
      Fill(PDT_LOW, 1, 512, 0x20_0000, 0x20_0000, HUGE);
    }

    method InitHigh() returns (current: nat)
      requires words.Length == WORDS
      modifies words
      ensures current == PDT_LOW2 + 0x3000
      ensures forall w :: 0 <= w < WORDS ==> words[w] == if InHigh(w) then Layout(0, w) else old(words[w])
    {
      SetAddr(PML4, 256, PDPT_HIGH, READ_WRITE);
      SetAddr(PDPT_HIGH, 0, PDT_HIGH, READ_WRITE);
      current := MapWindow(PDT_HIGH, PDT_LOW2, 3, READ_WRITE);
      Fill(PDT_HIGH, 3, 19, 0x80_0000, 0x20_0000, INITRD);
    }

    method InitShared()
      requires words.Length == WORDS
      modifies words
      ensures forall w :: 0 <= w < WORDS ==> words[w] == if InShared(w) then Layout(0, w) else old(words[w])
    {
      SetAddr(PDPT_HIGH, 1, PDT_GS, READ_WRITE);
      SetAddr(PDPT_HPROC, 1, PDT_GS, READ_WRITE);
      SetAddr(PDT_GS, 0, 0x180_0000, SHARED);
      SetAddr(PDPT_HIGH, 2, PDT_GRW, READ_WRITE);
      SetAddr(PDPT_HPROC, 2, PDT_GRW, READ_WRITE);
      SetAddr(PDT_GRW, 0, 0x1a0_0000, SHARED);
      SetAddr(PDT_GRW, 1, 0x1c0_0000, SHARED_USER);
    }

    method InitProcess(current: nat)
      requires words.Length == WORDS && current == PDT_LOW2 + 0x3000
      modifies words
      ensures forall w :: 0 <= w < WORDS ==> words[w] == if InProcess(w) then Layout(0, w) else old(words[w])
    {
      SetAddr(PDPT_HPROC, 0, PDT_HPROC, READ_ONLY);
      var next := MapWindow(PDT_HPROC, current, 24, READ_ONLY);
    }

    /** Build all tables; `fbPdpt` is what the loader's page table held for the framebuffer. */
    method Init(fbPdpt: nat)
      requires words.Length == WORDS
      requires forall w :: 0 <= w < WORDS ==> words[w] == UNUSED
      modifies words
      ensures words[..] == BootWords(fbPdpt)
    {
      InitLow();
      var current := InitHigh();
      InitShared();
      InitProcess(current);
      SetAddr(PML4, 448, fbPdpt, READ_WRITE);
    }
  }

  /** One word after `count` rounds of `MapWindow`. */
  function WindowWord(pdt: nat, current: nat, count: nat, flags: Flags, w: nat, before: Entry): Entry
    requires TABLE_BASE <= pdt && TABLE_BASE <= current
  {
    if Word(pdt, 0) <= w < Word(pdt, count) then Entry(current + (w - Word(pdt, 0)) * 0x1000, flags)
    else if Word(current, 0) <= w < Word(current, 512 * count) then
      var k := w - Word(current, 0);
      Entry(0x20_0000 + k / 512 * 0x20_0000 + k % 512 * 0x1000, flags)
    else before
  }

  /** What one round of `MapWindow` writes. */
  lemma WindowGrows(pdt: nat, current: nat, i: nat, flags: Flags, w: nat, before: Entry)
    requires TABLE_BASE <= pdt && pdt + 0x1000 <= current && current % 0x1000 == 0 && pdt % 0x1000 == 0 && i < 512
    ensures var table := current + i * 0x1000;
      WindowWord(pdt, current, i + 1, flags, w, before) ==
        if w == Word(pdt, i) then Entry(table, flags)
        else if Word(table, 0) <= w < Word(table, 512) then
          Entry(0x20_0000 + i * 0x20_0000 + (w - Word(table, 0)) * 0x1000, flags)
        else WindowWord(pdt, current, i, flags, w, before)
  {
  }

  // The words each part of the set-up writes.

  predicate InLow(w: nat)
  {
    w == 0 || w == 2 * 512 || 3 * 512 <= w < 4 * 512 || 5 * 512 <= w < 6 * 512
  }

  predicate InHigh(w: nat)
  {
    w == 256 || w == 512 || 4 * 512 <= w < 4 * 512 + 19 || 10 * 512 <= w < 13 * 512
  }

  predicate InShared(w: nat)
  {
    || w == 512 + 1 || w == 512 + 2 || w == 6 * 512 + 1 || w == 6 * 512 + 2
    || w == 8 * 512 || w == 9 * 512 || w == 9 * 512 + 1
  }

  predicate InProcess(w: nat)
  {
    w == 6 * 512 || 7 * 512 <= w < 7 * 512 + 24 || 13 * 512 <= w < 37 * 512
  }
}
