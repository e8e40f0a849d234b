/** Four-level address translation (section 5.3 of the AMD64 Architecture Programmer's
    Manual, Volume 2) over the block of physical memory that holds the boot page tables. */
module PageWalk {
  import opened Prelude

  /** The page-table flags the kernel uses. */
  datatype Flags = Flags(present: bool, writable: bool, user: bool, huge: bool, global: bool, noExecute: bool)

  datatype Entry = Entry(addr: nat, flags: Flags)

  const NONE := Flags(false, false, false, false, false, false)
  const UNUSED := Entry(0, NONE)

  /** The boot page tables are laid out back to back from here. */
  const TABLE_BASE: nat := 0x10_0000

  /** Where entry `i` of the table at `table` lies in the block, counted in entries. */
  function Word(table: nat, i: nat): nat
    requires TABLE_BASE <= table
  {
    (table - TABLE_BASE) / 8 + i
  }

  /** The entry a walk reads; outside the block nothing is present. */
  function Read(words: seq<Entry>, table: nat, i: nat): Entry
  {
    if TABLE_BASE <= table && Word(table, i) < |words| then words[Word(table, i)] else UNUSED
  }

  /** Where an address leads and what the walk allows there: writing and user access need the
      flag at every level, and one level is enough to forbid execution. */
  datatype Target = Target(phys: nat, writable: bool, user: bool, noExecute: bool)
  {
    /** Supervisor code is held to the writable flag only while the write-protect bit of CR0 is
        set (section 5.6); nothing in the kernel sets that bit. */
    predicate SupervisorMayWrite(writeProtect: bool)
    {
      writable || !writeProtect
    }
  }

  function Index(va: nat, level: nat): nat
    requires 1 <= level <= 4
  {
    if level == 4 then va / 0x80_0000_0000 % 512
    else if level == 3 then va / 0x4000_0000 % 512
    else if level == 2 then va / 0x20_0000 % 512
    else va / 0x1000 % 512
  }

  function Through(t: Target, f: Flags): Target
  {
    Target(t.phys, t.writable && f.writable, t.user && f.user, t.noExecute || f.noExecute)
  }

  function Leaf(phys: nat, f: Flags): Target
  {
    Target(phys, f.writable, f.user, f.noExecute)
  }

  function WalkTable(words: seq<Entry>, table: nat, va: nat): Option<Target>
  {
    var e := Read(words, table, Index(va, 1));
    if !e.flags.present then None else Some(Leaf(e.addr + va % 0x1000, e.flags))
  }

  function WalkDirectory(words: seq<Entry>, table: nat, va: nat): Option<Target>
  {
    var e := Read(words, table, Index(va, 2));
    if !e.flags.present then None
    else if e.flags.huge then Some(Leaf(e.addr + va % 0x20_0000, e.flags))
    else
      var t := WalkTable(words, e.addr, va);
      if t.None? then None else Some(Through(t.value, e.flags))
  }

  function WalkPointers(words: seq<Entry>, table: nat, va: nat): Option<Target>
  {
    var e := Read(words, table, Index(va, 3));
    if !e.flags.present then None
    else if e.flags.huge then Some(Leaf(e.addr + va % 0x4000_0000, e.flags))
    else
      var t := WalkDirectory(words, e.addr, va);
      if t.None? then None else Some(Through(t.value, e.flags))
  }

  /** The walk below one top-level entry. */
  function WalkFrom(words: seq<Entry>, e: Entry, va: nat): Option<Target>
  {
    if !e.flags.present then None
    else
      var t := WalkPointers(words, e.addr, va);
      if t.None? then None else Some(Through(t.value, e.flags))
  }

  function Walk(words: seq<Entry>, root: nat, va: nat): Option<Target>
  {
    WalkFrom(words, Read(words, root, Index(va, 4)), va)
  }
}
