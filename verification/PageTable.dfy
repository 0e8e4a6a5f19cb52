/** Four-level AArch64 translation tables with 4 KiB pages, and the insertion of one device page. */
module PageTable {
  import opened Wrappers

  const ENTRIES: nat := 512
  const PAGE: nat := 4096
  const TWO_TO_THE_48: nat := 0x1_0000_0000_0000
  const U64_LIMIT: nat := 0x1_0000_0000_0000_0000

  const UART_PHYSICAL: nat := 0x0900_0000
  const UART_VIRTUAL: nat := 0xffff_fffd_0900_0000

  // Page, attribute index 2, outer shareable, accessed, never executable at either level.
  const DEVICE_PAGE: nat := UART_PHYSICAL + 0x3 + 0x8 + 0x200 + 0x400 + 0x20_0000_0000_0000 + 0x40_0000_0000_0000

  /** Physical memory that holds tables: the words at (table, index); a word never written reads as zero. */
  type Memory = map<(nat, nat), nat>

  function Entry(m: Memory, table: nat, index: nat): nat {
    if (table, index) in m then m[(table, index)] else 0
  }

  function ZeroTable(m: Memory, table: nat): Memory {
    map k | k in m && k.0 != table :: m[k]
  }

  /** The low two bits say what a descriptor is: 3 a table or page, 1 a block. */
  predicate IsTable(d: nat) {
    d % 4 == 3
  }

  predicate IsBlock(d: nat) {
    d % 4 == 1
  }

  /** The address with its low two bits set. */
  function TableDescriptor(address: nat): nat {
    address / 4 * 4 + 3
  }

  /** Bits 47 to 12. */
  function Address(d: nat): nat {
    d % TWO_TO_THE_48 / PAGE * PAGE
  }

  /** The indices of a virtual address, level 0 first. */
  function Indices(va: nat): seq<nat> {
    [va / 0x80_0000_0000 % ENTRIES, va / 0x4000_0000 % ENTRIES, va / 0x20_0000 % ENTRIES, va / PAGE % ENTRIES]
  }

  datatype Leaf = Leaf(descriptor: nat, levelsLeft: nat)

  /** Follows the indices from a table to a page, or to a block at level 1 or 2; the last index is that of level 3. */
  function Resolve(m: Memory, table: nat, path: seq<nat>): Option<Leaf>
    requires 1 <= |path| <= 4
    decreases |path|
  {
    var d := Entry(m, table, path[0]);
    if |path| == 1 then if IsTable(d) then Some(Leaf(d, 1)) else None
    else if IsTable(d) then Resolve(m, Address(d), path[1..])
    else if IsBlock(d) && |path| < 4 then Some(Leaf(d, |path|))
    else None
  }

  /** The table that the leading indices lead to. */
  function TableAt(m: Memory, table: nat, path: seq<nat>): Option<nat>
    decreases |path|
  {
    if path == [] then Some(table)
    else
      var d := Entry(m, table, path[0]);
      if IsTable(d) then TableAt(m, Address(d), path[1..]) else None
  }

  /* ----- Inserting a page ----- */

  /** The reserved table for the entry that was missing `|path|` levels above the page. */
  function ReservedFor(reserved: nat, path: seq<nat>): nat
    requires 2 <= |path| <= 4
  {
    reserved + (4 - |path|) * PAGE
  }

  predicate IsReserved(reserved: nat, table: nat) {
    table == reserved || table == reserved + PAGE || table == reserved + 2 * PAGE
  }

  function Insert(m: Memory, table: nat, path: seq<nat>, reserved: nat): Memory
    requires 1 <= |path| <= 4
    decreases |path|
  {
    if |path| == 1 then m[(table, path[0]) := DEVICE_PAGE]
    else
      var d := Entry(m, table, path[0]);
      if IsTable(d) then Insert(m, Address(d), path[1..], reserved)
      else
        var next := ReservedFor(reserved, path);
        Insert(ZeroTable(m, next)[(table, path[0]) := TableDescriptor(next)], next, path[1..], reserved)
  }

  lemma FourIndices(va: nat)
    ensures |Indices(va)| == 4
  {
  }

  lemma InsertUnfolds(m: Memory, table: nat, path: seq<nat>, reserved: nat)
    requires 1 <= |path| <= 4
    ensures Insert(m, table, path, reserved) ==
            if |path| == 1 then m[(table, path[0]) := DEVICE_PAGE]
            else
              var d := Entry(m, table, path[0]);
              if IsTable(d) then Insert(m, Address(d), path[1..], reserved)
              else
                var next := reserved + (4 - |path|) * PAGE;
                Insert(ZeroTable(m, next)[(table, path[0]) := TableDescriptor(next)], next, path[1..], reserved)
  {
    hide IsTable, Address, TableDescriptor, Entry, ZeroTable;
  }

  class TranslationTables {
    var memory: Memory

    constructor (memory: Memory)
      ensures this.memory == memory
    {
      this.memory := memory;
    }

    /** Maps the serial port's page, taking zeroed tables from the kernel image for levels that are missing. */
    method MapDevicePage(
      hhdm: nat, executablePhysical: nat, executableVirtual: nat, tablesVirtual: nat, rootRegister: nat)
      returns (mapped: bool)
      modifies this
      ensures mapped <==> hhdm != 0 && executableVirtual <= tablesVirtual
      ensures !mapped ==> memory == old(memory)
      ensures mapped ==>
                var sum := executablePhysical + (tablesVirtual - executableVirtual);
                var reserved := if sum < U64_LIMIT then sum else U64_LIMIT - 1;
                memory == Insert(old(memory), Address(rootRegister), Indices(UART_VIRTUAL), reserved)
    {
      hide Insert, IsTable, Address, TableDescriptor, Indices, Entry, ZeroTable;
      if hhdm == 0 {
        return false;
      }
      if tablesVirtual < executableVirtual {
        return false;
      }
      var sum := executablePhysical + (tablesVirtual - executableVirtual);
      var reserved := if sum < U64_LIMIT then sum else U64_LIMIT - 1;
      var current: nat := Address(rootRegister);
      var indices := Indices(UART_VIRTUAL);
      FourIndices(UART_VIRTUAL);
      for level := 0 to 3
        invariant Insert(old(memory), Address(rootRegister), indices, reserved)
               == Insert(memory, current, indices[level..], reserved)
      {
        assert indices[level..][1..] == indices[level + 1..] && indices[level..][0] == indices[level];
        InsertUnfolds(memory, current, indices[level..], reserved);
        var descriptor := Entry(memory, current, indices[level]);
        if IsTable(descriptor) {
          current := Address(descriptor);
          continue;
        }
        var next := reserved + level * PAGE;
        memory := ZeroTable(memory, next);
        memory := memory[(current, indices[level]) := TableDescriptor(next)];
        current := next;
      }
      assert indices[3..] == [indices[3]];
      InsertUnfolds(memory, current, indices[3..], reserved);
      memory := memory[(current, indices[3]) := DEVICE_PAGE];
      return true;
    }
  }

  /* ----- What the insertion changes ----- */

  /** Three page-aligned tables within the addresses that a descriptor can hold. */
  predicate Placed(reserved: nat) {
    reserved % PAGE == 0 && reserved + 3 * PAGE <= TWO_TO_THE_48
  }

  lemma DescriptorAddress(address: nat)
    requires address % PAGE == 0 && address < TWO_TO_THE_48
    ensures IsTable(TableDescriptor(address)) && Address(TableDescriptor(address)) == address
  {
  }

  lemma ReservedPlaced(reserved: nat, path: seq<nat>)
    requires Placed(reserved) && 2 <= |path| <= 4
    ensures var next := ReservedFor(reserved, path);
            && IsReserved(reserved, next) && next % PAGE == 0 && next < TWO_TO_THE_48
            && IsTable(TableDescriptor(next)) && Address(TableDescriptor(next)) == next
  {
    var next := ReservedFor(reserved, path);
    assert next == reserved || next == reserved + PAGE || next == reserved + 2 * PAGE;
    DescriptorAddress(next);
  }

  lemma ZeroEntry(m: Memory, table: nat, t: nat, i: nat)
    ensures Entry(ZeroTable(m, table), t, i) == if t == table then 0 else Entry(m, t, i)
  {
  }

  /** The memory after a missing table has been supplied. */
  function Supplied(m: Memory, table: nat, path: seq<nat>, reserved: nat): Memory
    requires 2 <= |path| <= 4
  {
    var next := ReservedFor(reserved, path);
    ZeroTable(m, next)[(table, path[0]) := TableDescriptor(next)]
  }

  lemma SuppliedEntry(m: Memory, table: nat, path: seq<nat>, reserved: nat, t: nat, i: nat)
    requires 2 <= |path| <= 4
    ensures Entry(Supplied(m, table, path, reserved), t, i) ==
            if t == table && i == path[0] then TableDescriptor(ReservedFor(reserved, path))
            else if t == ReservedFor(reserved, path) then 0
            else Entry(m, t, i)
  {
    ZeroEntry(m, ReservedFor(reserved, path), t, i);
  }

  /** The table holds nothing at all. */
  ghost predicate Blank(m: Memory, table: nat) {
    forall i :: Entry(m, table, i) == 0
  }

  lemma SuppliedBlank(m: Memory, table: nat, path: seq<nat>, reserved: nat)
    requires 2 <= |path| <= 4 && table != ReservedFor(reserved, path)
    ensures Blank(Supplied(m, table, path, reserved), ReservedFor(reserved, path))
  {
    forall i ensures Entry(Supplied(m, table, path, reserved), ReservedFor(reserved, path), i) == 0 {
      SuppliedEntry(m, table, path, reserved, ReservedFor(reserved, path), i);
    }
  }

  /* ----- Below a table that was just supplied ----- */

  /** The supplied table from which the path goes on. */
  function FreshTable(reserved: nat, path: seq<nat>): nat
    requires 1 <= |path| <= 3
  {
    reserved + (3 - |path|) * PAGE
  }

  /** Not the supplied table, nor one that a later level may take. */
  predicate Untaken(reserved: nat, path: seq<nat>, t: nat) {
    && t != reserved + 2 * PAGE
    && (|path| >= 2 ==> t != reserved + PAGE)
    && (|path| >= 3 ==> t != reserved)
  }

  lemma FreshStep(m: Memory, path: seq<nat>, reserved: nat)
    requires 2 <= |path| <= 3 && Blank(m, FreshTable(reserved, path))
    ensures var table := FreshTable(reserved, path);
            var m1 := Supplied(m, table, path, reserved);
            && ReservedFor(reserved, path) == FreshTable(reserved, path[1..])
            && Insert(m, table, path, reserved) == Insert(m1, FreshTable(reserved, path[1..]), path[1..], reserved)
            && Blank(m1, FreshTable(reserved, path[1..]))
            && Untaken(reserved, path[1..], table)
  {
    var table := FreshTable(reserved, path);
    assert Entry(m, table, path[0]) == 0;
    SuppliedBlank(m, table, path, reserved);
  }

  lemma {:induction false} FreshFrame(m: Memory, path: seq<nat>, reserved: nat, t: nat, i: nat)
    requires 1 <= |path| <= 3 && Blank(m, FreshTable(reserved, path)) && Untaken(reserved, path, t)
    ensures Entry(Insert(m, FreshTable(reserved, path), path, reserved), t, i) == Entry(m, t, i)
    decreases |path|
  {
    if |path| > 1 {
      FreshStep(m, path, reserved);
      SuppliedEntry(m, FreshTable(reserved, path), path, reserved, t, i);
      FreshFrame(Supplied(m, FreshTable(reserved, path), path, reserved), path[1..], reserved, t, i);
    }
  }

  /** Below a supplied table exactly the new page resolves. */
  lemma {:induction false} FreshResolves(m: Memory, path: seq<nat>, reserved: nat, q: seq<nat>)
    requires 1 <= |path| <= 3 && |q| == |path| && Placed(reserved) && Blank(m, FreshTable(reserved, path))
    ensures var m' := Insert(m, FreshTable(reserved, path), path, reserved);
            Resolve(m', FreshTable(reserved, path), q) == if q == path then Some(Leaf(DEVICE_PAGE, 1)) else None
    decreases |path|
  {
    var table := FreshTable(reserved, path);
    var m' := Insert(m, table, path, reserved);
    if |path| == 1 {
      assert Entry(m, table, q[0]) == 0;
      assert Entry(m', table, q[0]) == if q[0] == path[0] then DEVICE_PAGE else 0;
      assert q == path <==> q[0] == path[0];
    } else {
      FreshStep(m, path, reserved);
      ReservedPlaced(reserved, path);
      var m1 := Supplied(m, table, path, reserved);
      SuppliedEntry(m, table, path, reserved, table, q[0]);
      FreshFrame(m1, path[1..], reserved, table, q[0]);
      if q[0] == path[0] {
        FreshResolves(m1, path[1..], reserved, q[1..]);
        assert q == [q[0]] + q[1..] && path == [path[0]] + path[1..];
      }
    }
  }

  /* ----- In the live tables ----- */

  /** Each table within reach is reached in one way only. */
  ghost predicate IsTree(m: Memory, table: nat, depth: nat) {
    forall p: seq<nat>, q: seq<nat> |
      |p| <= depth && |q| <= depth && TableAt(m, table, p).Some? && TableAt(m, table, p) == TableAt(m, table, q) ::
      p == q
  }

  /** No table within reach is a reserved one. */
  ghost predicate Unreserved(m: Memory, table: nat, depth: nat, reserved: nat) {
    forall p: seq<nat> | |p| <= depth && TableAt(m, table, p).Some? :: !IsReserved(reserved, TableAt(m, table, p).value)
  }

  ghost predicate Live(m: Memory, table: nat, depth: nat, reserved: nat) {
    IsTree(m, table, depth) && Unreserved(m, table, depth, reserved)
  }

  lemma TableAtCons(m: Memory, table: nat, i: nat, p: seq<nat>)
    ensures TableAt(m, table, [i] + p) ==
            if IsTable(Entry(m, table, i)) then TableAt(m, Address(Entry(m, table, i)), p) else None
  {
    assert ([i] + p)[1..] == p;
  }

  lemma LiveChild(m: Memory, table: nat, depth: nat, reserved: nat, i: nat)
    requires depth > 0 && Live(m, table, depth, reserved) && IsTable(Entry(m, table, i))
    ensures Live(m, Address(Entry(m, table, i)), depth - 1, reserved)
  {
    hide IsTable, Address, IsReserved;
    var child := Address(Entry(m, table, i));
    forall p: seq<nat>, q: seq<nat> | |p| <= depth - 1 && |q| <= depth - 1
      && TableAt(m, child, p).Some? && TableAt(m, child, p) == TableAt(m, child, q)
      ensures p == q
    {
      TableAtCons(m, table, i, p);
      TableAtCons(m, table, i, q);
      assert [i] + p == [i] + q;
      assert p == ([i] + p)[1..] && q == ([i] + q)[1..];
    }
    forall p: seq<nat> | |p| <= depth - 1 && TableAt(m, child, p).Some?
      ensures !IsReserved(reserved, TableAt(m, child, p).value)
    {
      TableAtCons(m, table, i, p);
      assert |[i] + p| <= depth;
    }
  }

  /** A table below one entry is neither the table itself nor below another entry. */
  lemma Elsewhere(m: Memory, table: nat, depth: nat, reserved: nat, i: nat, p: seq<nat>, j: nat, q: seq<nat>)
    requires Live(m, table, depth, reserved) && |p| < depth && |q| < depth
    requires IsTable(Entry(m, table, i)) && TableAt(m, Address(Entry(m, table, i)), p).Some?
    ensures var t := TableAt(m, Address(Entry(m, table, i)), p);
            && t.value != table && !IsReserved(reserved, t.value)
            && (i != j && IsTable(Entry(m, table, j)) ==> t != TableAt(m, Address(Entry(m, table, j)), q))
  {
    hide IsTable, Address, IsReserved;
    TableAtCons(m, table, i, p);
    TableAtCons(m, table, j, q);
    assert TableAt(m, table, []) == Some(table);
    assert [i] + p != [];
    assert ([i] + p)[0] == i && ([j] + q)[0] == j;
  }

  /** Only the tables on the way and the reserved ones change. */
  lemma {:induction false} InsertFrame(m: Memory, table: nat, path: seq<nat>, reserved: nat, t: nat, i: nat)
    requires 1 <= |path| <= 4 && !IsReserved(reserved, t) && !IsReserved(reserved, table)
    requires forall k | 0 <= k < |path| :: TableAt(m, table, path[..k]) != Some(t)
    requires Unreserved(m, table, |path| - 1, reserved)
    ensures Entry(Insert(m, table, path, reserved), t, i) == Entry(m, t, i)
    decreases |path|
  {
    hide IsTable, Address, TableDescriptor, Unreserved;
    assert path[..0] == [] && TableAt(m, table, path[..0]) == Some(table);
    if |path| > 1 {
      var d := Entry(m, table, path[0]);
      if IsTable(d) {
        forall k | 0 <= k < |path| - 1 ensures TableAt(m, Address(d), path[1..][..k]) != Some(t) {
          assert path[..k + 1] == [path[0]] + path[1..][..k];
          TableAtCons(m, table, path[0], path[1..][..k]);
          assert TableAt(m, table, path[..k + 1]) != Some(t);
        }
        UnreservedChild(m, table, |path| - 1, reserved, path[0]);
        InsertFrame(m, Address(d), path[1..], reserved, t, i);
      } else {
        MissingFrame(m, table, path, reserved, t, i);
      }
    }
  }

  lemma UnreservedChild(m: Memory, table: nat, depth: nat, reserved: nat, i: nat)
    requires depth > 0 && Unreserved(m, table, depth, reserved) && IsTable(Entry(m, table, i))
    ensures var child := Address(Entry(m, table, i));
            Unreserved(m, child, depth - 1, reserved) && !IsReserved(reserved, child)
  {
    hide IsTable, Address, IsReserved;
    var child := Address(Entry(m, table, i));
    forall p: seq<nat> | |p| <= depth - 1 && TableAt(m, child, p).Some?
      ensures !IsReserved(reserved, TableAt(m, child, p).value)
    {
      TableAtCons(m, table, i, p);
      assert |[i] + p| <= depth;
    }
    assert TableAt(m, child, []) == Some(child);
  }

  /** Where the way stops, only that entry and reserved tables change. */
  lemma MissingFrame(m: Memory, table: nat, path: seq<nat>, reserved: nat, t: nat, i: nat)
    requires 2 <= |path| <= 4 && !IsReserved(reserved, t) && !IsReserved(reserved, table)
    requires !IsTable(Entry(m, table, path[0]))
    ensures Entry(Insert(m, table, path, reserved), t, i) ==
            if t == table && i == path[0] then TableDescriptor(ReservedFor(reserved, path)) else Entry(m, t, i)
  {
    hide IsTable, TableDescriptor;
    var m1 := Supplied(m, table, path, reserved);
    assert ReservedFor(reserved, path) == FreshTable(reserved, path[1..]);
    assert table != ReservedFor(reserved, path) && t != ReservedFor(reserved, path);
    SuppliedBlank(m, table, path, reserved);
    SuppliedEntry(m, table, path, reserved, t, i);
    FreshFrame(m1, path[1..], reserved, t, i);
  }

  /** A walk that only meets unchanged entries ends as before. */
  lemma {:induction false} ResolveFrame(m: Memory, m': Memory, table: nat, q: seq<nat>)
    requires 1 <= |q| <= 4
    requires forall k | 0 <= k < |q| && TableAt(m, table, q[..k]).Some? ::
               Entry(m', TableAt(m, table, q[..k]).value, q[k]) == Entry(m, TableAt(m, table, q[..k]).value, q[k])
    ensures Resolve(m', table, q) == Resolve(m, table, q)
    decreases |q|
  {
    hide IsTable, Address;
    assert q[..0] == [] && TableAt(m, table, q[..0]) == Some(table);
    var d := Entry(m, table, q[0]);
    if |q| > 1 && IsTable(d) {
      forall k | 0 <= k < |q| - 1 && TableAt(m, Address(d), q[1..][..k]).Some?
        ensures Entry(m', TableAt(m, Address(d), q[1..][..k]).value, q[1..][k])
             == Entry(m, TableAt(m, Address(d), q[1..][..k]).value, q[1..][k])
      {
        assert q[..k + 1] == [q[0]] + q[1..][..k];
        TableAtCons(m, table, q[0], q[1..][..k]);
        assert TableAt(m, table, q[..k + 1]).Some?;
      }
      ResolveFrame(m, m', Address(d), q[1..]);
    }
  }

  /** A block lies on the way. */
  predicate HasBlock(m: Memory, table: nat, path: seq<nat>)
    requires 1 <= |path| <= 4
    decreases |path|
  {
    var d := Entry(m, table, path[0]);
    && |path| >= 2
    && (if IsTable(d) then HasBlock(m, Address(d), path[1..]) else IsBlock(d) && |path| < 4)
  }

  lemma RootUnreserved(m: Memory, table: nat, depth: nat, reserved: nat)
    requires Live(m, table, depth, reserved)
    ensures !IsReserved(reserved, table)
  {
    assert TableAt(m, table, []) == Some(table);
  }

  /** The entries of the table itself that are not on the way, or that already lead on, stay. */
  lemma OwnEntryStays(m: Memory, table: nat, path: seq<nat>, reserved: nat, i: nat)
    requires 2 <= |path| <= 4 && Live(m, table, |path| - 1, reserved)
    requires i != path[0] || IsTable(Entry(m, table, path[0]))
    ensures Entry(Insert(m, table, path, reserved), table, i) == Entry(m, table, i)
  {
    hide IsTable, Address, IsReserved;
    RootUnreserved(m, table, |path| - 1, reserved);
    var d := Entry(m, table, path[0]);
    if IsTable(d) {
      LiveChild(m, table, |path| - 1, reserved, path[0]);
      RootUnreserved(m, Address(d), |path| - 2, reserved);
      forall k | 0 <= k < |path| - 1 ensures TableAt(m, Address(d), path[1..][..k]) != Some(table) {
        if TableAt(m, Address(d), path[1..][..k]).Some? {
          Elsewhere(m, table, |path| - 1, reserved, path[0], path[1..][..k], path[0], []);
        }
      }
      InsertFrame(m, Address(d), path[1..], reserved, table, i);
    } else {
      MissingFrame(m, table, path, reserved, table, i);
    }
  }

  /** Everything below another entry of the table stays. */
  lemma SiblingStays(m: Memory, table: nat, path: seq<nat>, reserved: nat, q: seq<nat>)
    requires 2 <= |path| <= 4 && |q| == |path| && q[0] != path[0] && Live(m, table, |path| - 1, reserved)
    requires IsTable(Entry(m, table, q[0]))
    ensures var child := Address(Entry(m, table, q[0]));
            Resolve(Insert(m, table, path, reserved), child, q[1..]) == Resolve(m, child, q[1..])
  {
    hide IsTable, Address, IsReserved;
    var m' := Insert(m, table, path, reserved);
    var child := Address(Entry(m, table, q[0]));
    forall k | 0 <= k < |q| - 1 && TableAt(m, child, q[1..][..k]).Some?
      ensures Entry(m', TableAt(m, child, q[1..][..k]).value, q[1..][k])
           == Entry(m, TableAt(m, child, q[1..][..k]).value, q[1..][k])
    {
      SiblingEntryStays(m, table, path, reserved, q[0], q[1..][..k], q[1..][k]);
    }
    ResolveFrame(m, m', child, q[1..]);
  }

  lemma SiblingEntryStays(m: Memory, table: nat, path: seq<nat>, reserved: nat, i: nat, p: seq<nat>, x: nat)
    requires 2 <= |path| <= 4 && Live(m, table, |path| - 1, reserved)
    requires i != path[0] && IsTable(Entry(m, table, i)) && |p| < |path| - 1
    requires TableAt(m, Address(Entry(m, table, i)), p).Some?
    ensures var t := TableAt(m, Address(Entry(m, table, i)), p).value;
            Entry(Insert(m, table, path, reserved), t, x) == Entry(m, t, x)
  {
    hide IsTable, Address, IsReserved;
    var t := TableAt(m, Address(Entry(m, table, i)), p).value;
    var d := Entry(m, table, path[0]);
    RootUnreserved(m, table, |path| - 1, reserved);
    Elsewhere(m, table, |path| - 1, reserved, i, p, path[0], []);
    if IsTable(d) {
      LiveChild(m, table, |path| - 1, reserved, path[0]);
      RootUnreserved(m, Address(d), |path| - 2, reserved);
      forall k | 0 <= k < |path| - 1 ensures TableAt(m, Address(d), path[1..][..k]) != Some(t) {
        Elsewhere(m, table, |path| - 1, reserved, i, p, path[0], path[1..][..k]);
      }
      InsertFrame(m, Address(d), path[1..], reserved, t, x);
    } else {
      MissingFrame(m, table, path, reserved, t, x);
    }
  }

  /** What the walk finds below a missing entry once its table has been supplied. */
  lemma MissingResolves(m: Memory, table: nat, path: seq<nat>, reserved: nat, q: seq<nat>)
    requires 2 <= |path| <= 4 && |q| == |path| && q[0] == path[0] && Placed(reserved)
    requires !IsReserved(reserved, table) && !IsTable(Entry(m, table, path[0]))
    ensures Resolve(Insert(m, table, path, reserved), table, q)
         == if q == path then Some(Leaf(DEVICE_PAGE, 1)) else None
  {
    var m1, next := Supplied(m, table, path, reserved), ReservedFor(reserved, path);
    assert next == FreshTable(reserved, path[1..]);
    MissingFrame(m, table, path, reserved, table, path[0]);
    ReservedPlaced(reserved, path);
    assert table != next;
    SuppliedBlank(m, table, path, reserved);
    FreshResolves(m1, path[1..], reserved, q[1..]);
    assert q == [q[0]] + q[1..] && path == [path[0]] + path[1..];
  }

  /** After the insertion the page resolves to the device. */
  lemma {:induction false} InsertedResolves(m: Memory, table: nat, path: seq<nat>, reserved: nat)
    requires 1 <= |path| <= 4 && Placed(reserved) && Live(m, table, |path| - 1, reserved)
    ensures Resolve(Insert(m, table, path, reserved), table, path) == Some(Leaf(DEVICE_PAGE, 1))
    decreases |path|
  {
    if |path| > 1 {
      hide Live, Address, Placed;
      RootUnreserved(m, table, |path| - 1, reserved);
      var d := Entry(m, table, path[0]);
      if IsTable(d) {
        OwnEntryStays(m, table, path, reserved, path[0]);
        LiveChild(m, table, |path| - 1, reserved, path[0]);
        InsertedResolves(m, Address(d), path[1..], reserved);
      } else {
        MissingResolves(m, table, path, reserved, path);
      }
    }
  }

  /** Every other page resolves as before, if no block lies on the way. */
  lemma {:induction false} OthersUnchanged(m: Memory, table: nat, path: seq<nat>, reserved: nat, q: seq<nat>)
    requires 1 <= |path| <= 4 && |q| == |path| && q != path
    requires Placed(reserved) && Live(m, table, |path| - 1, reserved) && !HasBlock(m, table, path)
    ensures Resolve(Insert(m, table, path, reserved), table, q) == Resolve(m, table, q)
    decreases |path|
  {
    hide Live, Address, Placed, IsReserved;
    if |path| == 1 {
      assert q[0] != path[0];
    } else {
      RootUnreserved(m, table, |path| - 1, reserved);
      assert q == [q[0]] + q[1..] && path == [path[0]] + path[1..];
      if q[0] != path[0] {
        OwnEntryStays(m, table, path, reserved, q[0]);
        if IsTable(Entry(m, table, q[0])) {
          SiblingStays(m, table, path, reserved, q);
        }
      } else if IsTable(Entry(m, table, path[0])) {
        OwnEntryStays(m, table, path, reserved, path[0]);
        LiveChild(m, table, |path| - 1, reserved, path[0]);
        OthersUnchanged(m, Address(Entry(m, table, path[0])), path[1..], reserved, q[1..]);
      } else {
        MissingResolves(m, table, path, reserved, q);
      }
    }
  }

  /** A block on the way is lost: the page's neighbour resolved through it and no longer resolves. */
  lemma {:induction false} BlockIsLost(m: Memory, table: nat, path: seq<nat>, reserved: nat, q: seq<nat>)
    requires 1 <= |path| <= 4 && |q| == |path| && q != path && q[..|q| - 1] == path[..|path| - 1]
    requires Placed(reserved) && Live(m, table, |path| - 1, reserved) && HasBlock(m, table, path)
    ensures Resolve(m, table, q).Some? && Resolve(Insert(m, table, path, reserved), table, q).None?
    decreases |path|
  {
    hide Live, Address, Placed, IsReserved;
    RootUnreserved(m, table, |path| - 1, reserved);
    assert q[0] == q[..|q| - 1][0] == path[0];
    assert q == [q[0]] + q[1..] && path == [path[0]] + path[1..];
    if IsTable(Entry(m, table, path[0])) {
      OwnEntryStays(m, table, path, reserved, path[0]);
      LiveChild(m, table, |path| - 1, reserved, path[0]);
      assert q[1..][..|q| - 2] == q[..|q| - 1][1..] && path[1..][..|path| - 2] == path[..|path| - 1][1..];
      BlockIsLost(m, Address(Entry(m, table, path[0])), path[1..], reserved, q[1..]);
    } else {
      MissingResolves(m, table, path, reserved, q);
    }
  }

  /* ----- The device page ----- */

  /**
   * The descriptor field by field: a page, attributes of index 2, read and written at the higher level only, outer
   * shareable, accessed, at 0x0900_0000, executable at neither level, and nothing else.
   */
  predicate DescribesDevice(d: nat) {
    && d % 0x4 == 3                                  // bits 1:0
    && d / 0x4 % 0x8 == 2                            // bits 4:2, attribute index
    && d / 0x20 % 0x2 == 0                           // bit 5
    && d / 0x40 % 0x4 == 0                           // bits 7:6, access permissions
    && d / 0x100 % 0x4 == 2                          // bits 9:8, shareability
    && d / 0x400 % 0x2 == 1                          // bit 10, access flag
    && d / 0x800 % 0x2 == 0                          // bit 11
    && d / 0x1000 % 0x10_0000_0000 == 0x0900_0000 / 0x1000 // bits 47:12, output address
    && d / 0x1_0000_0000_0000 % 0x20 == 0            // bits 52:48
    && d / 0x20_0000_0000_0000 % 0x2 == 1            // bit 53, never executed at the higher level
    && d / 0x40_0000_0000_0000 % 0x2 == 1            // bit 54, never executed at the lower level
    && d / 0x80_0000_0000_0000 == 0                  // bits 63:55
  }

  lemma DevicePageDescribesDevice()
    ensures DescribesDevice(DEVICE_PAGE)
  {
  }

  lemma DeviceIndices()
    ensures Indices(0xffff_fffd_0900_0000) == [511, 500, 72, 0]
  {
    var va := 0xffff_fffd_0900_0000;
    assert va / 0x80_0000_0000 == 0x1ff_ffff && va / 0x4000_0000 == 0x3_ffff_fff4;
    assert va / 0x20_0000 == 0x7ff_ffff_e848 && va / PAGE == 0xf_ffff_ffd0_9000;
  }

  /** With live tables that form a tree apart from the reserved ones, the serial port's page leads to the device. */
  lemma DevicePageMapped(m: Memory, root: nat, reserved: nat)
    requires Placed(reserved) && Live(m, root, 3, reserved)
    ensures var leaf := Resolve(Insert(m, root, Indices(UART_VIRTUAL), reserved), root, [511, 500, 72, 0]);
            leaf.Some? && DescribesDevice(leaf.value.descriptor) && leaf.value.levelsLeft == 1
  {
    hide Live, Placed, Insert, Resolve, DescribesDevice;
    InsertedResolves(m, root, Indices(UART_VIRTUAL), reserved);
    DevicePageDescribesDevice();
    DeviceIndices();
  }

  /* ----- What the walk is ----- */

  /** Bits 47:39, 38:30, 29:21 and 20:12 of the address. */
  lemma IndicesSpell(va: nat)
    ensures var i := Indices(va);
            && |i| == 4 && (forall k <- i :: k < 512)
            && va % 0x1_0000_0000_0000
               == 0x80_0000_0000 * i[0] + 0x4000_0000 * i[1] + 0x20_0000 * i[2] + 0x1000 * i[3] + va % 0x1000
  {
    var a := va % 0x1_0000_0000_0000;
    assert va / 0x80_0000_0000 % 512 == a / 0x80_0000_0000;
    SplitAt(va, 0x4000_0000);
    SplitAt(va, 0x20_0000);
    SplitAt(va, 0x1000);
  }

  lemma SplitAt(va: nat, unit: nat)
    requires unit == 0x4000_0000 || unit == 0x20_0000 || unit == 0x1000
    ensures va % (512 * unit) == unit * (va / unit % 512) + va % unit
  {
  }

  lemma AddressSpells(d: nat)
    ensures Address(d) % 0x1000 == 0 && d % 0x1_0000_0000_0000 == Address(d) + d % 0x1000
  {
    var q, a := d / 0x1_0000_0000_0000, d % 0x1_0000_0000_0000;
    assert d == 0x1000 * (0x10_0000_0000 * q + a / 0x1000) + a % 0x1000;
  }

  /** The entry is a table descriptor of the next table. */
  predicate PointsTo(m: Memory, table: nat, index: nat, next: nat) {
    var d := Entry(m, table, index);
    d % 4 == 3 && next == d % 0x1_0000_0000_0000 - d % 0x1000
  }

  /** The tables that the leading indices go through. */
  predicate Leads(m: Memory, tables: seq<nat>, path: seq<nat>)
    requires |tables| <= |path|
  {
    forall i | 0 <= i < |tables| - 1 :: PointsTo(m, tables[i], path[i], tables[i + 1])
  }

  /** The walk ends in the entry of the last table: a page at the last level, a block at level 1 or 2. */
  ghost predicate EndsIn(m: Memory, table: nat, path: seq<nat>, tables: seq<nat>, leaf: Leaf) {
    && 1 <= |tables| <= |path| && tables[0] == table && Leads(m, tables, path)
    && leaf.descriptor == Entry(m, tables[|tables| - 1], path[|tables| - 1])
    && leaf.levelsLeft == |path| + 1 - |tables|
    && (if leaf.levelsLeft == 1 then leaf.descriptor % 4 == 3
        else leaf.descriptor % 4 == 1 && leaf.levelsLeft <= 3)
  }

  /** The walk of four levels ends exactly where the tables lead. */
  lemma {:induction false} ResolvesIff(m: Memory, table: nat, path: seq<nat>, leaf: Leaf)
    requires 1 <= |path| <= 4
    ensures Resolve(m, table, path) == Some(leaf) <==> exists tables :: EndsIn(m, table, path, tables, leaf)
    decreases |path|
  {
    var d := Entry(m, table, path[0]);
    AddressSpells(d);
    if Resolve(m, table, path) == Some(leaf) {
      if |path| > 1 && IsTable(d) {
        ResolvesIff(m, Address(d), path[1..], leaf);
        var rest :| EndsIn(m, Address(d), path[1..], rest, leaf);
        LeadsOn(m, table, path, rest, leaf);
      } else {
        assert EndsIn(m, table, path, [table], leaf);
      }
    }
    forall tables | EndsIn(m, table, path, tables, leaf) ensures Resolve(m, table, path) == Some(leaf) {
      if |tables| > 1 {
        LeadsOff(m, table, path, tables, leaf);
        ResolvesIff(m, Address(d), path[1..], leaf);
      }
    }
  }

  lemma LeadsOn(m: Memory, table: nat, path: seq<nat>, rest: seq<nat>, leaf: Leaf)
    requires |path| > 1 && IsTable(Entry(m, table, path[0]))
    requires EndsIn(m, Address(Entry(m, table, path[0])), path[1..], rest, leaf)
    ensures EndsIn(m, table, path, [table] + rest, leaf)
  {
    var tables := [table] + rest;
    AddressSpells(Entry(m, table, path[0]));
    assert PointsTo(m, table, path[0], rest[0]);
    hide Address, Entry, PointsTo;
    forall i | 0 <= i < |tables| - 1 ensures PointsTo(m, tables[i], path[i], tables[i + 1]) {
      if i > 0 {
        assert PointsTo(m, rest[i - 1], path[1..][i - 1], rest[i]);
      }
    }
  }

  lemma LeadsOff(m: Memory, table: nat, path: seq<nat>, tables: seq<nat>, leaf: Leaf)
    requires |path| > 1 && |tables| > 1 && EndsIn(m, table, path, tables, leaf)
    ensures IsTable(Entry(m, table, path[0]))
    ensures EndsIn(m, Address(Entry(m, table, path[0])), path[1..], tables[1..], leaf)
  {
    var rest := tables[1..];
    AddressSpells(Entry(m, table, path[0]));
    assert PointsTo(m, tables[0], path[0], tables[1]);
    hide Address, Entry, PointsTo;
    forall i | 0 <= i < |rest| - 1 ensures PointsTo(m, rest[i], path[1..][i], rest[i + 1]) {
      assert PointsTo(m, tables[i + 1], path[i + 1], tables[i + 2]);
    }
  }

  /** The first missing level is supplied by the reserved table of that level. */
  lemma {:induction false} SuppliedAt(m: Memory, table: nat, path: seq<nat>, reserved: nat, k: nat, t: nat)
    requires 2 <= |path| <= 4 && k < |path| - 1 && Placed(reserved) && Live(m, table, |path| - 1, reserved)
    requires TableAt(m, table, path[..k]) == Some(t) && Entry(m, t, path[k]) % 4 != 3
    ensures Entry(Insert(m, table, path, reserved), t, path[k]) == reserved + (4 - |path| + k) * 0x1000 + 3
    decreases |path|
  {
    hide Address, Live;
    RootUnreserved(m, table, |path| - 1, reserved);
    if k == 0 {
      MissingFrame(m, table, path, reserved, table, path[0]);
      AlignedDescriptor(ReservedFor(reserved, path));
    } else {
      assert path[..k] == [path[0]] + path[1..][..k - 1];
      TableAtCons(m, table, path[0], path[1..][..k - 1]);
      LiveChild(m, table, |path| - 1, reserved, path[0]);
      SuppliedAt(m, Address(Entry(m, table, path[0])), path[1..], reserved, k - 1, t);
    }
  }

  lemma AlignedDescriptor(address: nat)
    ensures address % 0x1000 == 0 ==> TableDescriptor(address) == address + 3
  {
    var k := address / 0x1000;
    assert address % 0x1000 == 0 ==> address == 4 * (0x400 * k);
  }

  /** The indices of some page. */
  predicate IsPage(q: seq<nat>) {
    |q| == 4 && forall i <- q :: i < ENTRIES
  }

  /** Every other page is left alone exactly when no block descriptor lies on the serial port's path. */
  lemma OtherPagesKeptIff(m: Memory, root: nat, reserved: nat)
    requires Placed(reserved) && Live(m, root, 3, reserved)
    ensures var uart := Indices(UART_VIRTUAL);
            var m' := Insert(m, root, uart, reserved);
            (forall q: seq<nat> | IsPage(q) && q != uart :: Resolve(m', root, q) == Resolve(m, root, q))
            <==> !HasBlock(m, root, uart)
  {
    hide Live, Placed, Insert, Resolve, HasBlock, Indices;
    var uart := Indices(UART_VIRTUAL);
    UartIndices();
    var m' := Insert(m, root, uart, reserved);
    if HasBlock(m, root, uart) {
      var q := uart[..3] + [uart[3] + 1];
      assert q[..3] == uart[..3] && q[3] != uart[3];
      assert forall i <- uart[..3] :: i in uart;
      BlockIsLost(m, root, uart, reserved, q);
    } else {
      forall q: seq<nat> | IsPage(q) && q != uart ensures Resolve(m', root, q) == Resolve(m, root, q) {
        OthersUnchanged(m, root, uart, reserved, q);
      }
    }
  }

  lemma UartIndices()
    ensures IsPage(Indices(UART_VIRTUAL)) && Indices(UART_VIRTUAL)[3] == 0
  {
  }
}
