/**
 * `Register` and `Coil` of validate_yaml.py and the list algorithms `RegisterList`
 * runs over them: re-sorting after an append, the next free address and coil,
 * the stride of the repeating cell block, the expansion of that block, and the
 * adjacent-pair overlap scans.
 */
module Registers {
  import opened Options
  import opened Decimal
  import opened ValueTypes

  /** One named field: a value type at a word address (an offset, for a cell register). */
  datatype Register = Register(
    name: string,
    valueType: ValueType,
    address: int,
    unit: Option<string>,
    hardwareSupportRegister: Option<int>,
    description: string)

  /** A hardware-support flag: the coil `address` belongs to the register at `parentAddress`. */
  datatype Coil = Coil(parentAddress: int, address: int)

  /** `value_type.registers_required()` of a register. */
  function Size(r: Register): nat {
    RegistersRequired(r.valueType)
  }

  /** The first address after the register's range. */
  function End(r: Register): int {
    r.address + Size(r)
  }

  /** The sort keys: `lambda x: x.address` on registers and on coils. */
  function AddressOf(r: Register): int { r.address }
  function IndexOf(c: Coil): int { c.address }

  predicate SortedBy<T>(s: seq<T>, key: T -> int) {
    forall i, j :: 0 <= i < j < |s| ==> key(s[i]) <= key(s[j])
  }

  // ----- list.append(x) followed by list.sort(key=key) on a sorted list -----

  /** Where a stable sort puts an element appended to a sorted list: before the first greater key. */
  function InsertionPoint<T>(s: seq<T>, x: T, key: T -> int): (k: nat)
    ensures k <= |s|
    ensures forall i :: 0 <= i < k ==> key(s[i]) <= key(x)
    ensures k < |s| ==> key(x) < key(s[k])
  {
    if s == [] || key(x) < key(s[0]) then 0 else 1 + InsertionPoint(s[1..], x, key)
  }

  /** `s.append(x); s.sort(key=key)` when `s` is already sorted. */
  function InsertSorted<T>(s: seq<T>, x: T, key: T -> int): (r: seq<T>)
    ensures |r| == |s| + 1
    ensures SortedBy(s, key) ==> SortedBy(r, key)
  {
    var k := InsertionPoint(s, x, key);
    SortedAround(s, x, key, k);
    s[..k] + [x] + s[k..]
  }

  /** The elements of `s` with `x` inserted at `k`. */
  lemma InsertedAt<T>(s: seq<T>, x: T, k: nat)
    requires k <= |s|
    ensures forall i :: 0 <= i < |s| + 1 ==>
      (s[..k] + [x] + s[k..])[i] == if i < k then s[i] else if i == k then x else s[i - 1]
  {
  }

  /** Inserting before the first greater key keeps a sorted list sorted. */
  lemma SortedAround<T>(s: seq<T>, x: T, key: T -> int, k: nat)
    requires k <= |s|
    requires forall i :: 0 <= i < k ==> key(s[i]) <= key(x)
    requires k < |s| ==> key(x) < key(s[k])
    ensures SortedBy(s, key) ==> SortedBy(s[..k] + [x] + s[k..], key)
  {
    if SortedBy(s, key) {
      var r := s[..k] + [x] + s[k..];
      InsertedAt(s, x, k);
      forall i, j | 0 <= i < j < |r| ensures key(r[i]) <= key(r[j]) {
        if i == k {
          assert key(s[k]) <= key(s[j - 1]);
        }
      }
    }
  }

  /** The sort only reorders: the result holds the old elements and the new one. */
  lemma InsertSortedPermutes<T>(s: seq<T>, x: T, key: T -> int)
    ensures multiset(InsertSorted(s, x, key)) == multiset(s) + multiset{x}
  {
    var k := InsertionPoint(s, x, key);
    assert s == s[..k] + s[k..];
  }

  /** An element whose key is not below any present goes last. */
  lemma InsertLast<T>(s: seq<T>, x: T, key: T -> int)
    requires forall i :: 0 <= i < |s| ==> key(s[i]) <= key(x)
    ensures InsertSorted(s, x, key) == s + [x]
  {
    assert InsertionPoint(s, x, key) == |s|;
    assert s[..|s|] == s;
  }

  /**
   * Python's sort is stable: the element appended to a sorted list lands after every
   * element whose key is not greater and before every greater one, and the old
   * elements keep their order.
   */
  lemma InsertSortedIsStable<T>(s: seq<T>, x: T, key: T -> int)
    requires SortedBy(s, key)
    ensures var k := InsertionPoint(s, x, key);
      InsertSorted(s, x, key) == s[..k] + [x] + s[k..]
      && (forall i :: 0 <= i < k ==> key(s[i]) <= key(x))
      && (forall i :: k <= i < |s| ==> key(x) < key(s[i]))
  {
    var k := InsertionPoint(s, x, key);
    forall i | k <= i < |s| ensures key(x) < key(s[i]) {
      assert key(s[k]) <= key(s[i]);
    }
  }

  // ----- next_address, next_cell_address, next_coil -----

  /**
   * The "auto" address of a register list: 0 when empty, else the end of its last,
   * that is its highest-addressed, entry.
   */
  function NextFree(regs: seq<Register>): (r: int)
    ensures regs == [] ==> r == 0
    ensures SortedBy(regs, AddressOf) ==> forall i :: 0 <= i < |regs| ==> regs[i].address < r
    ensures SortedBy(regs, AddressOf) && regs != [] ==>
      exists i :: 0 <= i < |regs| && r == End(regs[i])
        && forall j :: 0 <= j < |regs| ==> regs[j].address <= regs[i].address
  {
    if regs == [] then 0 else End(regs[|regs| - 1])
  }

  /** The "auto" coil index: 0 when there are no coils, else one past the highest index. */
  function NextCoil(coils: seq<Coil>): (r: int)
    ensures coils == [] ==> r == 0
    ensures SortedBy(coils, IndexOf) ==> forall i :: 0 <= i < |coils| ==> coils[i].address < r
    ensures SortedBy(coils, IndexOf) && coils != [] ==>
      exists i :: 0 <= i < |coils| && r == coils[i].address + 1
        && forall j :: 0 <= j < |coils| ==> coils[j].address <= coils[i].address
  {
    if coils == [] then 0 else coils[|coils| - 1].address + 1
  }

  // ----- the stride of the cell block -----

  /** The largest cell offset, or 0 when no offset is positive. */
  function MaxOffset(cells: seq<Register>): (m: int)
    ensures m >= 0
    ensures forall i :: 0 <= i < |cells| ==> cells[i].address <= m
    ensures m > 0 ==> exists i :: 0 <= i < |cells| && cells[i].address == m
  {
    if cells == [] then 0
    else
      var m := MaxOffset(cells[..|cells| - 1]);
      var a := cells[|cells| - 1].address;
      if a > m then a else m
  }

  /** The first cell at offset `m`. */
  function FirstAt(cells: seq<Register>, m: int): (k: nat)
    requires exists i :: 0 <= i < |cells| && cells[i].address == m
    ensures k < |cells| && cells[k].address == m
    ensures forall i :: 0 <= i < k ==> cells[i].address != m
  {
    if cells[0].address == m then 0
    else
      assert exists i :: 0 <= i < |cells[1..]| && cells[1..][i].address == m by {
        var i :| 0 <= i < |cells| && cells[i].address == m;
        assert cells[1..][i - 1] == cells[i];
      }
      1 + FirstAt(cells[1..], m)
  }

  /**
   * The distance between consecutive cell blocks: the end of the first cell at the
   * largest offset; 0 when no offset is positive, because only offsets strictly
   * greater than the running maximum (which starts at 0) are taken.
   */
  function Stride(cells: seq<Register>): (stride: int)
    ensures stride >= 0
    ensures (forall i :: 0 <= i < |cells| ==> cells[i].address <= 0) ==> stride == 0
  {
    var m := MaxOffset(cells);
    if m == 0 then 0 else End(cells[FirstAt(cells, m)])
  }

  /** A value that bounds every offset, is not negative and is attained when positive is `MaxOffset`. */
  lemma MaxOffsetUnique(cells: seq<Register>, m: int)
    requires m >= 0 && forall i :: 0 <= i < |cells| ==> cells[i].address <= m
    requires m > 0 ==> exists i :: 0 <= i < |cells| && cells[i].address == m
    ensures MaxOffset(cells) == m
  {
    var n := MaxOffset(cells);
    if n > 0 {
      var i :| 0 <= i < |cells| && cells[i].address == n;
    }
    if m > 0 {
      var i :| 0 <= i < |cells| && cells[i].address == m;
    }
  }

  /** The first loop of `get_all_registers`: the last cell offset and its size, added up. */
  method CellStride(cells: seq<Register>) returns (stride: int)
    ensures stride == Stride(cells)
  {
    var lastCellOffset, lastCellSize := 0, 0;
    ghost var k := 0;
    for i := 0 to |cells|
      invariant lastCellOffset >= 0
      invariant forall j :: 0 <= j < i ==> cells[j].address <= lastCellOffset
      invariant lastCellOffset == 0 ==> lastCellSize == 0
      invariant lastCellOffset > 0 ==>
        k < i && cells[k].address == lastCellOffset && lastCellSize == Size(cells[k])
        && forall j :: 0 <= j < k ==> cells[j].address != lastCellOffset
    {
      var reg := cells[i];
      if reg.address > lastCellOffset {
        lastCellOffset := reg.address;
        lastCellSize := Size(reg);
        k := i;
      }
    }
    MaxOffsetUnique(cells, lastCellOffset);
    stride := lastCellOffset + lastCellSize;
  }

  // ----- the expansion of the cell block -----

  /** Copy `i` (counted from 1) of a cell register: renamed, moved, description dropped. */
  function CellCopy(c: Register, i: nat, start: int, stride: int): Register {
    Register(c.name + " " + FromNat(i), c.valueType, c.address + start + (i - 1) * stride,
             c.unit, c.hardwareSupportRegister, "")
  }

  /** Copy `i` of the whole cell block. */
  function Block(cells: seq<Register>, i: nat, start: int, stride: int): seq<Register> {
    seq(|cells|, j requires 0 <= j < |cells| => CellCopy(cells[j], i, start, stride))
  }

  /** Copies 1 to `n` of the cell block, in order. */
  function Blocks(cells: seq<Register>, n: nat, start: int, stride: int): seq<Register> {
    if n == 0 then [] else Blocks(cells, n - 1, start, stride) + Block(cells, n, start, stride)
  }

  /** The general registers followed by `n` copies of the cell block starting at `start`. */
  function Expansion(general: seq<Register>, cells: seq<Register>, start: int, n: nat): seq<Register> {
    general + Blocks(cells, n, start, Stride(cells))
  }

  /** The position of cell `j` of copy `i` after `g` general registers. */
  function Slot(g: nat, c: nat, i: nat, j: nat): nat
    requires i >= 1
  {
    g + (i - 1) * c + j
  }

  /** `range(1, n + 1)` is empty for every `n` below 1. */
  function Count(n: int): nat {
    if n > 0 then n else 0
  }

  lemma {:induction false} BlocksLength(cells: seq<Register>, n: nat, start: int, stride: int)
    ensures |Blocks(cells, n, start, stride)| == n * |cells|
  {
    if n > 0 {
      BlocksLength(cells, n - 1, start, stride);
      assert n * |cells| == (n - 1) * |cells| + |cells|;
    }
  }

  lemma {:induction false} BlocksAt(cells: seq<Register>, n: nat, start: int, stride: int, i: nat, j: nat)
    requires 1 <= i <= n && j < |cells|
    ensures Slot(0, |cells|, i, j) < |Blocks(cells, n, start, stride)|
    ensures Blocks(cells, n, start, stride)[Slot(0, |cells|, i, j)] == CellCopy(cells[j], i, start, stride)
  {
    var prev := Blocks(cells, n - 1, start, stride);
    BlocksLength(cells, n - 1, start, stride);
    if i < n {
      BlocksAt(cells, n - 1, start, stride, i, j);
    } else {
      assert Slot(0, |cells|, i, j) == |prev| + j;
    }
  }

  lemma CopyAt(general: seq<Register>, cells: seq<Register>, start: int, stride: int, n: nat, i: nat, j: nat)
    requires 1 <= i <= n && j < |cells|
    ensures Slot(|general|, |cells|, i, j) < |general + Blocks(cells, n, start, stride)|
    ensures (general + Blocks(cells, n, start, stride))[Slot(|general|, |cells|, i, j)]
      == CellCopy(cells[j], i, start, stride)
  {
    var blocks := Blocks(cells, n, start, stride);
    BlocksAt(cells, n, start, stride, i, j);
    var k := Slot(0, |cells|, i, j);
    assert Slot(|general|, |cells|, i, j) == |general| + k;
    assert (general + blocks)[|general| + k] == blocks[k];
  }

  /**
   * `get_all_registers`: the general registers, unchanged, then for each copy `i`
   * from 1 to `n` each cell register, moved to `offset + start + (i - 1) * stride`.
   */
  lemma ExpansionAt(general: seq<Register>, cells: seq<Register>, start: int, n: nat)
    ensures |Expansion(general, cells, start, n)| == |general| + n * |cells|
    ensures Expansion(general, cells, start, n)[..|general|] == general
    ensures forall i, j :: 1 <= i <= n && 0 <= j < |cells| ==>
      Slot(|general|, |cells|, i, j) < |Expansion(general, cells, start, n)|
      && Expansion(general, cells, start, n)[Slot(|general|, |cells|, i, j)]
        == CellCopy(cells[j], i, start, Stride(cells))
  {
    var stride := Stride(cells);
    var all := Expansion(general, cells, start, n);
    assert all == general + Blocks(cells, n, start, stride);
    BlocksLength(cells, n, start, stride);
    assert all[..|general|] == general;
    forall i, j | 1 <= i <= n && 0 <= j < |cells|
      ensures Slot(|general|, |cells|, i, j) < |all|
      ensures all[Slot(|general|, |cells|, i, j)] == CellCopy(cells[j], i, start, stride)
    {
      CopyAt(general, cells, start, stride, n, i, j);
    }
  }

  /** No cell copies: the expansion is the general list. */
  lemma ExpansionOfNoCopies(general: seq<Register>, cells: seq<Register>, start: int)
    ensures Expansion(general, cells, start, 0) == general
  {
  }

  /** Fewer copies give a prefix of the expansion. */
  lemma {:induction false} BlocksPrefix(cells: seq<Register>, m: nat, n: nat, start: int, stride: int)
    requires m <= n
    ensures Blocks(cells, m, start, stride) <= Blocks(cells, n, start, stride)
    decreases n
  {
    if m < n {
      BlocksPrefix(cells, m, n - 1, start, stride);
    }
  }

  /** The loops of `get_all_registers` after the stride: extend, then one append per copy. */
  method Expand(general: seq<Register>, cells: seq<Register>, start: int, numberOfCells: int)
    returns (all: seq<Register>)
    ensures all == Expansion(general, cells, start, Count(numberOfCells))
  {
    var stride := CellStride(cells);
    all := general;
    var i := 1;
    while i <= numberOfCells
      invariant 1 <= i <= Count(numberOfCells) + 1
      invariant all == general + Blocks(cells, i - 1, start, stride)
    {
      ghost var block := Block(cells, i, start, stride);
      for j := 0 to |cells|
        invariant all == general + Blocks(cells, i - 1, start, stride) + block[..j]
      {
        assert block[..j + 1] == block[..j] + [block[j]];
        all := all + [CellCopy(cells[j], i, start, stride)];
      }
      assert block[..|cells|] == block;
      i := i + 1;
    }
  }

  // ----- the overlap scans of validate_address_overlaps -----

  /** The register at `i` starts inside the range of the one before it. */
  predicate OverlapAt(regs: seq<Register>, i: int)
    requires 1 <= i < |regs|
  {
    regs[i].address < End(regs[i - 1])
  }

  predicate NonOverlapping(regs: seq<Register>) {
    forall i :: 1 <= i < |regs| ==> !OverlapAt(regs, i)
  }

  /** The register pass: the position of the first overlapping adjacent pair, if any. */
  method FirstOverlap(regs: seq<Register>) returns (conflict: Option<nat>)
    ensures conflict.None? <==> NonOverlapping(regs)
    ensures conflict.Some? ==>
      1 <= conflict.value < |regs| && OverlapAt(regs, conflict.value)
      && forall i :: 1 <= i < conflict.value ==> !OverlapAt(regs, i)
  {
    var i := 1;
    while i < |regs|
      invariant 1 <= i
      invariant forall k :: 1 <= k < i && k < |regs| ==> !OverlapAt(regs, k)
    {
      var prev, current := regs[i - 1], regs[i];
      if current.address < prev.address + Size(prev) {
        assert OverlapAt(regs, i);
        return Some(i);
      }
      i := i + 1;
    }
    return None;
  }

  /** The coil at `i` has a smaller index than the one before it. */
  predicate CoilBelowAt(coils: seq<Coil>, i: int)
    requires 1 <= i < |coils|
  {
    coils[i].address < coils[i - 1].address
  }

  /** The coil pass: the position of the first descending adjacent pair, if any. */
  method FirstCoilBelow(coils: seq<Coil>) returns (conflict: Option<nat>)
    ensures conflict.None? <==> forall i :: 1 <= i < |coils| ==> !CoilBelowAt(coils, i)
    ensures conflict.Some? ==>
      1 <= conflict.value < |coils| && CoilBelowAt(coils, conflict.value)
      && forall i :: 1 <= i < conflict.value ==> !CoilBelowAt(coils, i)
  {
    var i := 1;
    while i < |coils|
      invariant 1 <= i
      invariant forall k :: 1 <= k < i && k < |coils| ==> !CoilBelowAt(coils, k)
    {
      var prev, current := coils[i - 1], coils[i];
      if current.address < prev.address {
        assert CoilBelowAt(coils, i);
        return Some(i);
      }
      i := i + 1;
    }
    return None;
  }

  /** On a list kept sorted by index the coil pass never finds anything, duplicates included. */
  lemma SortedCoilsPass(coils: seq<Coil>)
    requires SortedBy(coils, IndexOf)
    ensures forall i :: 1 <= i < |coils| ==> !CoilBelowAt(coils, i)
  {
    forall i | 1 <= i < |coils| ensures !CoilBelowAt(coils, i) {
      assert IndexOf(coils[i - 1]) <= IndexOf(coils[i]);
    }
  }

  /** A register at or below the address of the one before it always conflicts. */
  lemma NoIncreaseConflicts(regs: seq<Register>, i: int)
    requires 1 <= i < |regs| && regs[i].address <= regs[i - 1].address
    ensures !NonOverlapping(regs)
  {
    assert OverlapAt(regs, i);
  }

  /**
   * The adjacent-pair scan suffices: when no adjacent pair overlaps, every register
   * starts after the end of every earlier one, so no two ranges share an address.
   */
  lemma {:induction false} NonOverlappingIsDisjoint(regs: seq<Register>, i: int, j: int)
    requires NonOverlapping(regs) && 0 <= i < j < |regs|
    ensures End(regs[i]) <= regs[j].address
    decreases j - i
  {
    assert !OverlapAt(regs, j);
    if i < j - 1 {
      NonOverlappingIsDisjoint(regs, i, j - 1);
    }
  }

  /** A conflict-free expansion stays conflict-free with fewer cell copies. */
  lemma FewerCopiesStayDisjoint(general: seq<Register>, cells: seq<Register>, start: int, m: nat, n: nat)
    requires m <= n && NonOverlapping(Expansion(general, cells, start, n))
    ensures NonOverlapping(Expansion(general, cells, start, m))
  {
    var stride := Stride(cells);
    BlocksPrefix(cells, m, n, start, stride);
    var short, long := Expansion(general, cells, start, m), Expansion(general, cells, start, n);
    forall i | 1 <= i < |short| ensures !OverlapAt(short, i) {
      assert short[i] == long[i] && short[i - 1] == long[i - 1];
      assert !OverlapAt(long, i);
    }
  }
}
