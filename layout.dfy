/**
 * The state of a `RegisterList` as a value, and what each of its operations does to
 * that state. The class in register_list.dfy is proved to follow these functions.
 */
module Layouts {
  import opened Options
  import opened ValueTypes
  import opened Registers

  /** An address argument as a document gives it: `"auto"`, an integer, or anything else. */
  datatype AddressArg = Auto | At(value: int) | Other

  /** What the document schema admits for a register address or coil index. */
  type Address = a: AddressArg | !a.Other? witness Auto

  /** The source's `Result` enum. */
  datatype Status = Ok | Error

  /** The arguments of `add_register` and `add_cell_registers`. */
  datatype Entry = Entry(
    name: string,
    valueType: ValueType,
    address: Address,
    unit: Option<string>,
    hardwareSupport: Option<Address>,
    description: string)

  /** The general registers, the cell registers (addressed by offset), the coils, the cell start. */
  datatype Layout = Layout(
    general: seq<Register>,
    cells: seq<Register>,
    coils: seq<Coil>,
    cellStart: Option<int>)

  /** A fresh `RegisterList()`. */
  const EmptyLayout := Layout([], [], [], None)

  /** The three lists are sorted: by address, by offset and by coil index. */
  predicate Sorted(l: Layout) {
    SortedBy(l.general, AddressOf) && SortedBy(l.cells, AddressOf) && SortedBy(l.coils, IndexOf)
  }

  /** An `"auto"` address or coil index takes the value computed at call time. */
  function Resolve(a: Address, auto: int): int {
    if a.Auto? then auto else a.value
  }

  function ResolveCoil(h: Option<Address>, auto: int): Option<int> {
    match h
    case None => None
    case Some(a) => Some(Resolve(a, auto))
  }

  /** The register an entry becomes, given the next free address and the next coil. */
  function Resolved(e: Entry, nextAddress: int, nextCoil: int): Register {
    Register(e.name, e.valueType, Resolve(e.address, nextAddress), e.unit,
             ResolveCoil(e.hardwareSupport, nextCoil), e.description)
  }

  /** A register with a hardware-support index adds a coil owned by its (unexpanded) address. */
  function CoilsWith(coils: seq<Coil>, reg: Register): (r: seq<Coil>)
    ensures SortedBy(coils, IndexOf) ==> SortedBy(r, IndexOf)
  {
    match reg.hardwareSupportRegister
    case None => coils
    case Some(h) => InsertSorted(coils, Coil(reg.address, h), IndexOf)
  }

  /** `add_register`: resolve `"auto"`, insert into the general list, record the coil. */
  function WithRegister(l: Layout, e: Entry): (r: Layout)
    ensures |r.general| == |l.general| + 1 && r.cells == l.cells && r.cellStart == l.cellStart
    ensures |r.coils| == |l.coils| + (if e.hardwareSupport.Some? then 1 else 0)
    ensures Sorted(l) ==> Sorted(r)
  {
    var reg := Resolved(e, NextFree(l.general), NextCoil(l.coils));
    l.(general := InsertSorted(l.general, reg, AddressOf), coils := CoilsWith(l.coils, reg))
  }

  /** `add_cell_registers`: the same on the cell list (addresses are offsets); the coil counter is shared. */
  function WithCellRegister(l: Layout, e: Entry): (r: Layout)
    ensures |r.cells| == |l.cells| + 1 && r.general == l.general && r.cellStart == l.cellStart
    ensures |r.coils| == |l.coils| + (if e.hardwareSupport.Some? then 1 else 0)
    ensures Sorted(l) ==> Sorted(r)
  {
    var reg := Resolved(e, NextFree(l.cells), NextCoil(l.coils));
    l.(cells := InsertSorted(l.cells, reg, AddressOf), coils := CoilsWith(l.coils, reg))
  }

  /** `set_cell_start_address`: `"auto"` takes the next general address, an integer is stored, anything else is refused. */
  function WithCellStart(l: Layout, arg: AddressArg): (r: (Layout, Status))
    ensures r.1 == Ok <==> !arg.Other?
    ensures r.1 == Error ==> r.0 == l
    ensures r.0.general == l.general && r.0.cells == l.cells && r.0.coils == l.coils
    ensures arg.Auto? ==> r.0.cellStart == Some(NextFree(l.general))
    ensures arg.At? ==> r.0.cellStart == Some(arg.value)
  {
    match arg
    case Auto => (l.(cellStart := Some(NextFree(l.general))), Ok)
    case At(v) => (l.(cellStart := Some(v)), Ok)
    case Other => (l, Error)
  }

  /** The cell start `get_all_registers` uses: the stored one, or the next general address when none was set. */
  function EffectiveCellStart(l: Layout): int {
    if l.cellStart.Some? then l.cellStart.value else NextFree(l.general)
  }

  // ----- what adding a register does -----

  /**
   * `add_register` puts exactly the resolved register into the general list, at its
   * stable-sorted place, leaves the cell list alone, and adds a coil exactly when a
   * hardware-support index is given.
   */
  lemma AddRegisterEffect(l: Layout, e: Entry)
    requires Sorted(l)
    ensures var reg := Resolved(e, NextFree(l.general), NextCoil(l.coils));
      var r := WithRegister(l, e);
      var k := InsertionPoint(l.general, reg, AddressOf);
      r.general == l.general[..k] + [reg] + l.general[k..]
      && (forall i :: 0 <= i < k ==> l.general[i].address <= reg.address)
      && (forall i :: k <= i < |l.general| ==> reg.address < l.general[i].address)
      && r.cells == l.cells && r.cellStart == l.cellStart
      && (e.hardwareSupport.None? <==> r.coils == l.coils)
      && (e.hardwareSupport.Some? ==>
            r.coils == InsertSorted(l.coils, Coil(reg.address, reg.hardwareSupportRegister.value), IndexOf))
  {
    var reg := Resolved(e, NextFree(l.general), NextCoil(l.coils));
    InsertSortedIsStable(l.general, reg, AddressOf);
  }

  /** `add_cell_registers` does the same on the cell list and leaves the general list alone. */
  lemma AddCellRegisterEffect(l: Layout, e: Entry)
    requires Sorted(l)
    ensures var reg := Resolved(e, NextFree(l.cells), NextCoil(l.coils));
      var r := WithCellRegister(l, e);
      var k := InsertionPoint(l.cells, reg, AddressOf);
      r.cells == l.cells[..k] + [reg] + l.cells[k..]
      && (forall i :: 0 <= i < k ==> l.cells[i].address <= reg.address)
      && (forall i :: k <= i < |l.cells| ==> reg.address < l.cells[i].address)
      && r.general == l.general && r.cellStart == l.cellStart
      && (e.hardwareSupport.None? <==> r.coils == l.coils)
      && (e.hardwareSupport.Some? ==>
            r.coils == InsertSorted(l.coils, Coil(reg.address, reg.hardwareSupportRegister.value), IndexOf))
  {
    var reg := Resolved(e, NextFree(l.cells), NextCoil(l.coils));
    InsertSortedIsStable(l.cells, reg, AddressOf);
  }

  /**
   * An `"auto"` address is computed from the list's highest entry at call time: 0 on an
   * empty list, otherwise above every address present, so the new register is placed last.
   */
  lemma AutoAddressGoesLast(l: Layout, e: Entry)
    requires Sorted(l) && e.address == Auto
    ensures var reg := Resolved(e, NextFree(l.general), NextCoil(l.coils));
      (l.general == [] ==> reg.address == 0)
      && (forall i :: 0 <= i < |l.general| ==> l.general[i].address < reg.address)
      && WithRegister(l, e).general == l.general + [reg]
  {
    var reg := Resolved(e, NextFree(l.general), NextCoil(l.coils));
    InsertSortedIsStable(l.general, reg, AddressOf);
    var k := InsertionPoint(l.general, reg, AddressOf);
    assert k == |l.general|;
  }

  /**
   * A register added at or above every general address is the last of the list, so the
   * next `"auto"` address is its end, even when an earlier register shares its address.
   */
  lemma NextFreeFollowsNewest(l: Layout, e: Entry)
    requires Sorted(l)
    requires forall i :: 0 <= i < |l.general| ==>
      l.general[i].address <= Resolve(e.address, NextFree(l.general))
    ensures NextFree(WithRegister(l, e).general) == End(Resolved(e, NextFree(l.general), NextCoil(l.coils)))
  {
    var reg := Resolved(e, NextFree(l.general), NextCoil(l.coils));
    InsertLast(l.general, reg, AddressOf);
  }

  /** The cell counter is separate from the general one: an `"auto"` offset starts at 0. */
  lemma AutoOffsetGoesLast(l: Layout, e: Entry)
    requires Sorted(l) && e.address == Auto
    ensures var reg := Resolved(e, NextFree(l.cells), NextCoil(l.coils));
      (l.cells == [] ==> reg.address == 0)
      && (forall i :: 0 <= i < |l.cells| ==> l.cells[i].address < reg.address)
      && WithCellRegister(l, e).cells == l.cells + [reg]
  {
    var reg := Resolved(e, NextFree(l.cells), NextCoil(l.coils));
    InsertSortedIsStable(l.cells, reg, AddressOf);
    var k := InsertionPoint(l.cells, reg, AddressOf);
    assert k == |l.cells|;
  }

  /**
   * An `"auto"` coil index is 0 with no coils, otherwise above every index present, so
   * the new coil goes last; general and cell registers draw on the same counter.
   */
  lemma AutoCoilGoesLast(l: Layout, e: Entry)
    requires Sorted(l) && e.hardwareSupport == Some(Auto)
    ensures var h := NextCoil(l.coils);
      (l.coils == [] ==> h == 0)
      && (forall i :: 0 <= i < |l.coils| ==> l.coils[i].address < h)
      && Resolved(e, NextFree(l.general), h).hardwareSupportRegister == Some(h)
      && WithRegister(l, e).coils == l.coils + [Coil(Resolve(e.address, NextFree(l.general)), h)]
      && WithCellRegister(l, e).coils == l.coils + [Coil(Resolve(e.address, NextFree(l.cells)), h)]
  {
    var h := NextCoil(l.coils);
    InsertLast(l.coils, Coil(Resolve(e.address, NextFree(l.general)), h), IndexOf);
    InsertLast(l.coils, Coil(Resolve(e.address, NextFree(l.cells)), h), IndexOf);
  }

  // ----- get_all_registers and validate_address_overlaps on the state -----

  /** What `get_all_registers(n)` returns. */
  function AllRegisters(l: Layout, n: int): seq<Register> {
    Expansion(l.general, l.cells, EffectiveCellStart(l), Count(n))
  }

  /** `get_all_registers` stores the cell start it used when none was set. */
  function WithDefaultCellStart(l: Layout): (r: Layout)
    ensures r.general == l.general && r.cells == l.cells && r.coils == l.coils
    ensures l.cellStart.Some? ==> r == l
    ensures l.cellStart.None? ==> r.cellStart == Some(NextFree(l.general))
  {
    l.(cellStart := Some(EffectiveCellStart(l)))
  }

  /** The coil pass finds no adjacent pair with a descending index. */
  predicate CoilsAscending(coils: seq<Coil>) {
    forall i :: 1 <= i < |coils| ==> !CoilBelowAt(coils, i)
  }

  /** What `validate_address_overlaps(n)` returns. */
  function OverlapStatus(l: Layout, n: int): Status {
    if NonOverlapping(AllRegisters(l, n)) && CoilsAscending(l.coils) then Ok else Error
  }

  /**
   * On the builder's sorted state the coil pass never reports anything, so the check
   * succeeds exactly when no two emitted registers share an address, the later one
   * starting at or after the end of every earlier one.
   */
  lemma OverlapStatusMeaning(l: Layout, n: int)
    requires Sorted(l)
    ensures var all := AllRegisters(l, n);
      OverlapStatus(l, n) == Ok <==>
        forall i, j :: 0 <= i < j < |all| ==> End(all[i]) <= all[j].address
  {
    var all := AllRegisters(l, n);
    SortedCoilsPass(l.coils);
    if NonOverlapping(all) {
      forall i, j | 0 <= i < j < |all| ensures End(all[i]) <= all[j].address {
        NonOverlappingIsDisjoint(all, i, j);
      }
    } else {
      var k :| 1 <= k < |all| && OverlapAt(all, k);
      assert all[k].address < End(all[k - 1]);
    }
  }

  /**
   * When no cell offset is positive the stride is 0, so with two or more copies the
   * last cell of copy 1 and the first cell of copy 2 collide and the check fails.
   */
  lemma ZeroStrideOverlaps(l: Layout, n: int)
    requires Sorted(l) && l.cells != [] && n >= 2
    requires forall i :: 0 <= i < |l.cells| ==> l.cells[i].address <= 0
    ensures Stride(l.cells) == 0
    ensures OverlapStatus(l, n) == Error
  {
    var all := AllRegisters(l, n);
    var g, c := |l.general|, |l.cells|;
    ExpansionAt(l.general, l.cells, EffectiveCellStart(l), Count(n));
    var k := Slot(g, c, 2, 0);
    assert Slot(g, c, 1, c - 1) == k - 1;
    assert all[k - 1] == CellCopy(l.cells[c - 1], 1, EffectiveCellStart(l), 0);
    assert all[k] == CellCopy(l.cells[0], 2, EffectiveCellStart(l), 0);
    assert AddressOf(l.cells[0]) <= AddressOf(l.cells[c - 1]);
    NoIncreaseConflicts(all, k);
  }
  /**
   * The register pass compares neighbours in emitted order, general registers first: when
   * the first cell copy starts below the end of the last general register, the check fails,
   * whether or not the two address ranges overlap.
   */
  lemma CellsBelowGeneralFail(l: Layout, n: int)
    requires l.general != [] && l.cells != [] && n >= 1
    requires l.cells[0].address + EffectiveCellStart(l) < End(l.general[|l.general| - 1])
    ensures OverlapStatus(l, n) == Error
  {
    var all := AllRegisters(l, n);
    var g := |l.general|;
    ExpansionAt(l.general, l.cells, EffectiveCellStart(l), Count(n));
    assert Slot(g, |l.cells|, 1, 0) == g;
    assert all[g] == CellCopy(l.cells[0], 1, EffectiveCellStart(l), Stride(l.cells));
    assert all[g - 1] == all[..g][g - 1] == l.general[g - 1];
    assert OverlapAt(all, g);
  }

}
