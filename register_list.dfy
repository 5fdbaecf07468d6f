/**
 * `RegisterList` of validate_yaml.py: the builder that collects general registers,
 * cell registers and coils, each list kept sorted, and expands and checks the layout.
 * Every method is proved to change the object as the matching function of module
 * Layouts changes a `Layout` value.
 */
module RegisterLists {
  import opened Options
  import opened ValueTypes
  import opened Registers
  import opened Layouts

  /** The per-register record of `register_to_dict`. */
  datatype Details = Details(
    name: string,
    address: int,
    arraySize: int,
    typeName: string,
    description: string,
    unit: Option<string>,
    hardwareSupportRegister: Option<int>)

  function DetailsOf(r: Register): Details {
    Details(r.name, r.address, r.valueType.dimension, Name(r.valueType.baseType),
            r.description, r.unit, r.hardwareSupportRegister)
  }

  /** The dict comprehension over the general registers: later entries overwrite earlier ones. */
  function RegisterMap(regs: seq<Register>): (m: map<string, Details>)
    ensures forall i :: 0 <= i < |regs| ==> regs[i].name in m
    ensures forall name :: name in m ==> exists i :: 0 <= i < |regs| && regs[i].name == name && m[name] == DetailsOf(regs[i])
  {
    if regs == [] then map[]
    else
      var prefix := regs[..|regs| - 1];
      var last := regs[|regs| - 1];
      var m := RegisterMap(prefix)[last.name := DetailsOf(last)];
      assert forall i :: 0 <= i < |prefix| ==> prefix[i] == regs[i];
      m
  }

  /** The entry kept for a name is that of its last register with that name. */
  lemma {:induction false} LastDuplicateWins(regs: seq<Register>, i: int)
    requires 0 <= i < |regs|
    requires forall j :: i < j < |regs| ==> regs[j].name != regs[i].name
    ensures RegisterMap(regs)[regs[i].name] == DetailsOf(regs[i])
  {
    if i < |regs| - 1 {
      var prefix := regs[..|regs| - 1];
      assert prefix[i] == regs[i];
      forall j | i < j < |prefix| ensures prefix[j].name != prefix[i].name {
        assert prefix[j] == regs[j];
      }
      LastDuplicateWins(prefix, i);
    }
  }

  /** What `register_to_dict` returns: the version and the general registers by name. */
  datatype Export = Export(version: Option<string>, registers: map<string, Details>)

  class RegisterList {
    var generalRegisters: seq<Register>
    var cellRegisters: seq<Register>
    var coils: seq<Coil>
    var cellStartAddress: Option<int>
    /** The document's version, kept as its text. */
    var version: Option<string>

    /** The state the methods act on, as a value. */
    function State(): Layout
      reads this
    {
      Layout(generalRegisters, cellRegisters, coils, cellStartAddress)
    }

    /** Every list stays sorted by its key. */
    ghost predicate Valid()
      reads this
    {
      Sorted(State())
    }

    constructor ()
      ensures State() == EmptyLayout && version == None
      ensures Valid()
    {
      generalRegisters := [];
      cellRegisters := [];
      coils := [];
      cellStartAddress := None;
      version := None;
    }

    /** `next_address`: 0 on an empty list, otherwise above every general address. */
    function NextAddress(): (r: int)
      reads this
      ensures generalRegisters == [] ==> r == 0
      ensures Valid() ==> forall i :: 0 <= i < |generalRegisters| ==> generalRegisters[i].address < r
    {
      NextFree(generalRegisters)
    }

    /** `next_cell_address`: the same on the cell offsets. */
    function NextCellAddress(): (r: int)
      reads this
      ensures cellRegisters == [] ==> r == 0
      ensures Valid() ==> forall i :: 0 <= i < |cellRegisters| ==> cellRegisters[i].address < r
    {
      NextFree(cellRegisters)
    }

    /** `next_coil`: 0 with no coils, otherwise above every coil index. */
    function NextCoil(): (r: int)
      reads this
      ensures coils == [] ==> r == 0
      ensures Valid() ==> forall i :: 0 <= i < |coils| ==> coils[i].address < r
    {
      Registers.NextCoil(coils)
    }

    /** `add_register`: always OK; the general list and the coils take the new entry. */
    method AddRegister(name: string, valueType: ValueType, address: Address,
                       unit: Option<string> := None, hardwareSupportRegister: Option<Address> := None,
                       description: string := "")
      returns (result: Status)
      requires Valid()
      modifies this
      ensures Valid()
      ensures State() == WithRegister(old(State()), Entry(name, valueType, address, unit, hardwareSupportRegister, description))
      ensures version == old(version)
      ensures result == Ok
    {
      var a := if address.Auto? then NextAddress() else address.value;
      var h: Option<int> := None;
      if hardwareSupportRegister.Some? {
        h := Some(if hardwareSupportRegister.value.Auto? then NextCoil() else hardwareSupportRegister.value.value);
      }
      var reg := Register(name, valueType, a, unit, h, description);
      ghost var before := State();
      ghost var after := WithRegister(before, Entry(name, valueType, address, unit, hardwareSupportRegister, description));
      assert reg == Resolved(Entry(name, valueType, address, unit, hardwareSupportRegister, description),
                             NextFree(before.general), Registers.NextCoil(before.coils));
      generalRegisters := InsertSorted(generalRegisters, reg, AddressOf);
      if h.Some? {
        coils := InsertSorted(coils, Coil(a, h.value), IndexOf);
      }
      assert State() == after;
      return Ok;
    }

    /** `add_cell_registers`: the same on the cell list; the offset is relative to the cell start. */
    method AddCellRegisters(name: string, valueType: ValueType, offset: Address,
                            unit: Option<string> := None, hardwareSupportRegister: Option<Address> := None,
                            description: string := "")
      returns (result: Status)
      requires Valid()
      modifies this
      ensures Valid()
      ensures State() == WithCellRegister(old(State()), Entry(name, valueType, offset, unit, hardwareSupportRegister, description))
      ensures version == old(version)
      ensures result == Ok
    {
      var a := if offset.Auto? then NextCellAddress() else offset.value;
      var h: Option<int> := None;
      if hardwareSupportRegister.Some? {
        h := Some(if hardwareSupportRegister.value.Auto? then NextCoil() else hardwareSupportRegister.value.value);
      }
      var reg := Register(name, valueType, a, unit, h, description);
      ghost var before := State();
      ghost var after := WithCellRegister(before, Entry(name, valueType, offset, unit, hardwareSupportRegister, description));
      assert reg == Resolved(Entry(name, valueType, offset, unit, hardwareSupportRegister, description),
                             NextFree(before.cells), Registers.NextCoil(before.coils));
      cellRegisters := InsertSorted(cellRegisters, reg, AddressOf);
      if h.Some? {
        coils := InsertSorted(coils, Coil(a, h.value), IndexOf);
      }
      assert State() == after;
      return Ok;
    }

    /** `set_cell_start_address`: `"auto"` or an integer is stored; anything else is an error. */
    method SetCellStartAddress(address: AddressArg) returns (result: Status)
      modifies this
      ensures (State(), result) == WithCellStart(old(State()), address)
      ensures version == old(version)
    {
      var a := address;
      if a.Auto? {
        a := At(NextAddress());
      }
      if a.At? {
        cellStartAddress := Some(a.value);
        return Ok;
      }
      return Error;
    }

    /** `get_all_registers`: fixes the cell start if unset, then expands the cell block. */
    method GetAllRegisters(numberOfCells: int := 2) returns (all: seq<Register>)
      modifies this
      ensures State() == WithDefaultCellStart(old(State()))
      ensures version == old(version)
      ensures all == AllRegisters(old(State()), numberOfCells)
    {
      if cellStartAddress.None? {
        cellStartAddress := Some(NextAddress());
      }
      all := Expand(generalRegisters, cellRegisters, cellStartAddress.value, numberOfCells);
    }

    /** `validate_address_overlaps`: the register pass over the expansion, then the coil pass. */
    method ValidateAddressOverlaps(numberOfCells: int := 49) returns (result: Status)
      modifies this
      ensures State() == WithDefaultCellStart(old(State()))
      ensures version == old(version)
      ensures result == OverlapStatus(old(State()), numberOfCells)
    {
      var testRegisters := GetAllRegisters(numberOfCells);
      var conflict := FirstOverlap(testRegisters);
      if conflict.Some? {
        return Error;
      }
      var coilConflict := FirstCoilBelow(coils);
      if coilConflict.Some? {
        return Error;
      }
      return Ok;
    }

    /** `register_to_dict`: the version and the general registers keyed by name. */
    function RegisterToDict(): (d: Export)
      reads this
      ensures d.version == version
      ensures forall i :: 0 <= i < |generalRegisters| ==> generalRegisters[i].name in d.registers
      ensures forall name :: name in d.registers ==>
        exists i :: 0 <= i < |generalRegisters| && generalRegisters[i].name == name
          && d.registers[name] == DetailsOf(generalRegisters[i])
    {
      Export(version, RegisterMap(generalRegisters))
    }
  }
}
