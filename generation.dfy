/**
 * `generate_registers` of validate_yaml.py: builds a `RegisterList` from a document,
 * general registers first in document order, then the cell start, then the cell
 * registers. The document is given as its fields, already read and schema-checked.
 */
module Generation {
  import opened Options
  import opened ValueTypes
  import opened Registers
  import opened Layouts
  import opened RegisterLists

  /**
   * One entry of `general.registers` or `cells.registers`: its key in the mapping and
   * the fields it may carry (`address` is the `offset` field for a cell register).
   */
  datatype Field = Field(
    key: string,
    name: Option<string>,
    address: Option<Address>,
    valueType: string,
    unit: Option<string>,
    hardwareSupport: Option<Address>,
    description: Option<string>)

  /** The document: its version text, the two register mappings in order, and `cells.address`. */
  datatype Document = Document(
    version: string,
    general: seq<Field>,
    cellsAddress: Option<AddressArg>,
    cells: seq<Field>)

  /** The arguments the loop passes for a field: name defaults to the key, address to `"auto"`. */
  function EntryOf(f: Field, vt: ValueType): (e: Entry)
    ensures e.valueType == vt && e.unit == f.unit && e.hardwareSupport == f.hardwareSupport
    ensures e.name == (if f.name.Some? then f.name.value else f.key)
    ensures e.address == (if f.address.Some? then f.address.value else Auto)
    ensures e.description == (if f.description.Some? then f.description.value else "")
  {
    Entry(f.name.GetOr(f.key), vt, f.address.GetOr(Auto), f.unit, f.hardwareSupport, f.description.GetOr(""))
  }

  /** One iteration: `add_register` for a general field, `add_cell_registers` for a cell field. */
  function Step(l: Layout, e: Entry, cell: bool): Layout {
    if cell then WithCellRegister(l, e) else WithRegister(l, e)
  }

  /** One of the two loops: the first type string `from_str` refuses aborts with its error. */
  function AddFields(l: Layout, fields: seq<Field>, cell: bool): Result<Layout>
    decreases |fields|
  {
    if fields == [] then Success(l)
    else
      match FromStr(fields[0].valueType)
      case Failure(err) => Failure(err)
      case Success(vt) => AddFields(Step(l, EntryOf(fields[0], vt), cell), fields[1..], cell)
  }

  /** The cell start argument: `cells.address`, `"auto"` when absent. */
  function CellsAddress(doc: Document): AddressArg {
    doc.cellsAddress.GetOr(Auto)
  }

  /** The state `generate_registers` leaves, or the error it raises. */
  function Build(doc: Document): Result<Layout> {
    match AddFields(EmptyLayout, doc.general, false)
    case Failure(err) => Failure(err)
    case Success(l) => AddFields(WithCellStart(l, CellsAddress(doc)).0, doc.cells, true)
  }

  /** Every type string of the fields parses. */
  predicate AllTypesParse(fields: seq<Field>) {
    forall i :: 0 <= i < |fields| ==> FromStr(fields[i].valueType).Success?
  }

  /** The number of fields that name a hardware-support register. */
  function CoilCount(fields: seq<Field>): nat {
    if fields == [] then 0
    else (if fields[0].hardwareSupport.Some? then 1 else 0) + CoilCount(fields[1..])
  }

  /** A loop fails exactly when one of its type strings is refused. */
  lemma {:induction false} AddFieldsSucceeds(l: Layout, fields: seq<Field>, cell: bool)
    ensures AddFields(l, fields, cell).Success? <==> AllTypesParse(fields)
    decreases |fields|
  {
    if fields != [] {
      var tail := fields[1..];
      assert forall i :: 0 <= i < |tail| ==> tail[i] == fields[i + 1];
      match FromStr(fields[0].valueType)
      case Failure(err) =>
      case Success(vt) =>
        AddFieldsSucceeds(Step(l, EntryOf(fields[0], vt), cell), tail, cell);
        if AllTypesParse(tail) {
          forall i | 0 <= i < |fields| ensures FromStr(fields[i].valueType).Success? {
            if i > 0 {
              assert fields[i] == tail[i - 1];
            }
          }
        }
    }
  }

  /**
   * A loop that succeeds adds one register per field to its own list, nothing to the
   * other, one coil per hardware-support index, and keeps every list sorted.
   */
  lemma {:induction false} AddFieldsShape(l: Layout, fields: seq<Field>, cell: bool)
    ensures var r := AddFields(l, fields, cell);
      r.Success? ==>
        r.value.cellStart == l.cellStart
        && |r.value.coils| == |l.coils| + CoilCount(fields)
        && (cell ==> r.value.general == l.general && |r.value.cells| == |l.cells| + |fields|)
        && (!cell ==> r.value.cells == l.cells && |r.value.general| == |l.general| + |fields|)
        && (Sorted(l) ==> Sorted(r.value))
    decreases |fields|
  {
    if fields != [] {
      match FromStr(fields[0].valueType)
      case Failure(err) =>
      case Success(vt) =>
        var next := Step(l, EntryOf(fields[0], vt), cell);
        assert AddFields(l, fields, cell) == AddFields(next, fields[1..], cell);
        AddFieldsShape(next, fields[1..], cell);
    }
  }

  /** The error raised is that of the first refused type string. */
  lemma {:induction false} FirstErrorReported(l: Layout, fields: seq<Field>, cell: bool, k: int)
    requires 0 <= k < |fields| && FromStr(fields[k].valueType).Failure?
    requires forall i :: 0 <= i < k ==> FromStr(fields[i].valueType).Success?
    ensures AddFields(l, fields, cell) == Failure(FromStr(fields[k].valueType).error)
    decreases k
  {
    if k > 0 {
      var tail := fields[1..];
      var vt := FromStr(fields[0].valueType).value;
      forall i | 0 <= i < k - 1 ensures FromStr(tail[i].valueType).Success? {
        assert tail[i] == fields[i + 1];
      }
      assert tail[k - 1] == fields[k];
      var next := Step(l, EntryOf(fields[0], vt), cell);
      assert AddFields(l, fields, cell) == AddFields(next, tail, cell);
      FirstErrorReported(next, tail, cell, k - 1);
    }
  }

  /**
   * The shape of a built layout: as many general and cell registers as fields, one
   * coil per hardware-support index, sorted lists, and the cell start fixed between
   * the two loops, so that `"auto"` is the address after the whole general block.
   */
  lemma BuildShape(doc: Document)
    ensures Build(doc).Success? <==> AllTypesParse(doc.general) && AllTypesParse(doc.cells)
    ensures var r := Build(doc);
      r.Success? ==>
        |r.value.general| == |doc.general| && |r.value.cells| == |doc.cells|
        && |r.value.coils| == CoilCount(doc.general) + CoilCount(doc.cells)
        && Sorted(r.value)
        && (CellsAddress(doc).Auto? ==> r.value.cellStart == Some(NextFree(r.value.general)))
        && (CellsAddress(doc).At? ==> r.value.cellStart == Some(CellsAddress(doc).value))
        && (CellsAddress(doc).Other? ==> r.value.cellStart == None)
  {
    AddFieldsSucceeds(EmptyLayout, doc.general, false);
    AddFieldsShape(EmptyLayout, doc.general, false);
    var g := AddFields(EmptyLayout, doc.general, false);
    if g.Success? {
      AddFieldsSucceeds(WithCellStart(g.value, CellsAddress(doc)).0, doc.cells, true);
      AddFieldsShape(WithCellStart(g.value, CellsAddress(doc)).0, doc.cells, true);
    }
  }

  /** A refused type string in the general block wins over one in the cell block. */
  lemma GeneralErrorFirst(doc: Document, k: int)
    requires 0 <= k < |doc.general| && FromStr(doc.general[k].valueType).Failure?
    requires forall i :: 0 <= i < k ==> FromStr(doc.general[i].valueType).Success?
    ensures Build(doc) == Failure(FromStr(doc.general[k].valueType).error)
  {
    FirstErrorReported(EmptyLayout, doc.general, false, k);
  }

  /** `generate_registers`: raises the parser's error, or returns the filled register list. */
  method GenerateRegisters(doc: Document) returns (result: Result<RegisterList>)
    ensures result.Failure? <==> Build(doc).Failure?
    ensures result.Failure? ==> result.error == Build(doc).error
    ensures result.Success? ==>
      fresh(result.value) && result.value.Valid()
      && result.value.State() == Build(doc).value
      && result.value.version == Some(doc.version)
  {
    var registers := new RegisterList();
    registers.version := Some(doc.version);

    var i := 0;
    while i < |doc.general|
      invariant 0 <= i <= |doc.general|
      invariant fresh(registers) && registers.Valid() && registers.version == Some(doc.version)
      invariant AddFields(EmptyLayout, doc.general, false) == AddFields(registers.State(), doc.general[i..], false)
    {
      var reg := doc.general[i];
      assert doc.general[i..][1..] == doc.general[i + 1..];
      var vt := FromStr(reg.valueType);
      if vt.Failure? {
        return Failure(vt.error);
      }
      var _ := registers.AddRegister(reg.name.GetOr(reg.key), vt.value, reg.address.GetOr(Auto),
                                     reg.unit, reg.hardwareSupport, reg.description.GetOr(""));
      i := i + 1;
    }

    var _ := registers.SetCellStartAddress(CellsAddress(doc));

    i := 0;
    while i < |doc.cells|
      invariant 0 <= i <= |doc.cells|
      invariant fresh(registers) && registers.Valid() && registers.version == Some(doc.version)
      invariant Build(doc) == AddFields(registers.State(), doc.cells[i..], true)
    {
      var reg := doc.cells[i];
      assert doc.cells[i..][1..] == doc.cells[i + 1..];
      var vt := FromStr(reg.valueType);
      if vt.Failure? {
        return Failure(vt.error);
      }
      var _ := registers.AddCellRegisters(reg.name.GetOr(reg.key), vt.value, reg.address.GetOr(Auto),
                                          reg.unit, reg.hardwareSupport, reg.description.GetOr(""));
      i := i + 1;
    }
    return Success(registers);
  }
}
