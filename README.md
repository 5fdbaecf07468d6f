# Register layout of validate_yaml.py

This project models the register layout engine of `validate_yaml.py` in Dafny. The script
reads a YAML description of a Modbus-style register map. It checks the description against
a JSON schema. Then it builds a `RegisterList`:

- general registers, each at a fixed or an `"auto"` address;
- a block of cell registers, placed at offsets from a cell start address and repeated
  once per cell;
- coils ("hardware-support registers"), each tied to a register.

Finally it checks that every register of the repeated layout starts at or after the end of
every register emitted before it.

The model covers:

- **Value types** (module `ValueTypes`, file `value_type.dfy`): the base types and their bit
  widths, the dimension check, the bit and 16-bit register counts, the printed form, and
  the type-string parser (`from_str`), including its regular expression. Module `Decimal`
  (`decimal.dfy`) holds the decimal digit strings used for dimensions and copy numbers.
- **Registers and coils** (module `Registers`, `registers.dfy`): the stable sorted insert
  that `append` followed by `sort(key=...)` performs, the `"auto"` address and coil
  counters, the stride of the cell block (the first loop of `get_all_registers`), the
  expansion into numbered copies, and the two passes of `validate_address_overlaps`.
- **The builder state as a value** (module `Layouts`, `layout.dfy`): one function per
  `RegisterList` operation on a `Layout` value, with the lemmas about it.
- **The builder object** (module `RegisterLists`, `register_list.dfy`): class
  `RegisterList`, whose fields are updated in place by methods proved to change them
  exactly as the `Layouts` functions say; `register_to_dict` is a function of the fields.
- **`generate_registers`** (module `Generation`, `generation.dfy`): the two loops over an
  already-loaded, schema-checked document. They are proved against `Build`, the function
  that names the layout the loops leave or the first parser error they raise.
- **Worked instances** (`value_type_examples.dfy`, `layout_examples.dfy`): concrete type
  strings and layouts. They show the behaviours listed below that a reader might not expect.

### Behaviour as the code has it

Where the code and its own comments or documentation disagree, the model follows the code:

- `bool` is 1 bit in the bit-size table, although the class comment says 8.
- `int64` and `uint64` exist as base types but are not in the parser's pattern, so
  `from_str` refuses them.
- `Type[N][M]` is mentioned in the class comment, but the pattern accepts at most one
  dimension.
- The stride of the cell block uses only offsets strictly greater than a running maximum
  that starts at 0. If every offset is 0, the stride is 0 and all copies land on the same
  addresses, which the overlap check then reports.
- `"auto"` is the end of the *last* register in address order, not the furthest end. A
  long register followed by a short one at a higher address leaves an automatic address
  inside the long register.
- The coil pass of `validate_address_overlaps` runs over the coil list, which is always
  sorted by index, so it never reports anything. Duplicate coil indices pass.
- Names are not checked for duplicates. In `register_to_dict` the last register of a name
  wins.
- `get_all_registers` stores the cell start it computes when none was set.
- `generate_registers` ignores the status `set_cell_start_address` returns.
- Expanded cell copies carry no description.
- The overlap check compares neighbours in emitted order, general registers first. A
  cell block placed below the general registers fails it even when no ranges overlap.

## Model

| member | source | states |
|---|---|---|
| ValueTypes.Name | validate_yaml.py:14-26 | The text of each base type. No contract of its own: `ValueTypes.PatternNamesPrefixFree` and `ValueTypes.MatchKindUnique` state how the parser tells the names apart |
| ValueTypes.BitSize | validate_yaml.py:42-55 | The bit-size table, with `bool` at 1 bit. No contract of its own: `ValueTypes.TotalBits` and `ValueTypes.RegistersRequired` state what is built on it, and `ValueTypeExamples.RegisterCountExamples` gives instances |
| ValueTypes.New | validate_yaml.py:57-67 | A value type is built exactly when the dimension is at least 1; it keeps the base type and dimension; otherwise the result is the dimension error, which, like the source's fixed message, carries no value |
| ValueTypes.TotalBits | validate_yaml.py:69-71 | The bit count of a type is at least its dimension (every base type has at least one bit) |
| ValueTypes.RegistersRequired | validate_yaml.py:73-75 | The register count is the ceiling of bits over 16: the smallest r with 16·r ≥ bits, and at least 1 |
| ValueTypes.ToString | validate_yaml.py:77-86 | The printed form begins with the kind name and is exactly that name when the dimension is 1; `ValueTypes.RoundTrip` states that parsing it gives the value back |
| ValueTypes.FromStr | validate_yaml.py:88-107 | A parsed type has a kind of the pattern whose name begins the string; a failure is the invalid-string error or the dimension error. `ValueTypes.InvalidIffUnmatched`, `ValueTypes.ParseAccepted` and `ValueTypes.RoundTrip` state the rest |
| ValueTypes.MatchKind | validate_yaml.py:100-101 | The kind found is one of the pattern's kinds and begins the string; when none is found, no kind begins it |
| ValueTypes.PatternNamesPrefixFree | validate_yaml.py:100 | No kind name of the pattern is a prefix of another, so the alternation picks one base type at most |
| ValueTypes.MatchKindUnique | validate_yaml.py:100-101 | A string that begins with a pattern kind's name matches that kind and no other |
| ValueTypes.FromStrAfter | validate_yaml.py:100-107 | A string that starts with a kind name is parsed according to what follows that name |
| ValueTypes.ParseAccepted | validate_yaml.py:100-107 | Every spelling the pattern accepts (kind, optional bracketed digit group) parses to that kind with dimension 1 or the group's decimal value, through the dimension check |
| ValueTypes.ParseBare | validate_yaml.py:104-107 | A bare kind name parses to that kind with dimension 1 |
| ValueTypes.ParseGroup | validate_yaml.py:104-107 | Kind name plus bracketed digits parses as the constructor does with the digits' decimal value |
| ValueTypes.BadSuffixRefused | validate_yaml.py:100-103 | Any non-empty suffix after a kind name that is not `[digits]` makes the parser refuse the whole string |
| ValueTypes.AcceptedMatches | validate_yaml.py:100-103 | A string not refused as invalid matches the pattern: a kind followed by nothing or one bracketed digit group |
| ValueTypes.InvalidIffUnmatched | validate_yaml.py:100-103 | The parser reports an invalid type string exactly when the string does not match the pattern |
| ValueTypes.RoundTrip | validate_yaml.py:77-107 | Parsing the printed form of a value type whose kind is in the pattern gives the same value type back |
| ValueTypes.ZeroPaddedDimension | validate_yaml.py:104-107 | Leading zeros in the dimension are ignored, as `int()` ignores them |
| Decimal.Value | validate_yaml.py:106 | The number a digit string denotes, as `int()` reads it. No contract of its own: `Decimal.ValueOfFromNat` states it inverts `Decimal.FromNat`, and `ValueTypes.ZeroPaddedDimension` that leading zeros do not count |
| Decimal.FromNat | validate_yaml.py:182 | The decimal text of a number, as an f-string writes it: at least one digit, all digits, and no leading zero unless the number is 0 |
| Decimal.ValueOfFromNat | validate_yaml.py:182 | The decimal text of a number reads back as that number |
| ValueTypeExamples.RegisterCountExamples | validate_yaml.py:42-75 | Concrete counts: char[1..2] → 1, char[3] → 2, int32 → 2, bool and bool[16] → 1, bool[17] → 2, float64[4] → 16 |
| ValueTypeExamples.SixtyFourBitIntegersRefused | validate_yaml.py:100-103 | `int64` and `uint64` are refused as invalid type strings |
| ValueTypeExamples.UnknownKindRefused | validate_yaml.py:100-103 | An unknown kind such as `int99` is refused |
| ValueTypeExamples.UnclosedBracketRefused | validate_yaml.py:100-103 | `char[` is refused |
| ValueTypeExamples.NegativeDimensionRefused | validate_yaml.py:100-103 | `char[-1]` is refused by the pattern, before the dimension check |
| ValueTypeExamples.SecondDimensionRefused | validate_yaml.py:100-103 | `char[10][2]` is refused: only one dimension is accepted |
| ValueTypeExamples.ZeroDimensionRefused | validate_yaml.py:104-107 | `char[0]` passes the pattern and is refused by the dimension check |
| ValueTypeExamples.ZeroPaddedExample | validate_yaml.py:104-107 | `char[007]` is `char` with dimension 7 |
| Registers.InsertionPoint | validate_yaml.py:132-133 | The place where a stable sort puts an appended element: after every element with a key ≤ its key, before the first with a greater key |
| Registers.InsertSorted | validate_yaml.py:132-133 | Appending and re-sorting adds exactly one element and keeps a sorted list sorted |
| Registers.InsertSortedPermutes | validate_yaml.py:132-133 | Appending and re-sorting is a permutation of the old list plus the new element |
| Registers.InsertSortedIsStable | validate_yaml.py:132-133 | The new element goes after every element with an equal or smaller key and before every element with a larger key, with the old elements in their old order |
| Registers.InsertLast | validate_yaml.py:132-133 | An element whose key no existing key exceeds is placed at the end |
| Registers.NextFree | validate_yaml.py:138-141 | The automatic address is 0 on an empty list; on a sorted list it is above every address and equals the end of the last of the highest-addressed registers, the latest added among ties (`Layouts.NextFreeFollowsNewest`) |
| Registers.NextCoil | validate_yaml.py:142-145 | The automatic coil index is 0 with no coils; on a sorted coil list it is above every index and one past the highest |
| Registers.MaxOffset | validate_yaml.py:173-178 | The running maximum is non-negative, bounds every offset, and is an offset present when positive |
| Registers.FirstAt | validate_yaml.py:175-178 | The first cell at a given offset, the one the loop keeps, since only a strictly larger offset replaces it |
| Registers.Stride | validate_yaml.py:173-179 | The stride is non-negative, and it is 0 when no cell offset is positive |
| Registers.CellStride | validate_yaml.py:173-179 | The loop computes the stride: the end of the first cell at the largest positive offset, or 0 |
| Registers.CellCopy | validate_yaml.py:182 | One copy of a cell register. No contract of its own: `Registers.ExpansionAt` states where each copy lands, its name with " i", its address moved by start + (i−1)·stride, and no description |
| Registers.Blocks | validate_yaml.py:180-182 | Copies 1 to n of the cell block in order. No contract of its own: `Registers.ExpansionAt` states its length and contents, and `Registers.BlocksPrefix` that fewer copies give a prefix |
| Registers.Expansion | validate_yaml.py:171-182 | The general registers followed by the copies. No contract of its own: `Registers.ExpansionAt` characterises it index by index, and `Registers.Expand` is proved to compute it |
| Registers.ExpansionAt | validate_yaml.py:171-183 | The expansion has the general registers first, then n·|cells| copies; copy i of cell j is at its own slot, renamed with " i" and moved by start + (i−1)·stride |
| Registers.ExpansionOfNoCopies | validate_yaml.py:180-183 | With no cells requested the expansion is the general list alone |
| Registers.BlocksPrefix | validate_yaml.py:180-182 | The copies for m cells are a prefix of the copies for any n ≥ m |
| Registers.Expand | validate_yaml.py:171-183 | The nested loops emit exactly the expansion for the number of cells (none when it is below 1) |
| Registers.FirstOverlap | validate_yaml.py:186-191 | The register pass finds a conflict exactly when some register starts before the end of its predecessor, and returns the first such position |
| Registers.FirstCoilBelow | validate_yaml.py:192-197 | The coil pass finds a conflict exactly when some coil index is below its predecessor's, and returns the first |
| Registers.SortedCoilsPass | validate_yaml.py:192-197 | On a coil list sorted by index the coil pass finds nothing |
| Registers.NoIncreaseConflicts | validate_yaml.py:189 | A register that does not start above its predecessor always conflicts, since every type takes at least one register |
| Registers.NonOverlappingIsDisjoint | validate_yaml.py:186-191 | When no neighbours conflict, every register ends at or before the start of every later one |
| Registers.FewerCopiesStayDisjoint | validate_yaml.py:180-191 | A layout free of conflicts with n cells is free of them with any fewer cells |
| Layouts.Resolved | validate_yaml.py:128-132 | The register built from an entry, with `"auto"` replaced by the next address and the next coil index. No contract of its own: `Layouts.AutoAddressGoesLast`, `Layouts.AutoOffsetGoesLast` and `Layouts.AutoCoilGoesLast` state what the replaced values are |
| Layouts.CoilsWith | validate_yaml.py:134-136 | Recording a register's coil keeps the coil list sorted by index |
| Layouts.WithRegister | validate_yaml.py:127-137 | Adding a register adds one general register, and one coil exactly when a hardware-support index is given; it leaves the cells and the cell start alone and keeps every list sorted |
| Layouts.WithCellRegister | validate_yaml.py:150-160 | Adding a cell register does the same on the cell list and leaves the general list alone |
| Layouts.WithCellStart | validate_yaml.py:161-167 | Setting the cell start succeeds exactly for `"auto"` or an integer; `"auto"` means the next general address; on error nothing changes; the register lists never change |
| Layouts.WithDefaultCellStart | validate_yaml.py:168-170 | Expanding stores the next general address as cell start when none was set and changes nothing else |
| Layouts.AddRegisterEffect | validate_yaml.py:127-137 | The resolved register goes into the general list at its stable sorted place; the coil list changes exactly when a hardware-support index is given |
| Layouts.AddCellRegisterEffect | validate_yaml.py:150-160 | The same for a cell register, whose offset is resolved against the cell list |
| Layouts.AutoAddressGoesLast | validate_yaml.py:127-141 | An `"auto"` address is 0 on an empty list, otherwise above every existing address, and the register is appended at the end |
| Layouts.AutoOffsetGoesLast | validate_yaml.py:146-156 | An `"auto"` cell offset is counted on the cell list alone, starts at 0, and goes last |
| Layouts.AutoCoilGoesLast | validate_yaml.py:130-158 | An `"auto"` coil index is 0 or above every existing index and the coil goes last; general and cell registers share this counter |
| Layouts.NextFreeFollowsNewest | validate_yaml.py:132-141 | A register added at or above every general address becomes the last of the list, so the next automatic address is its end, even when an earlier register shares its address |
| Layouts.EffectiveCellStart | validate_yaml.py:169-170 | The cell start the expansion uses: the stored one, or the next general address. No contract of its own: `Layouts.WithDefaultCellStart` states that this is the value stored |
| Layouts.AllRegisters | validate_yaml.py:168-183 | What `get_all_registers` returns on a state. No contract of its own: `RegisterLists.RegisterList.GetAllRegisters` is proved to return it, and `Registers.ExpansionAt` characterises it |
| Layouts.OverlapStatus | validate_yaml.py:184-198 | What `validate_address_overlaps` returns on a state. No contract of its own: `Layouts.OverlapStatusMeaning` states that on the builder's state it is OK exactly when the emitted registers are pairwise disjoint |
| Layouts.OverlapStatusMeaning | validate_yaml.py:184-198 | On the builder's state the check succeeds exactly when every emitted register ends at or before the start of every later one |
| Layouts.ZeroStrideOverlaps | validate_yaml.py:173-191 | With no positive cell offset and two or more cells the stride is 0 and the check fails |
| Layouts.CellsBelowGeneralFail | validate_yaml.py:180-191 | When the first cell copy starts below the end of the last general register the check fails, whether or not the ranges overlap, because neighbours are compared in emitted order |
| RegisterLists.DetailsOf | validate_yaml.py:205-214 | The per-register record of the export. No contract of its own: `RegisterLists.RegisterMap` states which register's record each name maps to |
| RegisterLists.RegisterMap | validate_yaml.py:216-218 | Every register name is a key, and every key maps to the details of a register with that name |
| RegisterLists.LastDuplicateWins | validate_yaml.py:216-218 | For a repeated name the entry kept is that of the last register with that name |
| RegisterLists.RegisterList.constructor | validate_yaml.py:121-126 | A new list is empty, has no cell start and no version |
| RegisterLists.RegisterList.NextAddress | validate_yaml.py:138-141 | 0 on an empty general list, otherwise above every general address |
| RegisterLists.RegisterList.NextCellAddress | validate_yaml.py:146-149 | 0 on an empty cell list, otherwise above every cell offset |
| RegisterLists.RegisterList.NextCoil | validate_yaml.py:142-145 | 0 with no coils, otherwise above every coil index |
| RegisterLists.RegisterList.AddRegister | validate_yaml.py:127-137 | The object changes as `Layouts.WithRegister` says, stays sorted, keeps its version, and the result is OK |
| RegisterLists.RegisterList.AddCellRegisters | validate_yaml.py:150-160 | The object changes as `Layouts.WithCellRegister` says, stays sorted, keeps its version, and the result is OK |
| RegisterLists.RegisterList.SetCellStartAddress | validate_yaml.py:161-167 | The new state and the status are those of `Layouts.WithCellStart` |
| RegisterLists.RegisterList.GetAllRegisters | validate_yaml.py:168-183 | Returns the expansion of the old state and stores the default cell start |
| RegisterLists.RegisterList.ValidateAddressOverlaps | validate_yaml.py:184-198 | Returns the status `Layouts.OverlapStatusMeaning` characterises, with the cell start stored as `get_all_registers` stores it |
| RegisterLists.RegisterList.RegisterToDict | validate_yaml.py:199-223 | The export carries the version and maps every general register's name to the details of a register with that name |
| Generation.EntryOf | validate_yaml.py:250-255 | The name defaults to the key, the address to `"auto"` and the description to empty; the parsed type, the unit and the coil are passed through |
| Generation.AddFields | validate_yaml.py:249-256 | One loop of `generate_registers` on a state. No contract of its own: `Generation.AddFieldsSucceeds`, `Generation.AddFieldsShape` and `Generation.FirstErrorReported` state when it fails, with which error, and what it adds |
| Generation.Build | validate_yaml.py:243-268 | The state `generate_registers` leaves, or its error. No contract of its own: `Generation.BuildShape` and `Generation.GeneralErrorFirst` state its shape and error order, and `Generation.GenerateRegisters` is proved to produce it |
| Generation.AddFieldsSucceeds | validate_yaml.py:249-256 | A loop finishes exactly when every type string in it parses |
| Generation.AddFieldsShape | validate_yaml.py:249-268 | A finished loop adds one register per field to its own list only, one coil per field with a hardware-support index, and keeps every list sorted |
| Generation.FirstErrorReported | validate_yaml.py:249-256 | The error raised is that of the first type string the parser refuses |
| Generation.BuildShape | validate_yaml.py:238-269 | The build succeeds exactly when every type string parses; then it has one register per field, the coils counted, sorted lists, and the cell start fixed after the general loop (the next general address for `"auto"`) |
| Generation.GeneralErrorFirst | validate_yaml.py:246-264 | A refused type string in the general block is reported before anything in the cell block |
| Generation.GenerateRegisters | validate_yaml.py:238-269 | Fails exactly when `Generation.Build` does, with its error; otherwise returns a fresh, sorted list whose state is the build and whose version is the document's |
| LayoutExamples.AutoAddressesExample | validate_yaml.py:127-141 | `uint16` then `int32`, both `"auto"`, land at 0 and 1, and the next free address is 3 |
| LayoutExamples.SharedCoilCounterExample | validate_yaml.py:130-160 | An `"auto"` coil on a cell register takes index 1 after one on a general register |
| LayoutExamples.ZeroOffsetCellExample | validate_yaml.py:168-191 | A single cell at offset 0 repeated three times from 10 puts every copy at 10, and the check fails |
| LayoutExamples.SameAddressExample | validate_yaml.py:184-191 | Two registers at address 5 fail the check |
| LayoutExamples.CellsBelowGeneralExample | validate_yaml.py:180-191 | A `uint16` at 100 and one copy of a `uint16` cell at 0 do not overlap, yet the check fails |
| LayoutExamples.DuplicateCoilExample | validate_yaml.py:192-198 | Two registers sharing coil index 2 pass the check |
| LayoutExamples.AutoInsideEarlierRegisterExample | validate_yaml.py:138-141 | After `char[10]` at 0 and `uint16` at 1 the automatic address is 2, inside the string, which ends at 5 |

## Left out

- File reading, YAML parsing, JSON schema validation, `main`, the messages printed and the process exit: these are I/O. The model takes the document as already loaded and schema-checked.
- The `Version` object: the version is kept as its text, and version parsing is not modelled.
- The printed overlap messages: only the status is modelled, not the message text.
- Regular-expression corner cases of Python's `re`: `$` also matches before a final newline, and `\d` matches non-ASCII digits. The model accepts only ASCII digits and no trailing newline.
- ValueTypes.RegistersRequired: uses the exact integer ceiling. `math.ceil` of a float division is exact only while the bit count stays below 2^53.
- Register addresses, cell offsets, the cell start and coil indices are unbounded integers. Python integers are unbounded too, so nothing wraps.
- A `None` address passed to `add_register`, and address strings other than `"auto"`: the schema excludes them, so the model's `Address` type admits only `"auto"` or an integer.
- Layouts.WithCellStart: models a non-integer argument as one `Other` case. A Python `bool` counts as `int` there and is not modelled separately.
- A field without a `ValueType` key: the schema requires one, and the model's field always has a type string.
- RegisterLists.RegisterList.AddRegister: requires the lists to be sorted (`Valid()`). The source never assigns the lists outside the builder's methods, and those keep them sorted. A client that assigns the public fields directly and leaves them unsorted cannot call this method; the source would re-sort such a list, which the model does not capture.
- RegisterLists.RegisterList.AddCellRegisters: requires the lists to be sorted, for the same reason.
- The unused local `next_coil` of `generate_registers` has no effect and is not modelled.
- RegisterLists.RegisterMap: a Python dict keeps its keys in the order they were first inserted; a Dafny `map` has no order, so the key order of the exported registers is not modelled.
- The dimension error carries no value, and the invalid-string error carries the refused text; the wording of the messages is not modelled.
- The other tools of the repository (documentation generation, firmware code) are not part of this model.
