/**
 * Concrete layouts that show how the builder resolves addresses, expands cells and
 * checks overlaps. Each step of the builder is taken in a lemma of its own.
 */
module LayoutExamples {
  import opened Options
  import opened ValueTypes
  import opened Registers
  import opened Layouts

  function Plain(name: string, b: BaseType, address: Address): Entry {
    Entry(name, ValueType(b, 1), address, None, None, "")
  }

  function Reg(name: string, b: BaseType, dimension: Dimension, address: int, coil: Option<int>): Register {
    Register(name, ValueType(b, dimension), address, None, coil, "")
  }

  // ----- uint16 then int32, both "auto" -----

  lemma AutoFirst()
    ensures WithRegister(EmptyLayout, Plain("a", UInt16, Auto)) == Layout([Reg("a", UInt16, 1, 0, None)], [], [], None)
  {
    InsertLast([], Reg("a", UInt16, 1, 0, None), AddressOf);
  }

  lemma AutoSecond()
    ensures WithRegister(Layout([Reg("a", UInt16, 1, 0, None)], [], [], None), Plain("b", Int32, Auto))
      == Layout([Reg("a", UInt16, 1, 0, None), Reg("b", Int32, 1, 1, None)], [], [], None)
  {
    var a := Reg("a", UInt16, 1, 0, None);
    assert NextFree([a]) == 1 by {
      assert RegistersRequired(a.valueType) == 1;
    }
    assert Resolved(Plain("b", Int32, Auto), 1, 0) == Reg("b", Int32, 1, 1, None);
    InsertLast([a], Reg("b", Int32, 1, 1, None), AddressOf);
  }

  /** `uint16` then `int32`, both `"auto"`: addresses 0 and 1, and the next free address is 3. */
  lemma AutoAddressesExample()
    ensures var l := WithRegister(WithRegister(EmptyLayout, Plain("a", UInt16, Auto)), Plain("b", Int32, Auto));
      l.general == [Reg("a", UInt16, 1, 0, None), Reg("b", Int32, 1, 1, None)] && NextFree(l.general) == 3
  {
    AutoFirst();
    AutoSecond();
  }

  // ----- one coil counter for both lists -----

  lemma CoilOnGeneral()
    ensures WithRegister(EmptyLayout, Entry("g", ValueType(Bool, 1), Auto, None, Some(Auto), ""))
      == Layout([Reg("g", Bool, 1, 0, Some(0))], [], [Coil(0, 0)], None)
  {
    var e := Entry("g", ValueType(Bool, 1), Auto, None, Some(Auto), "");
    var g := Reg("g", Bool, 1, 0, Some(0));
    assert Resolved(e, 0, 0) == g;
    InsertLast([], g, AddressOf);
    InsertLast([], Coil(0, 0), IndexOf);
    assert CoilsWith([], g) == [Coil(0, 0)];
  }

  lemma CoilOnCell()
    ensures WithCellRegister(Layout([Reg("g", Bool, 1, 0, Some(0))], [], [Coil(0, 0)], None),
                             Entry("c", ValueType(Bool, 1), Auto, None, Some(Auto), ""))
      == Layout([Reg("g", Bool, 1, 0, Some(0))], [Reg("c", Bool, 1, 0, Some(1))], [Coil(0, 0), Coil(0, 1)], None)
  {
    var l := Layout([Reg("g", Bool, 1, 0, Some(0))], [], [Coil(0, 0)], None);
    var e := Entry("c", ValueType(Bool, 1), Auto, None, Some(Auto), "");
    var c := Reg("c", Bool, 1, 0, Some(1));
    assert NextFree(l.cells) == 0 && NextCoil(l.coils) == 1;
    assert Resolved(e, 0, 1) == c;
    InsertLast([], c, AddressOf);
    InsertLast([Coil(0, 0)], Coil(0, 1), IndexOf);
    assert CoilsWith(l.coils, c) == [Coil(0, 0), Coil(0, 1)];
  }

  /** An `"auto"` coil on a cell register follows the one on a general register: indices 0 then 1. */
  lemma SharedCoilCounterExample()
    ensures
      var g := Entry("g", ValueType(Bool, 1), Auto, None, Some(Auto), "");
      var c := Entry("c", ValueType(Bool, 1), Auto, None, Some(Auto), "");
      WithCellRegister(WithRegister(EmptyLayout, g), c).coils == [Coil(0, 0), Coil(0, 1)]
  {
    CoilOnGeneral();
    CoilOnCell();
  }

  // ----- a cell block whose only offset is 0 -----

  lemma ZeroOffsetCopies()
    ensures var v := Reg("v", UInt16, 1, 0, None);
      AllRegisters(Layout([], [v], [], Some(10)), 3)
        == [CellCopy(v, 1, 10, 0), CellCopy(v, 2, 10, 0), CellCopy(v, 3, 10, 0)]
  {
    var v := Reg("v", UInt16, 1, 0, None);
    assert Stride([v]) == 0;
    assert Block([v], 1, 10, 0) == [CellCopy(v, 1, 10, 0)];
    assert Block([v], 2, 10, 0) == [CellCopy(v, 2, 10, 0)];
    assert Block([v], 3, 10, 0) == [CellCopy(v, 3, 10, 0)];
    assert Blocks([v], 1, 10, 0) == [CellCopy(v, 1, 10, 0)];
    assert Blocks([v], 2, 10, 0) == [CellCopy(v, 1, 10, 0), CellCopy(v, 2, 10, 0)];
    assert Blocks([v], 3, 10, 0) == [CellCopy(v, 1, 10, 0), CellCopy(v, 2, 10, 0), CellCopy(v, 3, 10, 0)];
    assert AllRegisters(Layout([], [v], [], Some(10)), 3) == [] + Blocks([v], 3, 10, Stride([v]));
  }

  /**
   * One cell at offset 0 and three copies from start 10: the stride is 0, every copy
   * lands on address 10 and the check fails.
   */
  lemma ZeroOffsetCellExample()
    ensures var l := Layout([], [Reg("v", UInt16, 1, 0, None)], [], Some(10));
      var all := AllRegisters(l, 3);
      |all| == 3 && all[0].address == 10 && all[1].address == 10 && all[2].address == 10
      && OverlapStatus(l, 3) == Error
  {
    ZeroOffsetCopies();
    ZeroOffsetConflict();
  }

  lemma ZeroOffsetConflict()
    ensures var v := Reg("v", UInt16, 1, 0, None);
      var all := [CellCopy(v, 1, 10, 0), CellCopy(v, 2, 10, 0), CellCopy(v, 3, 10, 0)];
      all[0].address == 10 && all[1].address == 10 && all[2].address == 10 && !NonOverlapping(all)
  {
    var v := Reg("v", UInt16, 1, 0, None);
    NoIncreaseConflicts([CellCopy(v, 1, 10, 0), CellCopy(v, 2, 10, 0), CellCopy(v, 3, 10, 0)], 1);
  }

  // ----- two registers at address 5 -----

  lemma FirstAtFive()
    ensures WithRegister(EmptyLayout, Plain("a", UInt16, At(5))) == Layout([Reg("a", UInt16, 1, 5, None)], [], [], None)
  {
    InsertLast([], Reg("a", UInt16, 1, 5, None), AddressOf);
  }

  lemma SecondAtFive()
    ensures WithRegister(Layout([Reg("a", UInt16, 1, 5, None)], [], [], None), Plain("b", UInt16, At(5)))
      == Layout([Reg("a", UInt16, 1, 5, None), Reg("b", UInt16, 1, 5, None)], [], [], None)
  {
    InsertLast([Reg("a", UInt16, 1, 5, None)], Reg("b", UInt16, 1, 5, None), AddressOf);
  }

  /** Two registers at address 5 collide. */
  lemma SameAddressExample()
    ensures
      var l := WithRegister(WithRegister(EmptyLayout, Plain("a", UInt16, At(5))), Plain("b", UInt16, At(5)));
      OverlapStatus(l, 0) == Error
  {
    FirstAtFive();
    SecondAtFive();
    var general := [Reg("a", UInt16, 1, 5, None), Reg("b", UInt16, 1, 5, None)];
    ExpansionOfNoCopies(general, [], NextFree(general));
    NoIncreaseConflicts(general, 1);
  }

  // ----- two registers sharing coil index 2 -----

  lemma FirstWithCoilTwo()
    ensures WithRegister(EmptyLayout, Entry("a", ValueType(UInt16, 1), At(0), None, Some(At(2)), ""))
      == Layout([Reg("a", UInt16, 1, 0, Some(2))], [], [Coil(0, 2)], None)
  {
    var e := Entry("a", ValueType(UInt16, 1), At(0), None, Some(At(2)), "");
    var a := Reg("a", UInt16, 1, 0, Some(2));
    assert Resolved(e, 0, 0) == a;
    InsertLast([], a, AddressOf);
    InsertLast([], Coil(0, 2), IndexOf);
    assert CoilsWith([], a) == [Coil(0, 2)];
  }

  lemma SecondWithCoilTwo()
    ensures WithRegister(Layout([Reg("a", UInt16, 1, 0, Some(2))], [], [Coil(0, 2)], None),
                         Entry("b", ValueType(UInt16, 1), At(1), None, Some(At(2)), ""))
      == Layout([Reg("a", UInt16, 1, 0, Some(2)), Reg("b", UInt16, 1, 1, Some(2))], [], [Coil(0, 2), Coil(1, 2)], None)
  {
    InsertLast([Reg("a", UInt16, 1, 0, Some(2))], Reg("b", UInt16, 1, 1, Some(2)), AddressOf);
    InsertLast([Coil(0, 2)], Coil(1, 2), IndexOf);
  }

  lemma CoilTwoStatus()
    ensures OverlapStatus(Layout([Reg("a", UInt16, 1, 0, Some(2)), Reg("b", UInt16, 1, 1, Some(2))],
                                 [], [Coil(0, 2), Coil(1, 2)], None), 0) == Ok
  {
    var general := [Reg("a", UInt16, 1, 0, Some(2)), Reg("b", UInt16, 1, 1, Some(2))];
    ExpansionOfNoCopies(general, [], NextFree(general));
    assert !OverlapAt(general, 1);
    assert !CoilBelowAt([Coil(0, 2), Coil(1, 2)], 1);
  }

  /** Two registers sharing coil index 2 pass: the coil pass never fires. */
  lemma DuplicateCoilExample()
    ensures
      var a := Entry("a", ValueType(UInt16, 1), At(0), None, Some(At(2)), "");
      var b := Entry("b", ValueType(UInt16, 1), At(1), None, Some(At(2)), "");
      var l := WithRegister(WithRegister(EmptyLayout, a), b);
      l.coils == [Coil(0, 2), Coil(1, 2)] && OverlapStatus(l, 0) == Ok
  {
    FirstWithCoilTwo();
    SecondWithCoilTwo();
    CoilTwoStatus();
  }

  // ----- a cell block below the general registers -----

  lemma CellsBelowGeneralCopies()
    ensures var g := Reg("g", UInt16, 1, 100, None);
      var c := Reg("c", UInt16, 1, 0, None);
      AllRegisters(Layout([g], [c], [], Some(0)), 1) == [g, CellCopy(c, 1, 0, 0)]
  {
    var g := Reg("g", UInt16, 1, 100, None);
    var c := Reg("c", UInt16, 1, 0, None);
    assert Stride([c]) == 0;
    assert Block([c], 1, 0, 0) == [CellCopy(c, 1, 0, 0)];
    assert Blocks([c], 1, 0, 0) == [CellCopy(c, 1, 0, 0)];
    assert AllRegisters(Layout([g], [c], [], Some(0)), 1) == [g] + Blocks([c], 1, 0, Stride([c]));
  }

  /**
   * A `uint16` general register at 100 and one copy of a `uint16` cell at 0: the copy ends
   * at 1, well below 100, so nothing overlaps, yet the check fails.
   */
  lemma CellsBelowGeneralExample()
    ensures
      var g, c := Reg("g", UInt16, 1, 100, None), Reg("c", UInt16, 1, 0, None);
      var l := Layout([g], [c], [], Some(0));
      AllRegisters(l, 1) == [g, CellCopy(c, 1, 0, 0)] && End(CellCopy(c, 1, 0, 0)) <= g.address
      && OverlapStatus(l, 1) == Error
  {
    var g, c := Reg("g", UInt16, 1, 100, None), Reg("c", UInt16, 1, 0, None);
    CellsBelowGeneralCopies();
    CellsBelowGeneralFail(Layout([g], [c], [], Some(0)), 1);
  }

  // ----- "auto" after a long register -----

  lemma StringAtZero()
    ensures WithRegister(EmptyLayout, Entry("s", ValueType(Char, 10), At(0), None, None, ""))
      == Layout([Reg("s", Char, 10, 0, None)], [], [], None)
  {
    InsertLast([], Reg("s", Char, 10, 0, None), AddressOf);
  }

  lemma NumberAtOne()
    ensures WithRegister(Layout([Reg("s", Char, 10, 0, None)], [], [], None), Plain("n", UInt16, At(1)))
      == Layout([Reg("s", Char, 10, 0, None), Reg("n", UInt16, 1, 1, None)], [], [], None)
  {
    InsertLast([Reg("s", Char, 10, 0, None)], Reg("n", UInt16, 1, 1, None), AddressOf);
  }

  /**
   * `"auto"` follows the highest-addressed register, not the furthest end: after a
   * `char[10]` at 0 and a `uint16` at 1, the next automatic address is 2, inside the string.
   */
  lemma AutoInsideEarlierRegisterExample()
    ensures
      var s := Entry("s", ValueType(Char, 10), At(0), None, None, "");
      var l := WithRegister(WithRegister(EmptyLayout, s), Plain("n", UInt16, At(1)));
      NextFree(l.general) == 2 && End(l.general[0]) == 5
  {
    StringAtZero();
    NumberAtOne();
  }
}
