/** Concrete instances of the value-type rules: register counts and parser verdicts. */
module ValueTypeExamples {
  import opened Options
  import opened Decimal
  import opened ValueTypes

  /** Register counts of a few types, with `bool` at one bit. */
  lemma RegisterCountExamples()
    ensures RegistersRequired(ValueType(Char, 1)) == 1
    ensures RegistersRequired(ValueType(Char, 2)) == 1
    ensures RegistersRequired(ValueType(Char, 3)) == 2
    ensures RegistersRequired(ValueType(Int32, 1)) == 2
    ensures RegistersRequired(ValueType(Bool, 1)) == 1
    ensures RegistersRequired(ValueType(Bool, 16)) == 1
    ensures RegistersRequired(ValueType(Bool, 17)) == 2
    ensures RegistersRequired(ValueType(Float64, 4)) == 16
  {
  }

  /** No pattern kind begins `s`: checked character by character. */
  lemma NoKindBegins(s: string)
    requires !StartsWith(s, "int8") && !StartsWith(s, "uint8") && !StartsWith(s, "char")
    requires !StartsWith(s, "int16") && !StartsWith(s, "uint16") && !StartsWith(s, "int32")
    requires !StartsWith(s, "uint32") && !StartsWith(s, "float32") && !StartsWith(s, "float64")
    requires !StartsWith(s, "bool")
    ensures MatchKind(s, PatternKinds) == None
  {
    forall b | b in PatternKinds ensures !(Name(b) <= s) {
      StartsWithIsPrefix(s, Name(b));
    }
  }

  /** The 64-bit integer kinds can be constructed but are not in the pattern. */
  lemma SixtyFourBitIntegersRefused()
    ensures FromStr("int64") == Failure(InvalidTypeString("int64"))
    ensures FromStr("uint64") == Failure(InvalidTypeString("uint64"))
  {
    NoKindBegins("int64");
    NoKindBegins("uint64");
  }

  /** An unknown kind does not match the pattern. */
  lemma UnknownKindRefused()
    ensures FromStr("int99") == Failure(InvalidTypeString("int99"))
  {
    NoKindBegins("int99");
  }

  /** An unclosed bracket does not match the pattern. */
  lemma UnclosedBracketRefused()
    ensures FromStr("char[") == Failure(InvalidTypeString("char["))
  {
    assert "char" <= "char[";
    MatchKindUnique("char[", Char);
  }

  /** A signed dimension does not match the pattern. */
  lemma NegativeDimensionRefused()
    ensures FromStr("char[-1]") == Failure(InvalidTypeString("char[-1]"))
  {
    var suffix := "[-1]";
    assert suffix[1..|suffix| - 1] == "-1" && !IsDigit("-1"[0]);
    BadSuffixRefused(Char, suffix);
    assert Name(Char) + suffix == "char[-1]";
  }

  /** A second dimension does not match the pattern, although the class comment mentions it. */
  lemma SecondDimensionRefused()
    ensures FromStr("char[10][2]") == Failure(InvalidTypeString("char[10][2]"))
  {
    var suffix := "[10][2]";
    assert suffix[1..|suffix| - 1] == "10][2" && !IsDigit("10][2"[2]);
    BadSuffixRefused(Char, suffix);
    assert Name(Char) + suffix == "char[10][2]";
  }

  /** `char[0]` matches the pattern and is refused by the constructor. */
  lemma ZeroDimensionRefused()
    ensures FromStr("char[0]") == Failure(DimensionTooSmall)
  {
    assert Spell(Char, Some("0")) == "char[0]";
    ParseAccepted(Char, Some("0"));
  }

  /** `char[007]` is `char[7]`. */
  lemma ZeroPaddedExample()
    ensures FromStr("char[007]") == Success(ValueType(Char, 7))
  {
    assert Value("007") == 7 by {
      assert "007"[..2] == "00" && "00"[..1] == "0" && "0"[..0] == [];
    }
    assert Spell(Char, Some("007")) == "char[007]";
    ParseAccepted(Char, Some("007"));
  }
}
