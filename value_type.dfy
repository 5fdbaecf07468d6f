/**
 * `BaseType` and `ValueType` of validate_yaml.py: a scalar or array data type,
 * its size in bits and in 16-bit Modbus registers, its text form, and the
 * parser for `kind` / `kind[N]`.
 */
module ValueTypes {
  import opened Options
  import opened Decimal

  /** The closed set of base kinds (Python enum `BaseType`). */
  datatype BaseType =
    | Int8 | UInt8 | Char | Int16 | UInt16 | Int32 | UInt32
    | Int64 | UInt64 | Float32 | Float64 | Bool

  /** The enum member's value, the spelling used in documents and in `__str__`. */
  function Name(b: BaseType): string {
    match b
    case Int8 => "int8"
    case UInt8 => "uint8"
    case Char => "char"
    case Int16 => "int16"
    case UInt16 => "uint16"
    case Int32 => "int32"
    case UInt32 => "uint32"
    case Int64 => "int64"
    case UInt64 => "uint64"
    case Float32 => "float32"
    case Float64 => "float64"
    case Bool => "bool"
  }

  /** `bit_size_map`; note that `bool` occupies a single bit. */
  function BitSize(b: BaseType): nat {
    match b
    case Int8 => 8
    case UInt8 => 8
    case Char => 8
    case Int16 => 16
    case UInt16 => 16
    case Int32 => 32
    case UInt32 => 32
    case Int64 => 64
    case UInt64 => 64
    case Float32 => 32
    case Float64 => 64
    case Bool => 1
  }

  /** The constructor refuses dimensions below 1, so every value type has one of these. */
  type Dimension = n: int | 1 <= n witness 1

  datatype ValueType = ValueType(baseType: BaseType, dimension: Dimension)

  /** The two `ValueError`s raised while building a value type. */
  datatype ValueError =
    | InvalidTypeString(text: string)   // the type pattern did not match
    | DimensionTooSmall                 // `ValueType.__init__` with dimension < 1

  datatype Result<T> = Success(value: T) | Failure(error: ValueError)

  /** `ValueType(base_type, dimension)`: raises for a dimension below 1. */
  function New(b: BaseType, dimension: int): (r: Result<ValueType>)
    ensures r.Success? <==> dimension >= 1
    ensures r.Success? ==> r.value.baseType == b && r.value.dimension == dimension
    ensures r.Failure? ==> r.error == DimensionTooSmall
  {
    if dimension < 1 then Failure(DimensionTooSmall) else Success(ValueType(b, dimension))
  }

  function TotalBits(v: ValueType): (bits: nat)
    ensures bits >= v.dimension
  {
    BitSize(v.baseType) * v.dimension
  }

  /** `registers_required`: the number of 16-bit registers the type occupies, rounded up. */
  function RegistersRequired(v: ValueType): (r: nat)
    ensures 16 * (r - 1) < TotalBits(v) <= 16 * r
    ensures r >= 1
  {
    (TotalBits(v) + 15) / 16
  }

  /** `__str__`: the bare name for dimension 1, otherwise `name[dimension]`. */
  function ToString(v: ValueType): (s: string)
    ensures Name(v.baseType) <= s
    ensures v.dimension == 1 <==> s == Name(v.baseType)
  {
    if v.dimension == 1 then Name(v.baseType)
    else Name(v.baseType) + "[" + FromNat(v.dimension) + "]"
  }

  /** The names in the alternation of the pattern, in its order; int64 and uint64 are absent. */
  const PatternKinds: seq<BaseType> :=
    [Int8, UInt8, Char, Int16, UInt16, Int32, UInt32, Float32, Float64, Bool]

  /** `p` begins `s`, compared character by character as the regex engine does. */
  predicate StartsWith(s: string, p: string) {
    p == [] || (|s| > 0 && s[0] == p[0] && StartsWith(s[1..], p[1..]))
  }

  lemma {:induction false} StartsWithIsPrefix(s: string, p: string)
    ensures StartsWith(s, p) <==> p <= s
  {
    if p != [] && |s| > 0 {
      StartsWithIsPrefix(s[1..], p[1..]);
      if p <= s {
        assert p[1..] <= s[1..];
      }
    }
  }

  /** The alternation of the pattern, tried in order: the first of `kinds` whose name begins `s`. */
  function MatchKind(s: string, kinds: seq<BaseType>): (r: Option<BaseType>)
    ensures r.Some? ==> r.value in kinds && Name(r.value) <= s
    ensures r.None? ==> forall b :: b in kinds ==> !(Name(b) <= s)
  {
    if kinds == [] then None
    else if Name(kinds[0]) <= s then Some(kinds[0])
    else MatchKind(s, kinds[1..])
  }

  /** An optional group `[digits]` with at least one digit. */
  predicate Bracketed(rest: string) {
    |rest| >= 3 && rest[0] == '[' && rest[|rest| - 1] == ']' && AllDigits(rest[1..|rest| - 1])
  }

  /** What follows the matched name: nothing, a bracketed digit group, or a refusal of the whole string. */
  function ParseRest(b: BaseType, rest: string, s: string): Result<ValueType> {
    if rest == [] then New(b, 1)
    else if Bracketed(rest) then New(b, Value(rest[1..|rest| - 1]))
    else Failure(InvalidTypeString(s))
  }

  /**
   * `from_str`: the pattern `^(names)(?:\[(\d+)\])?$` followed by the constructor.
   * `$` is read as the end of the string and `\d` as an ASCII digit.
   */
  function FromStr(s: string): (r: Result<ValueType>)
    ensures r.Success? ==> r.value.baseType in PatternKinds && Name(r.value.baseType) <= s
    ensures r.Failure? ==> r.error == InvalidTypeString(s) || r.error == DimensionTooSmall
  {
    match MatchKind(s, PatternKinds)
    case None => Failure(InvalidTypeString(s))
    case Some(b) => ParseRest(b, s[|Name(b)|..], s)
  }

  // ----- the pattern as a grammar, independently of the parser -----

  /** The optional bracket group holds one or more digits. */
  predicate GroupOk(g: Option<string>) {
    g.Some? ==> |g.value| >= 1 && AllDigits(g.value)
  }

  /** The text the pattern accepts for a kind and an optional digit group. */
  function Spell(b: BaseType, g: Option<string>): string {
    match g
    case None => Name(b)
    case Some(d) => Name(b) + "[" + d + "]"
  }

  ghost predicate MatchesPattern(s: string) {
    exists b, g :: b in PatternKinds && GroupOk(g) && s == Spell(b, g)
  }

  /** What the constructor makes of a kind and digit group the pattern accepted. */
  function Expected(b: BaseType, g: Option<string>): Result<ValueType>
    requires GroupOk(g)
  {
    match g
    case None => New(b, 1)
    case Some(d) => New(b, Value(d))
  }

  /** No name in the pattern is a prefix of another, so at most one alternative can match. */
  lemma PatternNamesPrefixFree(b1: BaseType, b2: BaseType)
    requires b1 in PatternKinds && b2 in PatternKinds && Name(b1) <= Name(b2)
    ensures b1 == b2
  {
    var p, q := Name(b1), Name(b2);
    assert p[0] == q[0];
    assert p[|p| - 1] == q[|p| - 1];
    assert p[3] == q[3];
    assert |p| >= 5 ==> p[4] == q[4];
    assert |p| >= 6 ==> p[5] == q[5];
    assert |p| >= 7 ==> p[6] == q[6];
  }

  lemma PrefixesOfOneString(p: string, q: string, s: string)
    requires p <= s && q <= s && |p| <= |q|
    ensures p <= q
  {
    assert q[..|p|] == s[..|p|];
  }

  /** The alternation picks the one pattern kind whose name begins `s`. */
  lemma MatchKindUnique(s: string, b: BaseType)
    requires b in PatternKinds && Name(b) <= s
    ensures MatchKind(s, PatternKinds) == Some(b)
  {
    var c := MatchKind(s, PatternKinds).value;
    if |Name(c)| <= |Name(b)| {
      PrefixesOfOneString(Name(c), Name(b), s);
      PatternNamesPrefixFree(c, b);
    } else {
      PrefixesOfOneString(Name(b), Name(c), s);
      PatternNamesPrefixFree(b, c);
    }
  }

  /** `from_str` of a string that begins with pattern kind `b` is decided by what follows the name. */
  lemma FromStrAfter(b: BaseType, rest: string)
    requires b in PatternKinds
    ensures FromStr(Name(b) + rest) == ParseRest(b, rest, Name(b) + rest)
  {
    var s := Name(b) + rest;
    assert Name(b) <= s;
    MatchKindUnique(s, b);
    assert s[|Name(b)|..] == rest;
  }

  /** A bracketed digit group after the name gives that dimension. */
  lemma ParseRestGroup(b: BaseType, d: string, s: string)
    requires |d| >= 1 && AllDigits(d)
    ensures ParseRest(b, "[" + d + "]", s) == New(b, Value(d))
  {
    var r := "[" + d + "]";
    assert r[1..|r| - 1] == d;
  }

  lemma SplitAfter(p: string, s: string)
    requires p <= s
    ensures s == p + s[|p|..]
  {
  }

  lemma BracketedSplit(rest: string)
    requires Bracketed(rest)
    ensures rest == "[" + rest[1..|rest| - 1] + "]"
  {
  }

  /** Every string the pattern accepts is parsed into what the constructor makes of it. */
  lemma ParseAccepted(b: BaseType, g: Option<string>)
    requires b in PatternKinds && GroupOk(g)
    ensures FromStr(Spell(b, g)) == Expected(b, g)
  {
    match g
    case None => ParseBare(b);
    case Some(d) => ParseGroup(b, d);
  }

  lemma ParseBare(b: BaseType)
    requires b in PatternKinds
    ensures FromStr(Name(b)) == New(b, 1)
  {
    FromStrAfter(b, []);
    assert Name(b) + [] == Name(b);
  }

  lemma ParseGroup(b: BaseType, d: string)
    requires b in PatternKinds && |d| >= 1 && AllDigits(d)
    ensures FromStr(Name(b) + "[" + d + "]") == New(b, Value(d))
  {
    var r := "[" + d + "]";
    ParseRestGroup(b, d, Name(b) + r);
    FromStrAfter(b, r);
    Regroup(Name(b), d);
  }

  lemma Regroup(p: string, d: string)
    ensures p + "[" + d + "]" == p + ("[" + d + "]")
  {
  }

  /** A pattern kind followed by anything but nothing or a bracketed digit group is refused. */
  lemma BadSuffixRefused(b: BaseType, suffix: string)
    requires b in PatternKinds && suffix != []
    requires !(|suffix| >= 3 && suffix[0] == '[' && suffix[|suffix| - 1] == ']' && AllDigits(suffix[1..|suffix| - 1]))
    ensures FromStr(Name(b) + suffix) == Failure(InvalidTypeString(Name(b) + suffix))
  {
    FromStrAfter(b, suffix);
  }

  /** Everything not refused as an invalid type string is accepted by the pattern. */
  lemma AcceptedMatches(s: string)
    requires FromStr(s) != Failure(InvalidTypeString(s))
    ensures MatchesPattern(s)
  {
    var b := MatchKind(s, PatternKinds).value;
    var rest := s[|Name(b)|..];
    SplitAfter(Name(b), s);
    assert FromStr(s) == ParseRest(b, rest, s);
    if rest == [] {
      assert s == Spell(b, None);
    } else {
      var d := rest[1..|rest| - 1];
      BracketedSplit(rest);
      Regroup(Name(b), d);
      assert s == Spell(b, Some(d));
    }
  }

  /** `from_str` refuses with "Invalid type string" exactly the strings the pattern does not match. */
  lemma InvalidIffUnmatched(s: string)
    ensures FromStr(s) == Failure(InvalidTypeString(s)) <==> !MatchesPattern(s)
  {
    if MatchesPattern(s) {
      var b, g :| b in PatternKinds && GroupOk(g) && s == Spell(b, g);
      ParseAccepted(b, g);
    } else if FromStr(s) != Failure(InvalidTypeString(s)) {
      AcceptedMatches(s);
    }
  }

  /** Round trip: rendering a parseable value type and parsing it back gives it back. */
  lemma RoundTrip(v: ValueType)
    requires v.baseType in PatternKinds
    ensures FromStr(ToString(v)) == Success(v)
  {
    if v.dimension == 1 {
      ParseAccepted(v.baseType, None);
    } else {
      var d := FromNat(v.dimension);
      ValueOfFromNat(v.dimension);
      ParseAccepted(v.baseType, Some(d));
    }
  }

  /** Leading zeros in the dimension are accepted and ignored. */
  lemma ZeroPaddedDimension(b: BaseType, k: nat, n: nat)
    requires b in PatternKinds && n >= 1
    ensures FromStr(Name(b) + "[" + Zeros(k) + FromNat(n) + "]") == Success(ValueType(b, n))
  {
    var d := Zeros(k) + FromNat(n);
    LeadingZeros(k, FromNat(n));
    ValueOfFromNat(n);
    ParseGroup(b, d);
    RegroupDigits(Name(b), Zeros(k), FromNat(n));
  }

  lemma RegroupDigits(p: string, z: string, f: string)
    ensures p + "[" + z + f + "]" == p + "[" + (z + f) + "]"
  {
  }
}
