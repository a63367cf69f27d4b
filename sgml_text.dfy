/**
 * The text the SGML DTD reader works on: .NET `char` values, that is UTF-16
 * code units, including lone surrogates (which Dafny's own `char` cannot
 * hold). Letters, digits and case are ASCII; 0xFFFF doubles as the
 * end-of-file marker the reader returns past the end of its stream.
 */
module SgmlText {
  import opened Wrappers

  /** One UTF-16 code unit. */
  newtype Unit = x: int | 0 <= x < 0x1_0000

  type Units = seq<Unit>

  /** Entity.EOF: what a read past the end of the stream gives. */
  const EOF: Unit := 0xFFFF

  const NUL: Unit := 0
  const TAB: Unit := 9
  const LF: Unit := 10
  const CR: Unit := 13
  const SPACE: Unit := 32
  const BANG: Unit := 33
  const QUOT: Unit := 34
  const HASH: Unit := 35
  const PERCENT: Unit := 37
  const AMP: Unit := 38
  const APOS: Unit := 39
  const LPAREN: Unit := 40
  const RPAREN: Unit := 41
  const PLUS: Unit := 43
  const COMMA: Unit := 44
  const HYPHEN: Unit := 45
  const DOT: Unit := 46
  const COLON: Unit := 58
  const SEMI: Unit := 59
  const LT: Unit := 60
  const GT: Unit := 62
  const LBRACKET: Unit := 91
  const RBRACKET: Unit := 93
  const UNDERSCORE: Unit := 95
  const BAR: Unit := 124

  /** The code units of a text written with characters of the basic plane. */
  function U(s: string): (r: Units)
    requires forall i | 0 <= i < |s| :: s[i] as int < 0x1_0000
    ensures |r| == |s| && forall i | 0 <= i < |s| :: r[i] as int == s[i] as int
  {
    if s == [] then [] else [s[0] as int as Unit] + U(s[1..])
  }

  /** The four characters the DTD reader treats as white space. */
  predicate IsWhite(c: Unit) {
    c == SPACE || c == CR || c == LF || c == TAB
  }

  /** The white-space terminator set of SgmlDtd: space, CR, LF and TAB. */
  const WhiteSpace: Units := [SPACE, CR, LF, TAB]

  predicate IsDigit(c: Unit) { 48 <= c <= 57 }
  predicate IsUpper(c: Unit) { 65 <= c <= 90 }
  predicate IsLower(c: Unit) { 97 <= c <= 122 }

  /** char.IsLetter, for the ASCII letters. */
  predicate IsLetter(c: Unit) { IsUpper(c) || IsLower(c) }

  predicate IsLetterOrDigit(c: Unit) { IsLetter(c) || IsDigit(c) }

  /** char.ToUpperInvariant, for the ASCII letters. */
  function Upper(c: Unit): (r: Unit)
    ensures !IsLower(r)
    ensures IsLower(c) ==> r as int == c as int - 32
    ensures !IsLower(c) ==> r == c
  {
    if IsLower(c) then c - 32 else c
  }

  /** string.ToUpperInvariant, one code unit at a time. */
  function UpperAll(s: Units): (r: Units)
    ensures |r| == |s| && forall i | 0 <= i < |s| :: r[i] == Upper(s[i])
  {
    if s == [] then [] else [Upper(s[0])] + UpperAll(s[1..])
  }

  /** Upper-casing twice changes nothing more. */
  lemma UpperAllIdempotent(s: Units)
    ensures UpperAll(UpperAll(s)) == UpperAll(s)
  {
    assert forall i | 0 <= i < |s| :: Upper(Upper(s[i])) == Upper(s[i]);
  }

  /** Ordinal comparison ignoring case (StringComparison.OrdinalIgnoreCase). */
  predicate EqualsIgnoreCase(a: Units, b: Units) {
    UpperAll(a) == UpperAll(b)
  }

  // Keywords of the DTD syntax, as code units.
  const KwCDATA: Units := [67, 68, 65, 84, 65]          // CDATA
  const KwSDATA: Units := [83, 68, 65, 84, 65]          // SDATA
  const KwPI: Units := [80, 73]                         // PI
  const KwHTML: Units := [104, 116, 109, 108]           // html
  const KwENTITY: Units := [69, 78, 84, 73, 84, 89]     // ENTITY
  const KwELEMENT: Units := [69, 76, 69, 77, 69, 78, 84] // ELEMENT
  const KwATTLIST: Units := [65, 84, 84, 76, 73, 83, 84] // ATTLIST
  const KwINCLUDE: Units := [73, 78, 67, 76, 85, 68, 69] // INCLUDE
  const KwIGNORE: Units := [73, 71, 78, 79, 82, 69]     // IGNORE
  const KwPUBLIC: Units := [80, 85, 66, 76, 73, 67]     // PUBLIC
  const KwSYSTEM: Units := [83, 89, 83, 84, 69, 77]     // SYSTEM

  /** The errors the DTD reader raises, SgmlParseException and the runtime's own, by cause. */
  datatype SgmlError =
    | InvalidNameStart(ch: Unit)
    | InvalidNameChar(ch: Unit)
    | PrematureSurrogate(ch: Unit)
    | CharOutOfRange(value: int)
    | ScanNeverEnds
    | UnresolvableEntity(name: Units)
    | UnexpectedChar(ch: Unit)
    | ExpectedDeclaration
    | ExpectedComment(ch: Unit)
    | IncludeSectionNotImplemented
    | UnsupportedMarkedSection(name: Units)
    | ExpectedBracket(ch: Unit)
    | InvalidDeclaration(token: Units)
    | ExternalParameterEntity
    | UndefinedParameterEntity(name: Units)
    | ExpectedPublicId(ch: Unit)
    | InvalidExternalId(token: Units)
    | ExpectedSystemId(ch: Unit)
    | ExpectedEntityEnd(ch: Unit)
    | ExpectedCommentDelimiter(ch: Unit)
    | InvalidSyntax(ch: Unit)
    | ExpectedInclusions(ch: Unit)
    | ExpectedElementEnd(ch: Unit)
    | DuplicateKey(key: Units)
    | ContentModelError
    | FetchFailed(uri: Units)
    | RecursiveEntity(name: Units)
    | UndefinedElement(name: Units)
    | NoDtdInput
    /** The bound this model puts on the iterations of the DTD's main loop was reached. */
    | OutOfFuel

  /** char.IsWhiteSpace: the code units of Unicode's White_Space property. */
  predicate IsNetWhite(c: Unit) {
    (9 <= c <= 13) || c == 32 || c == 0x85 || c == 0xA0 || c == 0x1680 ||
    (0x2000 <= c <= 0x200A) || c == 0x2028 || c == 0x2029 || c == 0x202F || c == 0x205F || c == 0x3000
  }

  /** Every white-space character of the DTD syntax is white space to .NET as well. */
  lemma WhiteIsNetWhite(c: Unit)
    requires IsWhite(c)
    ensures IsNetWhite(c)
  {
  }

  /** The leading white space of `s` removed. */
  function TrimStart(s: Units): (r: Units)
    ensures |r| <= |s| && r == s[|s| - |r|..]
    ensures r != [] ==> !IsNetWhite(r[0])
    ensures forall i | 0 <= i < |s| - |r| :: IsNetWhite(s[i])
  {
    if s != [] && IsNetWhite(s[0]) then TrimStart(s[1..]) else s
  }

  /** The trailing white space of `s` removed. */
  function TrimEnd(s: Units): (r: Units)
    ensures |r| <= |s| && r == s[..|r|]
    ensures r != [] ==> !IsNetWhite(r[|r| - 1])
    ensures forall i | |r| <= i < |s| :: IsNetWhite(s[i])
  {
    if s != [] && IsNetWhite(s[|s| - 1]) then TrimEnd(s[..|s| - 1]) else s
  }

  /** string.Trim: the leading and the trailing white space removed. */
  function Trim(s: Units): (r: Units)
    ensures |r| <= |s|
    ensures r != [] ==> !IsNetWhite(r[0]) && !IsNetWhite(r[|r| - 1])
  {
    var t := TrimStart(s);
    var r := TrimEnd(t);
    assert r != [] ==> r[0] == t[0];
    r
  }

  /** What Trim keeps is a slice of `s`, and all it removes on either side is white space. */
  lemma TrimSlice(s: Units)
    ensures var k := |s| - |TrimStart(s)|; var r := Trim(s);
      k + |r| <= |s| && r == s[k..k + |r|] &&
      (forall i | 0 <= i < k :: IsNetWhite(s[i])) &&
      (forall i | k + |r| <= i < |s| :: IsNetWhite(s[i]))
  {
    var t := TrimStart(s);
    var r := Trim(s);
    var k := |s| - |t|;
    assert t == s[k..] && r == t[..|r|];
    forall i | k + |r| <= i < |s|
      ensures IsNetWhite(s[i])
    {
      assert s[i] == t[i - k];
    }
  }

  /** Trimming a second time changes nothing. */
  lemma TrimIdempotent(s: Units)
    ensures Trim(Trim(s)) == Trim(s)
  {
    var r := Trim(s);
    assert TrimStart(r) == r;
    assert TrimEnd(r) == r;
  }

  // ----------------------------------------------------------- integers

  /** The value of a C# `int` expression computed without overflow checks. */
  function Wrap32(x: int): (r: int)
    ensures -0x8000_0000 <= r < 0x8000_0000
    ensures -0x8000_0000 <= x < 0x8000_0000 ==> r == x
    ensures (r - x) % 0x1_0000_0000 == 0
  {
    (x + 0x8000_0000) % 0x1_0000_0000 - 0x8000_0000
  }

  // --------------------------------------------------------------- UTF-16

  predicate IsHighSurrogate(v: int) { 0xD800 <= v <= 0xDBFF }
  predicate IsLowSurrogate(v: int) { 0xDC00 <= v <= 0xDFFF }

  /** A Unicode scalar value: a code point that is not a surrogate. */
  predicate IsScalar(v: int) { 0 <= v <= 0x10_FFFF && !(0xD800 <= v <= 0xDFFF) }

  /** char.ConvertToUtf32(high, low): the code point a surrogate pair stands for. */
  function Join(high: int, low: int): (v: int)
    requires IsHighSurrogate(high) && IsLowSurrogate(low)
    ensures 0x1_0000 <= v <= 0x10_FFFF && IsScalar(v)
  {
    (high - 0xD800) * 0x400 + (low - 0xDC00) + 0x1_0000
  }

  /** The error char.ConvertFromUtf32 raises on a value that is not a scalar value. */
  datatype ConvertError = NotScalar(value: int)

  /**
   * char.ConvertFromUtf32: one code unit for the basic plane, a surrogate
   * pair for the supplementary planes, an error otherwise.
   */
  function FromUtf32(v: int): (r: Result<Units, ConvertError>)
    ensures r.Success? <==> IsScalar(v)
    ensures r.Success? && v < 0x1_0000 ==> r.value == [v as Unit]
    ensures r.Success? && v >= 0x1_0000 ==>
      |r.value| == 2 && IsHighSurrogate(r.value[0] as int) && IsLowSurrogate(r.value[1] as int) &&
      Join(r.value[0] as int, r.value[1] as int) == v
  {
    if !IsScalar(v) then Failure(NotScalar(v))
    else if v < 0x1_0000 then Success([v as Unit])
    else
      var w := v - 0x1_0000;
      Success([(0xD800 + w / 0x400) as Unit, (0xDC00 + w % 0x400) as Unit])
  }

  /** Joining a surrogate pair and encoding the code point again gives the pair back. */
  lemma JoinRoundTrip(high: int, low: int)
    requires IsHighSurrogate(high) && IsLowSurrogate(low)
    ensures FromUtf32(Join(high, low)) == Success([high as Unit, low as Unit])
  {
    var w := Join(high, low) - 0x1_0000;
    assert w == (high - 0xD800) * 0x400 + (low - 0xDC00);
    assert w / 0x400 == high - 0xD800 && w % 0x400 == low - 0xDC00;
  }
}
