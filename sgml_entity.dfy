/**
 * An entity declared in (or read as) a DTD: its declaration, and the reader
 * over its text that SgmlDtd scans declarations with. Each reading method is
 * proved to do what the function of the same name in SgmlStream says.
 */
module SgmlEntity {
  import opened Wrappers
  import opened SgmlText
  import opened SgmlStream

  /** The kinds of literal an entity declaration may name. */
  datatype LiteralType = CDATA | SDATA | PI

  /** Entity.IsLiteralType: CDATA, SDATA or PI, compared ignoring case. */
  predicate IsLiteralType(token: Units) {
    EqualsIgnoreCase(token, KwCDATA) || EqualsIgnoreCase(token, KwSDATA) || EqualsIgnoreCase(token, KwPI)
  }

  /** The literal type SetLiteralType chooses: the switch compares case-sensitively. */
  function LiteralTypeOf(token: Units): (r: Option<LiteralType>)
    ensures r.Some? <==> token == KwCDATA || token == KwSDATA || token == KwPI
  {
    if token == KwCDATA then Some(CDATA)
    else if token == KwSDATA then Some(SDATA)
    else if token == KwPI then Some(PI)
    else None
  }

  /** Every token SetLiteralType recognises passes IsLiteralType. */
  lemma TypedIsLiteral(token: Units)
    requires LiteralTypeOf(token).Some?
    ensures IsLiteralType(token)
  {
    assert UpperAll(token) == token;
  }

  /** "cdata" passes IsLiteralType, yet SetLiteralType leaves the type as it was. */
  lemma LowerCaseLiteralTypeIgnored()
    ensures IsLiteralType([99, 100, 97, 116, 97]) && LiteralTypeOf([99, 100, 97, 116, 97]).None?
  {
    assert UpperAll([99, 100, 97, 116, 97]) == KwCDATA;
  }

  /** One line of Entity.Context: where the reader stands in one entity of the chain. */
  datatype ContextLine =
    | InInternal(line: int, position: int, name: Units)
    | InExternal(line: int, position: int, name: Units, uri: Option<Units>)

  class Entity {
    const name: Units
    const isInternal: bool
    /** The replacement text of an internal entity; None for an external one and a reader entity. */
    const literal: Option<Units>
    const publicId: Option<Units>
    const uri: Option<Units>
    /** None while no literal type was set. */
    var literalType: Option<LiteralType>
    var isHtml: bool
    var parent: Entity?
    /** Where the entity's text was fetched from: set when an external entity is opened. */
    var resolvedUri: Option<Units>
    /** The text being read, and how far the reader is into it. */
    var input: Units
    var pos: nat
    var line: int
    var lineStart: int
    var absolutePos: int
    var lastchar: Unit
    var isWhitespace: bool

    predicate Valid()
      reads this
    {
      pos <= |input|
    }

    /** The reading state. */
    function Cur(): Cursor
      reads this
    {
      Cursor(pos, line, lineStart, absolutePos, lastchar, isWhitespace)
    }

    /** The entity of an external identifier; an entity named "html" (any case) reads HTML. */
    constructor External(name: Units, publicId: Option<Units>, uri: Option<Units>)
      ensures this.name == name && this.publicId == publicId && this.uri == uri
      ensures !isInternal && literal.None? && literalType.None? && parent == null
      ensures isHtml == EqualsIgnoreCase(name, KwHTML)
      ensures input == [] && pos == 0 && Valid()
    {
      this.name := name;
      this.publicId := publicId;
      this.uri := uri;
      isInternal := false;
      literal := None;
      literalType := None;
      isHtml := EqualsIgnoreCase(name, KwHTML);
      parent := null;
      resolvedUri := None;
      input := [];
      pos := 0;
      line := 0;
      lineStart := 0;
      absolutePos := 0;
      lastchar := NUL;
      isWhitespace := false;
    }

    /** An internal entity with its replacement text. */
    constructor Internal(name: Units, literal: Units)
      ensures this.name == name && this.literal == Some(literal)
      ensures isInternal && !isHtml && literalType.None? && parent == null
      ensures publicId.None? && uri.None?
      ensures input == [] && pos == 0 && Valid()
    {
      this.name := name;
      this.literal := Some(literal);
      isInternal := true;
      publicId := None;
      uri := None;
      literalType := None;
      isHtml := false;
      parent := null;
      resolvedUri := None;
      input := [];
      pos := 0;
      line := 0;
      lineStart := 0;
      absolutePos := 0;
      lastchar := NUL;
      isWhitespace := false;
    }

    /** An entity read from a reader that is already open, as the text it delivers. */
    constructor Reader(name: Units, baseUri: Option<Units>, text: Units)
      ensures this.name == name && isInternal && literal.None? && resolvedUri == baseUri
      ensures isHtml == EqualsIgnoreCase(name, KwHTML) && parent == null
      ensures input == text && pos == 0 && Valid()
    {
      this.name := name;
      literal := None;
      isInternal := true;
      publicId := None;
      uri := None;
      literalType := None;
      isHtml := EqualsIgnoreCase(name, KwHTML);
      parent := null;
      resolvedUri := baseUri;
      input := text;
      pos := 0;
      line := 0;
      lineStart := 0;
      absolutePos := 0;
      lastchar := NUL;
      isWhitespace := false;
    }

    /** Entity.LinePosition. */
    function LinePos(): (p: int)
      reads this
      ensures p == LinePosition(Cur())
    {
      absolutePos - lineStart + 1
    }

    /**
     * Moves the reader to where a reader this model leaves abstract (the
     * content model and attribute definitions of SgmlDtd) stopped.
     */
    method Seek(c: Cursor)
      requires c.pos <= |input|
      modifies this`pos, this`line, this`lineStart, this`absolutePos, this`lastchar, this`isWhitespace
      ensures Valid() && Cur() == c
    {
      pos, line, lineStart, absolutePos, lastchar, isWhitespace := c.pos, c.line, c.lineStart, c.absolutePos, c.lastchar, c.isWhitespace;
    }

    /**
     * Entity.SetLiteralType: CDATA, SDATA or PI, spelt exactly so; any
     * other token leaves the type as it was.
     */
    method SetLiteralType(token: Units)
      modifies this`literalType
      ensures literalType == if LiteralTypeOf(token).Some? then LiteralTypeOf(token) else old(literalType)
    {
      if token == KwCDATA {
        literalType := Some(CDATA);
      } else if token == KwSDATA {
        literalType := Some(SDATA);
      } else if token == KwPI {
        literalType := Some(PI);
      }
    }

    /**
     * Entity.Open: links the entity to the one it is read from, takes over
     * its HTML mode, and starts reading at line 1. An internal entity reads
     * its literal; an external one needs a system identifier and reads what
     * `fetched` delivers for it (None when fetching failed). The other
     * counters carry on from any earlier reading.
     */
    method Open(parent: Entity?, fetched: Option<Units>) returns (err: Option<SgmlError>)
      requires isInternal && literal.None? ==> Valid()
      modifies this`parent, this`isHtml, this`line, this`input, this`pos, this`resolvedUri
      ensures (err.None? ==> Valid()) && this.parent == parent && line == 1
      ensures isHtml == if parent != null then old(parent.isHtml) else old(isHtml)
      ensures err.None? <==> isInternal || (uri.Some? && fetched.Some?)
      ensures isInternal && literal.Some? ==> input == literal.value && pos == 0
      ensures isInternal && literal.None? ==> input == old(input) && pos == old(pos)
      ensures !isInternal && uri.None? ==> err == Some(UnresolvableEntity(name))
      ensures !isInternal && uri.Some? ==> resolvedUri == uri
      ensures !isInternal && uri.Some? && err.Some? ==> err == Some(FetchFailed(uri.value))
      ensures !isInternal && err.None? ==> input == fetched.value && pos == 0
      ensures err.Some? ==> input == old(input) && pos == old(pos)
      ensures isInternal ==> resolvedUri == old(resolvedUri)
      ensures !isInternal && uri.None? ==> resolvedUri == old(resolvedUri)
    {
      this.parent := parent;
      if parent != null {
        isHtml := parent.isHtml;
      }
      line := 1;
      err := None;
      if isInternal {
        if literal.Some? {
          input := literal.value;
          pos := 0;
        }
      } else if uri.None? {
        err := Some(UnresolvableEntity(name));
      } else {
        resolvedUri := uri;
        if fetched.None? {
          err := Some(FetchFailed(uri.value));
        } else {
          input := fetched.value;
          pos := 0;
        }
      }
    }

    /** Entity.ReadChar. */
    method ReadChar() returns (ch: Unit)
      requires Valid()
      modifies this`pos, this`line, this`lineStart, this`absolutePos, this`lastchar, this`isWhitespace
      ensures Valid() && Cur() == Next(input, old(Cur())) && ch == lastchar
    {
      ch := At(input, pos);
      if pos < |input| {
        pos := pos + 1;
      }
      if ch == NUL {
        ch := SPACE;
      }
      absolutePos := absolutePos + 1;
      if ch == LF {
        isWhitespace := true;
        lineStart := absolutePos + 1;
        line := line + 1;
      } else if ch == SPACE || ch == TAB {
        isWhitespace := true;
        if lastchar == CR {
          lineStart := absolutePos;
          line := line + 1;
        }
      } else if ch == CR {
        isWhitespace := true;
      } else {
        isWhitespace := false;
        if lastchar == CR {
          line := line + 1;
          lineStart := absolutePos;
        }
      }
      lastchar := ch;
    }

    /** Entity.SkipWhitespace. */
    method SkipWhitespace() returns (ch: Unit)
      requires Valid()
      modifies this`pos, this`line, this`lineStart, this`absolutePos, this`lastchar, this`isWhitespace
      ensures Valid() && Cur() == SkipWs(input, old(Cur())) && ch == lastchar
    {
      ghost var c0 := Cur();
      ch := lastchar;
      while ch != EOF && (ch == SPACE || ch == CR || ch == LF || ch == TAB)
        invariant Valid() && ch == lastchar
        invariant SkipWs(input, Cur()) == SkipWs(input, c0)
        decreases Remaining(input, Cur())
      {
        NextProgress(input, Cur());
        ch := ReadChar();
      }
    }

    /** Entity.ScanToken. */
    method ScanToken(term: Units, nmtoken: bool) returns (r: Result<Units, SgmlError>)
      requires Valid()
      modifies this`pos, this`line, this`lineStart, this`absolutePos, this`lastchar, this`isWhitespace
      ensures Valid() && Scanned(r, Cur()) == Token(input, old(Cur()), term, nmtoken)
    {
      var ch := lastchar;
      if nmtoken && ch != UNDERSCORE && !IsLetter(ch) {
        return Failure(InvalidNameStart(ch));
      }
      ghost var c0 := Cur();
      var sb: Units := [];
      PrependNothing(TokenRun(input, c0, term, nmtoken));
      while ch != EOF && ch !in term
        invariant Valid() && ch == lastchar
        invariant Prepend(sb, TokenRun(input, Cur(), term, nmtoken)) == TokenRun(input, c0, term, nmtoken)
        decreases Remaining(input, Cur())
      {
        if !nmtoken || ch == UNDERSCORE || ch == DOT || ch == HYPHEN || ch == COLON || IsLetterOrDigit(ch) {
          PrependTwice(sb, [ch], TokenRun(input, Next(input, Cur()), term, nmtoken));
          sb := sb + [ch];
        } else {
          return Failure(InvalidNameChar(ch));
        }
        NextProgress(input, Cur());
        ch := ReadChar();
      }
      assert sb + [] == sb;
      return Success(sb);
    }

    /** Entity.ReadNumericEntityCode, called with the '#' of a reference as `lastchar`. */
    method ReadNumericEntityCode() returns (v: int, value: Units)
      requires Valid()
      modifies this`pos, this`line, this`lineStart, this`absolutePos, this`lastchar, this`isWhitespace
      ensures Valid() && Numeric(v, value, Cur()) == NumericCode(input, old(Cur()))
    {
      ghost var c := Cur();
      NextProgress(input, c);
      v := 0;
      var ch := ReadChar();
      value := [AMP, HASH];
      var hex := ch == 120;
      if hex {
        NextProgress(input, Cur());
        value := value + [120];
        assert value == [AMP, HASH, 120];
        ch := ReadChar();
      }
      var saw;
      v, value, saw := ReadDigits(hex, value);
      ch := lastchar;
      if !saw {
        return -1, value;
      }
      if ch == SEMI {
        ch := ReadChar();
      }
    }

    /**
     * The digit loop of ReadNumericEntityCode: digits of base 16 or 10 from
     * `lastchar` on, appended to `value`, up to EOF, ';' or another character.
     */
    method ReadDigits(hex: bool, value0: Units) returns (v: int, value: Units, saw: bool)
      requires Valid()
      modifies this`pos, this`line, this`lineStart, this`absolutePos, this`lastchar, this`isWhitespace
      ensures Valid() && Digits(v, value, saw, Cur()) == DigitRun(input, old(Cur()), hex, 0, value0, false)
    {
      ghost var d0 := DigitRun(input, Cur(), hex, 0, value0, false);
      v, value, saw := 0, value0, false;
      var ch := lastchar;
      while ch != EOF && ch != SEMI
        invariant Valid() && ch == lastchar
        invariant DigitRun(input, Cur(), hex, v, value, saw) == d0
        decreases Remaining(input, Cur())
      {
        var ok, p := DigitOf(ch, hex);
        if !ok {
          break;
        }
        v, value, ch := TakeDigit(hex, v, value, saw, p);
        saw := true;
      }
      DigitRunStop(input, Cur(), hex, v, value, saw);
    }

    /** One pass of the ReadNumericEntityCode loop on a digit of value `p`: the digit is added and the next character read. */
    method TakeDigit(hex: bool, v: int, value: Units, ghost saw: bool, p: int) returns (v': int, value': Units, ch: Unit)
      requires Valid() && IsBaseDigit(lastchar, hex) && p == DigitValue(lastchar, hex)
      modifies this`pos, this`line, this`lineStart, this`absolutePos, this`lastchar, this`isWhitespace
      ensures Valid() && ch == lastchar && Remaining(input, Cur()) < Remaining(input, old(Cur()))
      ensures DigitRun(input, Cur(), hex, v', value', true) == DigitRun(input, old(Cur()), hex, v, value, saw)
    {
      DigitRunStep(input, Cur(), hex, v, value, saw);
      NextProgress(input, Cur());
      value' := value + [lastchar];
      v' := Wrap32(v * Base(hex) + p);
      ch := ReadChar();
    }

    /** The digit tests of the ReadNumericEntityCode loop: whether `ch` is a digit of the base, and its value. */
    static method DigitOf(ch: Unit, hex: bool) returns (ok: bool, p: int)
      ensures ok == IsBaseDigit(ch, hex) && (ok ==> p == DigitValue(ch, hex))
    {
      ok, p := true, 0;
      if IsDigit(ch) {
        p := ch as int - 48;
      } else if hex && 97 <= ch <= 102 {
        p := ch as int - 97 + 10;
      } else if hex && 65 <= ch <= 70 {
        p := ch as int - 65 + 10;
      } else {
        ok := false;
      }
    }

    /** Entity.ExpandCharEntity, called with the '#' of a reference as `lastchar`. */
    method ExpandCharEntity() returns (r: Result<Units, SgmlError>)
      requires Valid()
      modifies this`pos, this`line, this`lineStart, this`absolutePos, this`lastchar, this`isWhitespace
      ensures Valid() && Scanned(r, Cur()) == CharEntity(input, old(Cur()), isHtml)
    {
      var v, value := ReadNumericEntityCode();
      if v == -1 {
        return Success(value);
      }
      if isHtml && 0x80 <= v <= 0x9F {
        return Success([CtrlMap[v - 0x80] as Unit]);
      }
      if 0xD800 <= v <= 0xDBFF {
        if lastchar == AMP {
          var ch := ReadChar();
          if ch == HASH {
            var v2, value2 := ReadNumericEntityCode();
            if v2 == -1 {
              return Success(value + [SEMI] + value2);
            }
            if 0xDC00 <= v2 <= 0xDFFF {
              v := Join(v, v2);
            }
          } else {
            return Failure(PrematureSurrogate(ch));
          }
        } else {
          return Failure(PrematureSurrogate(lastchar));
        }
      }
      r := Convert(v);
    }

    /** Entity.ScanLiteral, called with the opening quote as `lastchar`. */
    method ScanLiteral(quote: Unit) returns (r: Result<Units, SgmlError>)
      requires Valid()
      modifies this`pos, this`line, this`lineStart, this`absolutePos, this`lastchar, this`isWhitespace
      ensures Valid() && Scanned(r, Cur()) == Literal(input, old(Cur()), quote, isHtml)
    {
      var ch := ReadChar();
      ghost var c0 := Cur();
      var sb: Units := [];
      PrependNothing(LiteralRun(input, c0, quote, isHtml));
      while ch != EOF && ch != quote
        invariant Valid() && ch == lastchar
        invariant Prepend(sb, LiteralRun(input, Cur(), quote, isHtml)) == LiteralRun(input, c0, quote, isHtml)
        decreases Remaining(input, Cur())
      {
        ghost var c := Cur();
        NextProgress(input, c);
        if ch == AMP {
          ch := ReadChar();
          NextProgress(input, Cur());
          if ch == HASH {
            var e := ExpandCharEntity();
            if e.Failure? {
              return e;
            }
            PrependTwice(sb, e.value, LiteralRun(input, Cur(), quote, isHtml));
            sb := sb + e.value;
            ch := lastchar;
          } else {
            PrependTwice(sb, [AMP, ch], LiteralRun(input, Next(input, Cur()), quote, isHtml));
            sb := sb + [AMP, ch];
            ch := ReadChar();
          }
        } else {
          PrependTwice(sb, [ch], LiteralRun(input, Next(input, c), quote, isHtml));
          sb := sb + [ch];
          ch := ReadChar();
        }
      }
      ghost var last := Cur();
      assert LiteralRun(input, last, quote, isHtml) == Scanned(Success([]), Next(input, last));
      ch := ReadChar();
      assert sb + [] == sb;
      return Success(sb);
    }

    /**
     * Entity.ScanToEnd: reads past the first occurrence of `terminators`,
     * keeping the text before it.
     */
    method ScanToEnd(terminators: Units) returns (r: Result<Units, SgmlError>)
      requires Valid() && |terminators| > 0
      modifies this`pos, this`line, this`lineStart, this`absolutePos, this`lastchar, this`isWhitespace
      ensures Valid() && Scanned(r, Cur()) == ToEnd(input, old(Cur()), terminators)
    {
      var t := terminators;
      var ch := ReadChar();
      ghost var c0 := Cur();
      var state: nat := 0;
      var sb: Units := [];
      PrependNothing(ToEndRun(input, c0, t, 0));
      while ch != EOF
        invariant Valid() && ch == lastchar && state < |t|
        invariant Prepend(sb, ToEndRun(input, Cur(), t, state)) == ToEndRun(input, c0, t, 0)
        decreases Remaining(input, Cur())
      {
        ghost var c := Cur();
        NextProgress(input, c);
        if ch == t[state] {
          state := state + 1;
          if state >= |t| {
            assert Prepend(sb, Scanned(Success([]), Next(input, c))) == ToEndRun(input, c0, t, 0);
            break;
          }
        } else if state > 0 {
          var n := FallBack(t, state, ch);
          if n == 0 {
            PrependTwice(sb, t[..state] + [ch], ToEndRun(input, Next(input, c), t, 0));
            sb := sb + (t[..state] + [ch]);
          } else {
            PrependTwice(sb, t[..state - n + 1], ToEndRun(input, Next(input, c), t, n));
            sb := sb + t[..state - n + 1];
          }
          state := n;
        } else {
          PrependTwice(sb, [ch], ToEndRun(input, Next(input, c), t, 0));
          sb := sb + [ch];
        }
        ch := ReadChar();
      }
      assert Prepend(sb, Scanned(Success([]), Next(input, Cur()))) == ToEndRun(input, c0, t, 0);
      ch := ReadChar();
      assert sb + [] == sb;
      return Success(sb);
    }

    /** Entity.Context, walking the parent chain from this entity up. */
    method Context(ghost chain: seq<Entity>) returns (r: seq<ContextLine>)
      requires ParentChain(this, chain)
      ensures r == ContextOf(chain)
    {
      var p: Entity? := this;
      ghost var rest := chain;
      r := [];
      while p != null
        invariant p == if rest == [] then null else rest[0]
        invariant rest != [] ==> ParentChain(rest[0], rest)
        invariant r + ContextOf(rest) == ContextOf(chain)
        decreases |rest|
      {
        var uri := p.ResolvedUri(rest);
        var line := if p.isInternal then InInternal(p.line, p.LinePos(), p.name)
          else InExternal(p.line, p.LinePos(), p.name, uri);
        ContextStep(r, rest, line);
        r := r + [line];
        p := p.parent;
        rest := rest[1..];
      }
    }

    /** Entity.ResolvedUri: this entity's own location, else its parent's. */
    method ResolvedUri(ghost chain: seq<Entity>) returns (u: Option<Units>)
      requires ParentChain(this, chain)
      ensures u == FirstUri(chain)
    {
      var p: Entity? := this;
      ghost var rest := chain;
      while p != null && p.resolvedUri.None?
        invariant p == if rest == [] then null else rest[0]
        invariant rest != [] ==> ParentChain(rest[0], rest)
        invariant FirstUri(rest) == FirstUri(chain)
        decreases |rest|
      {
        p := p.parent;
        rest := rest[1..];
      }
      if p == null {
        return None;
      }
      return p.resolvedUri;
    }
  }

  /**
   * The search of ScanToEnd after `ch` failed to extend a partial match of
   * length `state`: the length of the partial match it resumes with.
   */
  method FallBack(t: Units, state: nat, ch: Unit) returns (n: nat)
    requires 0 < state < |t|
    ensures n == Fall(t, state, ch, state - 1)
  {
    var i := state - 1;
    n := 0;
    while i >= 0 && n == 0
      invariant -1 <= i < state
      invariant n == 0 ==> Fall(t, state, ch, i) == Fall(t, state, ch, state - 1)
      invariant n != 0 ==> n == Fall(t, state, ch, state - 1)
      decreases i + 1, if n == 0 then 1 else 0
    {
      if t[i] == ch {
        var b := MatchesBack(t, i, state);
        if b {
          n := i + 1;
        } else {
          i := i - 1;
        }
      } else {
        i := i - 1;
      }
    }
  }

  /** The inner comparison of ScanToEnd's search: whether the `i` characters before `i` and before `state` agree. */
  method MatchesBack(t: Units, i: nat, state: nat) returns (b: bool)
    requires i < state <= |t|
    ensures b == Border(t, i, state)
  {
    var j := 1;
    while i - j >= 0 && t[i - j] == t[state - j]
      invariant 1 <= j <= i + 1
      invariant forall k | i - j < k < i :: t[k] == t[state - i + k]
      decreases i - j + 1
    {
      j := j + 1;
    }
    b := j > i;
    if b {
      forall m | 0 <= m < i
        ensures t[..i][m] == t[state - i..state][m]
      {
        assert t[state - i..state][m] == t[state - i + m];
      }
    } else {
      assert t[..i][i - j] != t[state - i..state][i - j];
    }
  }

  /** The entities from `e` up through its parents, as Parent links them. */
  ghost predicate ParentChain(e: Entity, chain: seq<Entity>)
    reads chain`parent
    decreases |chain|
  {
    |chain| > 0 && chain[0] == e &&
    if |chain| == 1 then e.parent == null else e.parent == chain[1] && ParentChain(chain[1], chain[1..])
  }

  /** The first location set along a chain of entities. */
  function FirstUri(chain: seq<Entity>): Option<Units>
    reads chain
  {
    if chain == [] then None
    else if chain[0].resolvedUri.Some? then chain[0].resolvedUri
    else FirstUri(chain[1..])
  }

  /** The Context line of the first entity of a chain. */
  function HeadLine(chain: seq<Entity>): ContextLine
    requires |chain| > 0
    reads chain
  {
    var e := chain[0];
    if e.isInternal then InInternal(e.line, e.absolutePos - e.lineStart + 1, e.name)
    else InExternal(e.line, e.absolutePos - e.lineStart + 1, e.name, FirstUri(chain))
  }

  /** Entity.Context as lines, one per entity of the chain, innermost first. */
  function ContextOf(chain: seq<Entity>): (r: seq<ContextLine>)
    reads chain
    ensures |r| == |chain|
  {
    if chain == [] then [] else [HeadLine(chain)] + ContextOf(chain[1..])
  }

  lemma ContextStep(r: seq<ContextLine>, rest: seq<Entity>, line: ContextLine)
    requires rest != [] && line == HeadLine(rest)
    ensures (r + [line]) + ContextOf(rest[1..]) == r + ContextOf(rest)
  {
  }

  /** What Context reports for each entity of the chain: its line, position and name, and whether it is internal. */
  lemma {:induction false} ContextReports(chain: seq<Entity>)
    ensures forall i | 0 <= i < |chain| ::
      var l := ContextOf(chain)[i];
      l.line == chain[i].line && l.name == chain[i].name &&
      l.position == chain[i].absolutePos - chain[i].lineStart + 1 && (l.InInternal? <==> chain[i].isInternal)
  {
    if chain != [] {
      ContextReports(chain[1..]);
      forall i | 1 <= i < |chain|
        ensures ContextOf(chain)[i] == ContextOf(chain[1..])[i - 1] && chain[i] == chain[1..][i - 1]
      {
      }
    }
  }
}
