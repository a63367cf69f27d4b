/**
 * The reading position of an SGML entity and what each of Entity's scanning
 * methods does to it, as functions of the entity's text. `lastchar` is the
 * character under examination; every read moves on by one character, and a
 * read past the end gives EOF.
 */
module SgmlStream {
  import opened Wrappers
  import opened SgmlText

  /**
   * The reading state of an entity: how far into its text the reader is
   * (`pos`), and the counters Entity keeps (m_line, m_lineStart,
   * m_absolutePos, m_lastchar, m_isWhitespace).
   */
  datatype Cursor = Cursor(pos: nat, line: int, lineStart: int, absolutePos: int, lastchar: Unit, isWhitespace: bool)

  /** What the reader gives at position `i` of the text, cast to a char: EOF past the end. */
  function At(input: Units, i: nat): Unit {
    if i < |input| then input[i] else EOF
  }

  /** What ReadChar returns at position `i`: a NUL is read as a space. */
  function Char(input: Units, i: nat): (ch: Unit)
    ensures ch != NUL
    ensures i >= |input| ==> ch == EOF
  {
    if At(input, i) == NUL then SPACE else At(input, i)
  }

  /** A character that starts a new line after `prev`: a line feed, or anything but CR and LF after a CR. */
  predicate Breaks(prev: Unit, ch: Unit) {
    ch == LF || (ch != CR && prev == CR)
  }

  /** Entity.LinePosition. */
  function LinePosition(c: Cursor): int {
    c.absolutePos - c.lineStart + 1
  }

  /**
   * Entity.ReadChar: the next character becomes `lastchar` and the absolute
   * position grows by one; a line break counts a line and moves the line
   * start, to after a line feed or onto the character after a CR.
   */
  function Next(input: Units, c: Cursor): (r: Cursor)
    ensures r.lastchar == Char(input, c.pos) && r.absolutePos == c.absolutePos + 1
    ensures r.pos == if c.pos < |input| then c.pos + 1 else c.pos
    ensures r.line == if Breaks(c.lastchar, r.lastchar) then c.line + 1 else c.line
    ensures r.isWhitespace == IsWhite(r.lastchar)
    ensures !Breaks(c.lastchar, r.lastchar) ==> r.lineStart == c.lineStart
    ensures Breaks(c.lastchar, r.lastchar) ==> LinePosition(r) == if r.lastchar == LF then 0 else 1
  {
    var ch := Char(input, c.pos);
    var p := c.absolutePos + 1;
    var pos := if c.pos < |input| then c.pos + 1 else c.pos;
    if ch == LF then
      Cursor(pos, c.line + 1, p + 1, p, ch, true)
    else if ch == SPACE || ch == TAB then
      if c.lastchar == CR then Cursor(pos, c.line + 1, p, p, ch, true) else Cursor(pos, c.line, c.lineStart, p, ch, true)
    else if ch == CR then
      Cursor(pos, c.line, c.lineStart, p, ch, true)
    else if c.lastchar == CR then
      Cursor(pos, c.line + 1, p, p, ch, false)
    else
      Cursor(pos, c.line, c.lineStart, p, ch, false)
  }

  /** The character `i` places ahead of the one under examination (0 is `lastchar` itself). */
  function Peek(input: Units, c: Cursor, i: nat): Unit {
    if i == 0 then c.lastchar else Char(input, c.pos + i - 1)
  }

  /** `k` reads. */
  function ReadN(input: Units, c: Cursor, k: nat): Cursor
    decreases k
  {
    if k == 0 then c else ReadN(input, Next(input, c), k - 1)
  }

  /** After a read, what lies ahead is what lay ahead one place further. */
  lemma PeekNext(input: Units, c: Cursor)
    requires c.pos <= |input|
    ensures forall i: nat :: Peek(input, Next(input, c), i) == Peek(input, c, i + 1)
  {
  }

  /** A measure of what is left to read: it never grows, and shrinks with each read that does not start at EOF. */
  function Remaining(input: Units, c: Cursor): nat
    requires c.pos <= |input|
  {
    2 * (|input| - c.pos) + (if c.lastchar == EOF then 0 else 1)
  }

  lemma NextProgress(input: Units, c: Cursor)
    requires c.pos <= |input|
    ensures Next(input, c).pos <= |input|
    ensures Remaining(input, Next(input, c)) <= Remaining(input, c)
    ensures c.lastchar != EOF ==> Remaining(input, Next(input, c)) < Remaining(input, c)
  {
  }

  /** Line breaks among the `k` characters read after `lastchar`. */
  function Lines(input: Units, c: Cursor, k: nat): nat
    decreases k
  {
    if k == 0 then 0 else Lines(input, c, k - 1) + (if Breaks(Peek(input, c, k - 1), Peek(input, c, k)) then 1 else 0)
  }

  /**
   * After `k` reads: `lastchar` is the character that lay `k` places ahead,
   * the absolute position has grown by `k`, the line count by the line breaks
   * read, and what lies ahead has moved by `k` places.
   */
  lemma {:induction false} ReadNFacts(input: Units, c: Cursor, k: nat)
    requires c.pos <= |input|
    ensures var r := ReadN(input, c, k);
      r.pos <= |input| && r.lastchar == Peek(input, c, k) && r.absolutePos == c.absolutePos + k &&
      r.line == c.line + Lines(input, c, k) &&
      forall i: nat :: Peek(input, r, i) == Peek(input, c, k + i)
    decreases k
  {
    if k > 0 {
      var n := Next(input, c);
      PeekNext(input, c);
      ReadNFacts(input, n, k - 1);
      LinesShift(input, c, k);
    }
  }

  /** Counting line breaks after one read is counting them one place further on. */
  lemma {:induction false} LinesShift(input: Units, c: Cursor, k: nat)
    requires c.pos <= |input| && k > 0
    ensures Lines(input, c, k) ==
      Lines(input, Next(input, c), k - 1) + (if Breaks(c.lastchar, Peek(input, c, 1)) then 1 else 0)
    decreases k
  {
    PeekNext(input, c);
    if k > 1 {
      LinesShift(input, c, k - 1);
    }
  }

  // -------------------------------------------------------------- white

  /** Entity.SkipWhitespace: from `lastchar` on, the first character that is not white space. */
  function SkipWs(input: Units, c: Cursor): (r: Cursor)
    requires c.pos <= |input|
    ensures r.pos <= |input| && Remaining(input, r) <= Remaining(input, c)
    ensures !IsWhite(r.lastchar)
    ensures !IsWhite(c.lastchar) ==> r == c
    decreases Remaining(input, c)
  {
    if c.lastchar != EOF && IsWhite(c.lastchar) then
      NextProgress(input, c);
      SkipWs(input, Next(input, c))
    else
      c
  }

  /** SkipWhitespace reads exactly the run of white space before the character it returns. */
  lemma {:induction false} SkipWsReads(input: Units, c: Cursor) returns (k: nat)
    requires c.pos <= |input|
    ensures SkipWs(input, c) == ReadN(input, c, k)
    ensures forall i | 0 <= i < k :: IsWhite(Peek(input, c, i))
    ensures !IsWhite(Peek(input, c, k))
    decreases Remaining(input, c)
  {
    if c.lastchar != EOF && IsWhite(c.lastchar) {
      NextProgress(input, c);
      PeekNext(input, c);
      var j := SkipWsReads(input, Next(input, c));
      k := j + 1;
      forall i | 0 <= i < k
        ensures IsWhite(Peek(input, c, i))
      {
        if i > 0 {
          assert Peek(input, c, i) == Peek(input, Next(input, c), i - 1);
        }
      }
    } else {
      k := 0;
    }
  }

  // -------------------------------------------------------------- tokens

  /** What a scan produced and where it left the reader. */
  datatype Scanned = Scanned(result: Result<Units, SgmlError>, cur: Cursor)

  /** A scan that produced `acc` before going on with `r`. */
  function Prepend(acc: Units, r: Scanned): (p: Scanned)
    ensures p.cur == r.cur && p.result.Success? == r.result.Success?
    ensures r.result.Success? ==> p.result.value == acc + r.result.value
    ensures r.result.Failure? ==> p == r
  {
    if r.result.Success? then Scanned(Success(acc + r.result.value), r.cur) else r
  }

  lemma PrependNothing(r: Scanned)
    ensures Prepend([], r) == r
  {
    if r.result.Success? {
      assert [] + r.result.value == r.result.value;
    }
  }

  lemma PrependTwice(a: Units, b: Units, r: Scanned)
    ensures Prepend(a, Prepend(b, r)) == Prepend(a + b, r)
  {
    if r.result.Success? {
      assert a + (b + r.result.value) == (a + b) + r.result.value;
    }
  }

  /** The characters ScanToken accepts in a name token after the first. */
  predicate IsNameChar(ch: Unit) {
    ch == UNDERSCORE || ch == DOT || ch == HYPHEN || ch == COLON || IsLetterOrDigit(ch)
  }

  /**
   * The loop of ScanToken: characters from `lastchar` up to EOF or a
   * terminator, which is left unread; in name-token mode any other character
   * that is not a name character is an error.
   */
  function TokenRun(input: Units, c: Cursor, term: Units, nmtoken: bool): (r: Scanned)
    requires c.pos <= |input|
    ensures r.cur.pos <= |input| && Remaining(input, r.cur) <= Remaining(input, c)
    ensures !nmtoken ==> r.result.Success?
    ensures r.result.Success? && c.lastchar != EOF && c.lastchar !in term ==> Remaining(input, r.cur) < Remaining(input, c)
    decreases Remaining(input, c)
  {
    var ch := c.lastchar;
    if ch == EOF || ch in term then
      Scanned(Success([]), c)
    else if nmtoken && !IsNameChar(ch) then
      Scanned(Failure(InvalidNameChar(ch)), c)
    else
      NextProgress(input, c);
      Prepend([ch], TokenRun(input, Next(input, c), term, nmtoken))
  }

  /**
   * A token is the characters read up to EOF or a terminator, none of them
   * a terminator (and, for a name token, each a name character), and the
   * reader stops on the EOF or the terminator.
   */
  lemma {:induction false} TokenRunSpells(input: Units, c: Cursor, term: Units, nmtoken: bool)
    requires c.pos <= |input|
    ensures var r := TokenRun(input, c, term, nmtoken);
      r.result.Success? ==>
      var t := r.result.value;
      r.cur == ReadN(input, c, |t|) &&
      (forall i | 0 <= i < |t| :: t[i] == Peek(input, c, i) && t[i] != EOF && t[i] !in term && (nmtoken ==> IsNameChar(t[i]))) &&
      (r.cur.lastchar == EOF || r.cur.lastchar in term)
    decreases Remaining(input, c)
  {
    var ch := c.lastchar;
    if !(ch == EOF || ch in term) && !(nmtoken && !IsNameChar(ch)) {
      NextProgress(input, c);
      PeekNext(input, c);
      TokenRunSpells(input, Next(input, c), term, nmtoken);
    }
  }

  /** Entity.ScanToken: in name-token mode the token must start with a letter or '_'. */
  function Token(input: Units, c: Cursor, term: Units, nmtoken: bool): (r: Scanned)
    requires c.pos <= |input|
    ensures r.cur.pos <= |input| && Remaining(input, r.cur) <= Remaining(input, c)
    ensures !nmtoken ==> r == TokenRun(input, c, term, nmtoken)
    ensures nmtoken && r.result.Success? ==> (c.lastchar == UNDERSCORE || IsLetter(c.lastchar)) && r == TokenRun(input, c, term, nmtoken)
    ensures r.result.Failure? ==> r.cur == c || r == TokenRun(input, c, term, nmtoken)
  {
    if nmtoken && c.lastchar != UNDERSCORE && !IsLetter(c.lastchar) then
      Scanned(Failure(InvalidNameStart(c.lastchar)), c)
    else
      TokenRun(input, c, term, nmtoken)
  }

  // ------------------------------------------------- character references

  /** The Windows-1252 characters for the code points 0x80 to 0x9F. */
  const CtrlMap: seq<int> := [
    8364, 129, 8218, 402, 8222, 8230, 8224, 8225, 710, 8240, 352, 8249, 338, 141,
    381, 143, 144, 8216, 8217, 8220, 8221, 8226, 8211, 8212, 732, 8482, 353, 8250,
    339, 157, 382, 376]

  predicate IsHexDigit(ch: Unit) {
    IsDigit(ch) || 97 <= ch <= 102 || 65 <= ch <= 70
  }

  function HexValue(ch: Unit): (d: int)
    requires IsHexDigit(ch)
    ensures 0 <= d < 16
  {
    if IsDigit(ch) then ch as int - 48 else if 97 <= ch <= 102 then ch as int - 97 + 10 else ch as int - 65 + 10
  }

  /** The digit loop of ReadNumericEntityCode, with the value, the text read and whether a digit was seen. */
  datatype Digits = Digits(v: int, text: Units, saw: bool, cur: Cursor)

  /**
   * Digits of base 10 or 16 from `lastchar` up to EOF, ';' or the first other
   * character; the value is accumulated in 32-bit arithmetic that wraps.
   */
  function DigitRun(input: Units, c: Cursor, hex: bool, v: int, text: Units, saw: bool): (r: Digits)
    requires c.pos <= |input|
    ensures r.cur.pos <= |input| && Remaining(input, r.cur) <= Remaining(input, c)
    ensures |r.text| >= |text| && r.text[..|text|] == text
    ensures r.saw <==> saw || |r.text| > |text|
    decreases Remaining(input, c)
  {
    var ch := c.lastchar;
    if ch == EOF || ch == SEMI || !IsBaseDigit(ch, hex) then Digits(v, text, saw, c)
    else
      NextProgress(input, c);
      DigitRun(input, Next(input, c), hex, Wrap32(v * Base(hex) + DigitValue(ch, hex)), text + [ch], true)
  }

  /** What ReadNumericEntityCode returns: the value, -1 when there was no digit, and the text read. */
  datatype Numeric = Numeric(v: int, text: Units, cur: Cursor)

  /**
   * Entity.ReadNumericEntityCode, called on the '#' of a reference: decimal
   * digits, or hex digits after 'x'. Without a digit the result is -1 and the
   * text read so far; otherwise a ';' ending the digits is read past.
   */
  function NumericCode(input: Units, c: Cursor): (r: Numeric)
    requires c.pos <= |input|
    ensures r.cur.pos <= |input| && Remaining(input, r.cur) <= Remaining(input, c)
    ensures c.lastchar != EOF ==> Remaining(input, r.cur) < Remaining(input, c)
  {
    var c1 := Next(input, c);
    NextProgress(input, c);
    var hex := c1.lastchar == 120;
    var start := if hex then Next(input, c1) else c1;
    NextProgress(input, c1);
    var d := DigitRun(input, start, hex, 0, if hex then [AMP, HASH, 120] else [AMP, HASH], false);
    if !d.saw then Numeric(-1, d.text, d.cur)
    else if d.cur.lastchar == SEMI then
      NextProgress(input, d.cur);
      Numeric(d.v, d.text, Next(input, d.cur))
    else
      Numeric(d.v, d.text, d.cur)
  }

  /**
   * Entity.ExpandCharEntity, called on the '#' of a reference: the text of a
   * reference without digits is kept; in HTML mode 0x80 to 0x9F are read as
   * Windows-1252; a high surrogate must be followed by a second reference,
   * and a low surrogate there is joined with it; anything else is converted
   * from its code point.
   */
  function CharEntity(input: Units, c: Cursor, isHtml: bool): (r: Scanned)
    requires c.pos <= |input|
    ensures r.cur.pos <= |input| && Remaining(input, r.cur) <= Remaining(input, c)
    ensures c.lastchar != EOF ==> Remaining(input, r.cur) < Remaining(input, c)
  {
    var n := NumericCode(input, c);
    if n.v == -1 then Scanned(Success(n.text), n.cur)
    else if isHtml && 0x80 <= n.v <= 0x9F then Scanned(Success([CtrlMap[n.v - 0x80] as Unit]), n.cur)
    else if IsHighSurrogate(n.v) then
      if n.cur.lastchar == AMP then
        var c2 := Next(input, n.cur);
        NextProgress(input, n.cur);
        if c2.lastchar == HASH then
          var n2 := NumericCode(input, c2);
          if n2.v == -1 then Scanned(Success(n.text + [SEMI] + n2.text), n2.cur)
          else if IsLowSurrogate(n2.v) then Scanned(Convert(Join(n.v, n2.v)), n2.cur)
          else Scanned(Convert(n.v), n2.cur)
        else Scanned(Failure(PrematureSurrogate(c2.lastchar)), c2)
      else Scanned(Failure(PrematureSurrogate(n.cur.lastchar)), n.cur)
    else Scanned(Convert(n.v), n.cur)
  }

  /** char.ConvertFromUtf32 with its failure as a reader error. */
  function Convert(v: int): (r: Result<Units, SgmlError>)
    ensures r.Success? <==> IsScalar(v)
    ensures r.Success? ==> Success(r.value) == FromUtf32(v)
  {
    match FromUtf32(v)
    case Success(s) => Success(s)
    case Failure(_) => Failure(CharOutOfRange(v))
  }

  // --------------------------------------------- the value of a reference

  /** A digit of base 16 when `hex`, of base 10 otherwise. */
  predicate IsBaseDigit(ch: Unit, hex: bool) {
    if hex then IsHexDigit(ch) else IsDigit(ch)
  }

  predicate AllBaseDigits(ds: Units, hex: bool) {
    forall i | 0 <= i < |ds| :: IsBaseDigit(ds[i], hex)
  }

  function Base(hex: bool): nat {
    if hex then 16 else 10
  }

  function DigitValue(ch: Unit, hex: bool): (d: nat)
    requires IsBaseDigit(ch, hex)
    ensures d < Base(hex)
  {
    if hex then HexValue(ch) else ch as int - 48
  }

  /** The number a string of digits stands for in positional notation. */
  function Positional(ds: Units, hex: bool): nat
    requires AllBaseDigits(ds, hex)
    decreases |ds|
  {
    if ds == [] then 0 else Positional(ds[..|ds| - 1], hex) * Base(hex) + DigitValue(ds[|ds| - 1], hex)
  }

  /** The `k` characters from `o` places ahead. */
  function Ahead(input: Units, c: Cursor, o: nat, k: nat): (s: Units)
    ensures |s| == k && forall i | 0 <= i < k :: s[i] == Peek(input, c, o + i)
  {
    seq(k, i requires 0 <= i < k => Peek(input, c, o + i))
  }

  /** Where the digits of a reference start, counted from its '#'. */
  function Offset(hex: bool): nat {
    if hex then 2 else 1
  }

  /** `a` reads and then `b` more are `a + b` reads. */
  lemma {:induction false} ReadNAdd(input: Units, c: Cursor, a: nat, b: nat)
    ensures ReadN(input, c, a + b) == ReadN(input, ReadN(input, c, a), b)
    decreases a
  {
    if a > 0 {
      ReadNAdd(input, Next(input, c), a - 1, b);
    }
  }

  /** A digit written after others multiplies their value by the base and adds its own. */
  lemma PositionalSnoc(pre: Units, ch: Unit, hex: bool)
    requires AllBaseDigits(pre, hex) && IsBaseDigit(ch, hex)
    ensures AllBaseDigits(pre + [ch], hex)
    ensures Positional(pre + [ch], hex) == Positional(pre, hex) * Base(hex) + DigitValue(ch, hex)
  {
    assert (pre + [ch])[..|pre|] == pre;
  }

  /** What lies ahead is the character under examination followed by what lies ahead after a read. */
  lemma AheadNext(input: Units, c: Cursor, k: nat)
    requires c.pos <= |input| && k > 0
    ensures Ahead(input, c, 0, k) == [c.lastchar] + Ahead(input, Next(input, c), 0, k - 1)
    ensures Peek(input, Next(input, c), k - 1) == Peek(input, c, k)
  {
    PeekNext(input, c);
    var ds := Ahead(input, c, 0, k);
    var ds' := Ahead(input, Next(input, c), 0, k - 1);
    assert forall i | 0 <= i < k - 1 :: ds'[i] == ds[i + 1];
  }

  /** One turn of the digit loop on a digit. */
  lemma DigitRunStep(input: Units, c: Cursor, hex: bool, v: int, text: Units, saw: bool)
    requires c.pos <= |input| && IsBaseDigit(c.lastchar, hex)
    ensures DigitRun(input, c, hex, v, text, saw) ==
      DigitRun(input, Next(input, c), hex, Wrap32(v * Base(hex) + DigitValue(c.lastchar, hex)), text + [c.lastchar], true)
  {
    NextProgress(input, c);
  }

  /** The digit loop stops on anything that is not a digit. */
  lemma DigitRunStop(input: Units, c: Cursor, hex: bool, v: int, text: Units, saw: bool)
    requires c.pos <= |input| && !IsBaseDigit(c.lastchar, hex)
    ensures DigitRun(input, c, hex, v, text, saw) == Digits(v, text, saw, c)
  {
  }

  /**
   * The digit loop reads exactly the run of digits ahead and stops on the
   * first character that is not one.
   */
  lemma {:induction false} DigitRunReads(input: Units, c: Cursor, hex: bool, v: int, text: Units, saw: bool, k: nat)
    requires c.pos <= |input|
    requires AllBaseDigits(Ahead(input, c, 0, k), hex) && !IsBaseDigit(Peek(input, c, k), hex)
    ensures var r := DigitRun(input, c, hex, v, text, saw);
      r.text == text + Ahead(input, c, 0, k) && r.cur == ReadN(input, c, k) && (r.saw <==> saw || k > 0)
    decreases k
  {
    var ds := Ahead(input, c, 0, k);
    if k == 0 {
      DigitRunStop(input, c, hex, v, text, saw);
      assert text + ds == text;
    } else {
      var ch := c.lastchar;
      var n := Next(input, c);
      AheadNext(input, c, k);
      var ds' := Ahead(input, n, 0, k - 1);
      assert ds[0] == ch && ds' == ds[1..];
      DigitRunStep(input, c, hex, v, text, saw);
      DigitRunReads(input, n, hex, Wrap32(v * Base(hex) + DigitValue(ch, hex)), text + [ch], true, k - 1);
      AppendAssoc(text, [ch], ds');
    }
  }

  lemma FirstAndRest(s: Units)
    requires s != []
    ensures s == [s[0]] + s[1..]
  {
  }

  lemma AppendAssoc(a: Units, b: Units, c: Units)
    ensures (a + b) + c == a + (b + c)
  {
  }

  /**
   * The number the digit loop would compute from `v` and the digits `ds`
   * in exact arithmetic.
   */
  function Spelled(v: int, ds: Units, hex: bool): int
    requires AllBaseDigits(ds, hex)
    decreases |ds|
  {
    if ds == [] then v else Spelled(v * Base(hex) + DigitValue(ds[0], hex), ds[1..], hex)
  }

  /** Taking in a digit keeps a value that is not negative so. */
  lemma ShiftNonneg(v: int, hex: bool, d: nat)
    requires v >= 0
    ensures v * Base(hex) + d >= 0
  {
  }

  /** The first digit is taken in first. */
  lemma SpelledFirst(v: int, ch: Unit, rest: Units, hex: bool)
    requires AllBaseDigits([ch] + rest, hex)
    ensures IsBaseDigit(ch, hex) && AllBaseDigits(rest, hex)
    ensures Spelled(v, [ch] + rest, hex) == Spelled(v * Base(hex) + DigitValue(ch, hex), rest, hex)
  {
    assert ([ch] + rest)[0] == ch && ([ch] + rest)[1..] == rest;
  }

  /** Taking in more digits never makes a number smaller. */
  lemma {:induction false} SpelledGrows(v: int, ds: Units, hex: bool)
    requires AllBaseDigits(ds, hex) && v >= 0
    ensures Spelled(v, ds, hex) >= v
    decreases |ds|
  {
    if ds != [] {
      assert v * Base(hex) >= v;
      SpelledGrows(v * Base(hex) + DigitValue(ds[0], hex), ds[1..], hex);
    }
  }

  /**
   * Folding digits in from the front, after the value of `pre`, gives the
   * positional value of `pre` followed by them.
   */
  lemma {:induction false} SpelledPositional(pre: Units, ds: Units, hex: bool)
    requires AllBaseDigits(pre, hex) && AllBaseDigits(ds, hex)
    ensures AllBaseDigits(pre + ds, hex)
    ensures Spelled(Positional(pre, hex), ds, hex) == Positional(pre + ds, hex)
    decreases |ds|
  {
    if ds == [] {
      assert pre + ds == pre;
    } else {
      FirstAndRest(ds);
      PositionalSnoc(pre, ds[0], hex);
      SpelledPositional(pre + [ds[0]], ds[1..], hex);
      AppendAssoc(pre, [ds[0]], ds[1..]);
    }
  }

  /**
   * When the number the digits ahead spell after `v` fits in an int, the
   * digit loop's wrapping arithmetic gives that number.
   */
  lemma {:induction false} DigitRunValue(input: Units, c: Cursor, hex: bool, v: int, text: Units, saw: bool, k: nat)
    requires c.pos <= |input| && v >= 0
    requires AllBaseDigits(Ahead(input, c, 0, k), hex) && !IsBaseDigit(Peek(input, c, k), hex)
    requires Spelled(v, Ahead(input, c, 0, k), hex) < 0x8000_0000
    ensures DigitRun(input, c, hex, v, text, saw).v == Spelled(v, Ahead(input, c, 0, k), hex)
    decreases k
  {
    var ds := Ahead(input, c, 0, k);
    if k == 0 {
      DigitRunStop(input, c, hex, v, text, saw);
    } else {
      var ch := c.lastchar;
      var n := Next(input, c);
      AheadNext(input, c, k);
      var ds' := Ahead(input, n, 0, k - 1);
      SpelledFirst(v, ch, ds', hex);
      var x := v * Base(hex) + DigitValue(ch, hex);
      assert x >= 0 by { ShiftNonneg(v, hex, DigitValue(ch, hex)); }
      SpelledGrows(x, ds', hex);
      assert Wrap32(x) == x;
      DigitRunStep(input, c, hex, v, text, saw);
      DigitRunValue(input, n, hex, x, text + [ch], true, k - 1);
    }
  }

  /** After `o` reads, what lay `o` places ahead lies ahead. */
  lemma AheadShift(input: Units, c: Cursor, o: nat, k: nat)
    requires c.pos <= |input|
    ensures ReadN(input, c, o).pos <= |input| && ReadN(input, c, o).lastchar == Peek(input, c, o)
    ensures Ahead(input, ReadN(input, c, o), 0, k) == Ahead(input, c, o, k)
    ensures Peek(input, ReadN(input, c, o), k) == Peek(input, c, o + k)
  {
    ReadNFacts(input, c, o);
  }

  /** ReadNumericEntityCode in terms of the digit loop started past the '#' and any 'x'. */
  lemma NumericCodeUnfold(input: Units, c: Cursor)
    requires c.pos <= |input|
    ensures var hex := Peek(input, c, 1) == 120;
      var start := ReadN(input, c, Offset(hex));
      start.pos <= |input| &&
      var d := DigitRun(input, start, hex, 0, if hex then [AMP, HASH, 120] else [AMP, HASH], false);
      NumericCode(input, c) ==
        if !d.saw then Numeric(-1, d.text, d.cur)
        else if d.cur.lastchar == SEMI then Numeric(d.v, d.text, ReadN(input, d.cur, 1))
        else Numeric(d.v, d.text, d.cur)
  {
    NextProgress(input, c);
    NextProgress(input, Next(input, c));
  }

  /**
   * A numeric reference, read from its '#': the digits (after an 'x' for
   * hex) are read up to the first other character and a ';' after them is
   * read past; without digits the value is -1 and the reader stays on the
   * character that is not a digit.
   */
  lemma NumericCodeReads(input: Units, c: Cursor, hex: bool, k: nat)
    requires c.pos <= |input| && (Peek(input, c, 1) == 120) == hex
    requires AllBaseDigits(Ahead(input, c, Offset(hex), k), hex) && !IsBaseDigit(Peek(input, c, Offset(hex) + k), hex)
    ensures var r := NumericCode(input, c);
      r.text == (if hex then [AMP, HASH, 120] else [AMP, HASH]) + Ahead(input, c, Offset(hex), k) &&
      (k == 0 ==> r.v == -1 && r.cur == ReadN(input, c, Offset(hex))) &&
      (k > 0 ==> r.cur == ReadN(input, c, Offset(hex) + k + (if Peek(input, c, Offset(hex) + k) == SEMI then 1 else 0)))
  {
    var o := Offset(hex);
    var start := ReadN(input, c, o);
    var prefix: Units := if hex then [AMP, HASH, 120] else [AMP, HASH];
    NumericCodeUnfold(input, c);
    AheadShift(input, c, o, k);
    DigitRunReads(input, start, hex, 0, prefix, false, k);
    if k > 0 {
      var d := DigitRun(input, start, hex, 0, prefix, false);
      AheadShift(input, start, k, 0);
      ReadNAdd(input, c, o, k);
      assert d.cur == ReadN(input, c, o + k) && d.cur.lastchar == Peek(input, c, o + k);
      if Peek(input, c, o + k) == SEMI {
        ReadNAdd(input, c, o + k, 1);
      }
    }
  }

  /**
   * The value of a numeric reference is the number its digits spell
   * whenever that fits in an int.
   */
  lemma NumericCodeValue(input: Units, c: Cursor, hex: bool, k: nat)
    requires c.pos <= |input| && (Peek(input, c, 1) == 120) == hex && k > 0
    requires AllBaseDigits(Ahead(input, c, Offset(hex), k), hex) && !IsBaseDigit(Peek(input, c, Offset(hex) + k), hex)
    requires Positional(Ahead(input, c, Offset(hex), k), hex) < 0x8000_0000
    ensures NumericCode(input, c).v == Positional(Ahead(input, c, Offset(hex), k), hex)
  {
    var o := Offset(hex);
    var start := ReadN(input, c, o);
    var ds := Ahead(input, c, o, k);
    var prefix: Units := if hex then [AMP, HASH, 120] else [AMP, HASH];
    NumericCodeUnfold(input, c);
    AheadShift(input, c, o, k);
    DigitRunReads(input, start, hex, 0, prefix, false, k);
    SpelledPositional([], ds, hex);
    assert [] + ds == ds;
    DigitRunValue(input, start, hex, 0, prefix, false, k);
  }

  /**
   * A numeric reference whose digits spell a value that fits in an int and
   * is not a high surrogate: in HTML mode 0x80 to 0x9F give their
   * Windows-1252 character; otherwise a scalar value gives its UTF-16 code
   * units, and any other value is an error.
   */
  lemma CharEntityValue(input: Units, c: Cursor, isHtml: bool, hex: bool, k: nat)
    requires c.pos <= |input| && (Peek(input, c, 1) == 120) == hex && k > 0
    requires AllBaseDigits(Ahead(input, c, Offset(hex), k), hex) && !IsBaseDigit(Peek(input, c, Offset(hex) + k), hex)
    requires Positional(Ahead(input, c, Offset(hex), k), hex) < 0x8000_0000
    requires !IsHighSurrogate(Positional(Ahead(input, c, Offset(hex), k), hex))
    ensures var v := Positional(Ahead(input, c, Offset(hex), k), hex);
      var r := CharEntity(input, c, isHtml);
      (isHtml && 0x80 <= v <= 0x9F ==> r.result == Success([CtrlMap[v - 0x80] as Unit])) &&
      (!(isHtml && 0x80 <= v <= 0x9F) ==> (r.result.Success? <==> IsScalar(v)) && (r.result.Success? ==> Success(r.result.value) == FromUtf32(v)))
  {
    NumericCodeReads(input, c, hex, k);
    NumericCodeValue(input, c, hex, k);
  }

  // ------------------------------------------------------------ literals

  /**
   * The loop of ScanLiteral: characters up to EOF or the quote, which is read
   * past; `&#` starts a character reference, any other `&` is kept together
   * with the character after it.
   */
  function LiteralRun(input: Units, c: Cursor, quote: Unit, isHtml: bool): (r: Scanned)
    requires c.pos <= |input|
    ensures r.cur.pos <= |input| && Remaining(input, r.cur) <= Remaining(input, c)
    decreases Remaining(input, c)
  {
    var ch := c.lastchar;
    NextProgress(input, c);
    if ch == EOF || ch == quote then
      Scanned(Success([]), Next(input, c))
    else if ch == AMP then
      var c1 := Next(input, c);
      NextProgress(input, c1);
      if c1.lastchar == HASH then
        var e := CharEntity(input, c1, isHtml);
        if e.result.Failure? then e
        else
          Prepend(e.result.value, LiteralRun(input, e.cur, quote, isHtml))
      else
        Prepend([AMP, c1.lastchar], LiteralRun(input, Next(input, c1), quote, isHtml))
    else
      Prepend([ch], LiteralRun(input, Next(input, c), quote, isHtml))
  }

  /** Entity.ScanLiteral, called on the opening quote. */
  function Literal(input: Units, c: Cursor, quote: Unit, isHtml: bool): (r: Scanned)
    requires c.pos <= |input|
    ensures r.cur.pos <= |input| && Remaining(input, r.cur) <= Remaining(input, c)
    ensures c.lastchar != EOF ==> Remaining(input, r.cur) < Remaining(input, c)
  {
    NextProgress(input, c);
    LiteralRun(input, Next(input, c), quote, isHtml)
  }

  /**
   * A literal without `&`: the characters up to the first quote, with the
   * quote read past.
   */
  lemma {:induction false} LiteralPlain(input: Units, c: Cursor, quote: Unit, isHtml: bool, k: nat)
    requires c.pos <= |input| && quote != EOF
    requires forall i | 0 <= i < k :: Peek(input, c, i) != quote && Peek(input, c, i) != AMP && Peek(input, c, i) != EOF
    requires Peek(input, c, k) == quote
    ensures LiteralRun(input, c, quote, isHtml) == Scanned(Success(Ahead(input, c, 0, k)), ReadN(input, c, k + 1))
    decreases k
  {
    NextProgress(input, c);
    PeekNext(input, c);
    if k > 0 {
      var n := Next(input, c);
      forall i | 0 <= i < k - 1
        ensures Peek(input, n, i) != quote && Peek(input, n, i) != AMP && Peek(input, n, i) != EOF
      {
        assert Peek(input, n, i) == Peek(input, c, i + 1);
      }
      assert Peek(input, c, 0) == c.lastchar;
      LiteralPlain(input, n, quote, isHtml, k - 1);
      AheadNext(input, c, k);
    }
  }

  // ---------------------------------------------------------- scan to end

  /** The terminator's first `i` characters equal the `i` characters before position `state`. */
  predicate Border(t: Units, i: nat, state: nat)
    requires i <= state <= |t|
  {
    t[..i] == t[state - i..state]
  }

  /**
   * After `ch` failed to extend a partial match of length `state`, the
   * longest partial match that ends with `ch`: the largest `i` from `from`
   * down whose character is `ch` and whose `i` characters before it match the
   * text before `ch`; 0 when there is none.
   */
  function Fall(t: Units, state: nat, ch: Unit, from: int): (n: nat)
    requires -1 <= from < state <= |t|
    ensures n <= from + 1
    ensures n > 0 ==> t[n - 1] == ch && Border(t, n - 1, state)
    ensures forall i | n <= i <= from :: !(t[i] == ch && Border(t, i, state))
    decreases from + 1
  {
    if from < 0 then 0
    else if t[from] == ch && Border(t, from, state) then from + 1
    else Fall(t, state, ch, from - 1)
  }

  /**
   * The loop of ScanToEnd over `lastchar` and what follows, with a partial
   * match of length `state`: text that turns out not to belong to the
   * terminator is kept, and the scan stops after the terminator or at EOF,
   * where a partial match is dropped.
   */
  function ToEndRun(input: Units, c: Cursor, t: Units, state: nat): (r: Scanned)
    requires c.pos <= |input| && state < |t|
    ensures r.cur.pos <= |input| && r.result.Success? && Remaining(input, r.cur) <= Remaining(input, c)
    decreases Remaining(input, c)
  {
    var ch := c.lastchar;
    NextProgress(input, c);
    if ch == EOF then
      Scanned(Success([]), Next(input, c))
    else if ch == t[state] then
      if state + 1 >= |t| then Scanned(Success([]), Next(input, c))
      else ToEndRun(input, Next(input, c), t, state + 1)
    else if state > 0 then
      var n := Fall(t, state, ch, state - 1);
      if n == 0 then Prepend(t[..state] + [ch], ToEndRun(input, Next(input, c), t, 0))
      else Prepend(t[..state - n + 1], ToEndRun(input, Next(input, c), t, n))
    else
      Prepend([ch], ToEndRun(input, Next(input, c), t, 0))
  }

  /** Entity.ScanToEnd: the text after `lastchar` up to the terminator, which is read past. */
  function ToEnd(input: Units, c: Cursor, t: Units): (r: Scanned)
    requires c.pos <= |input| && |t| > 0
    ensures r.cur.pos <= |input| && r.result.Success? && Remaining(input, r.cur) <= Remaining(input, c)
    ensures c.lastchar != EOF ==> Remaining(input, r.cur) < Remaining(input, c)
  {
    NextProgress(input, c);
    ToEndRun(input, Next(input, c), t, 0)
  }

  // ------------------------------------------- scan to end, as written

  /** How ScanToEnd's backward search, as written, ends. */
  datatype Retreat = Miss | Resume(state: nat) | Stuck

  /**
   * The backward search of ScanToEnd as written: it stops at the first
   * position from `i` down holding `ch`, and when the characters before that
   * position do not match, it never moves on again.
   */
  function RetreatFrom(t: Units, state: nat, ch: Unit, i: int): (r: Retreat)
    requires -1 <= i < state <= |t|
    ensures r.Resume? ==> 1 <= r.state <= i + 1
    decreases i + 1
  {
    if i < 0 then Miss
    else if t[i] == ch then (if Border(t, i, state) then Resume(i + 1) else Stuck)
    else RetreatFrom(t, state, ch, i - 1)
  }

  /** ToEndRun as written, where a search that never moves on is reported as ScanNeverEnds. */
  function ToEndRunAsWritten(input: Units, c: Cursor, t: Units, state: nat): (r: Scanned)
    requires c.pos <= |input| && state < |t|
    decreases Remaining(input, c)
  {
    var ch := c.lastchar;
    NextProgress(input, c);
    if ch == EOF then
      Scanned(Success([]), Next(input, c))
    else if ch == t[state] then
      if state + 1 >= |t| then Scanned(Success([]), Next(input, c))
      else ToEndRunAsWritten(input, Next(input, c), t, state + 1)
    else if state > 0 then
      match RetreatFrom(t, state, ch, state - 1)
      case Stuck => Scanned(Failure(ScanNeverEnds), c)
      case Miss => Prepend(t[..state] + [ch], ToEndRunAsWritten(input, Next(input, c), t, 0))
      case Resume(n) => Prepend(t[..state - n + 1], ToEndRunAsWritten(input, Next(input, c), t, n))
    else
      Prepend([ch], ToEndRunAsWritten(input, Next(input, c), t, 0))
  }

  function ToEndAsWritten(input: Units, c: Cursor, t: Units): Scanned
    requires c.pos <= |input| && |t| > 0
  {
    NextProgress(input, c);
    ToEndRunAsWritten(input, Next(input, c), t, 0)
  }

  /** Where the search as written does move on, it ends where the corrected one does. */
  lemma {:induction false} RetreatAgrees(t: Units, state: nat, ch: Unit, i: int)
    requires -1 <= i < state <= |t|
    requires RetreatFrom(t, state, ch, i) != Stuck
    ensures RetreatFrom(t, state, ch, i) == if Fall(t, state, ch, i) == 0 then Miss else Resume(Fall(t, state, ch, i))
    decreases i + 1
  {
    if i >= 0 && t[i] != ch {
      RetreatAgrees(t, state, ch, i - 1);
    }
  }

  /** A terminator whose characters before the last are all the same, as in "-->", "]]>" and "--". */
  predicate Uniform(t: Units) {
    |t| > 0 && forall k | 0 <= k < |t| - 1 :: t[k] == t[0]
  }

  /** With such a terminator every partial match is a border of every longer one, so the search never sticks. */
  lemma {:induction false} UniformNeverStuck(t: Units, state: nat, ch: Unit, i: int)
    requires Uniform(t) && -1 <= i < state < |t|
    ensures RetreatFrom(t, state, ch, i) != Stuck
    decreases i + 1
  {
    if i >= 0 {
      assert Border(t, i, state) by {
        forall k | 0 <= k < i
          ensures t[..i][k] == t[state - i..state][k]
        {
          assert t[k] == t[0] && t[state - i + k] == t[0];
        }
      }
      UniformNeverStuck(t, state, ch, i - 1);
    }
  }

  /** For such a terminator ScanToEnd as written reads exactly what the corrected search reads. */
  lemma {:induction false} UniformAsWrittenAgrees(input: Units, c: Cursor, t: Units, state: nat)
    requires c.pos <= |input| && Uniform(t) && state < |t|
    ensures ToEndRunAsWritten(input, c, t, state) == ToEndRun(input, c, t, state)
    decreases Remaining(input, c)
  {
    var ch := c.lastchar;
    NextProgress(input, c);
    if ch == EOF {
    } else if ch == t[state] {
      if state + 1 < |t| {
        UniformAsWrittenAgrees(input, Next(input, c), t, state + 1);
      }
    } else if state > 0 {
      UniformNeverStuck(t, state, ch, state - 1);
      RetreatAgrees(t, state, ch, state - 1);
      var n := Fall(t, state, ch, state - 1);
      UniformAsWrittenAgrees(input, Next(input, c), t, n);
    } else {
      UniformAsWrittenAgrees(input, Next(input, c), t, 0);
    }
  }

  /** The three terminators the DTD parser scans for: "-->", "]]>" and "--". */
  lemma DtdTerminatorsUniform()
    ensures Uniform([HYPHEN, HYPHEN, GT]) && Uniform([RBRACKET, RBRACKET, GT]) && Uniform([HYPHEN, HYPHEN])
  {
  }

  /**
   * With terminator "abc", the text "abb" sticks the search as written after
   * "ab": the second 'b' equals the terminator's 'b' but "a" does not match
   * the "b" before it. The corrected search returns the text unterminated.
   */
  lemma AsWrittenSticks()
    ensures ToEndAsWritten([97, 98, 98], Cursor(0, 1, 0, 0, NUL, false), [97, 98, 99]).result == Failure(ScanNeverEnds)
    ensures ToEnd([97, 98, 98], Cursor(0, 1, 0, 0, NUL, false), [97, 98, 99]).result == Success([97, 98, 98])
  {
    var input: Units := [97, 98, 98];
    var t: Units := [97, 98, 99];
    var c0 := Cursor(0, 1, 0, 0, NUL, false);
    var c1 := Next(input, c0);
    var c2 := Next(input, c1);
    var c3 := Next(input, c2);
    var c4 := Next(input, c3);
    assert c1.lastchar == 97 && c2.lastchar == 98 && c3.lastchar == 98 && c4.lastchar == EOF;
    assert !Border(t, 1, 2) by { assert t[..1][0] != t[1..2][0]; }
    assert RetreatFrom(t, 2, 98, 1) == Stuck;
    assert ToEndRunAsWritten(input, c3, t, 2).result == Failure(ScanNeverEnds);
    assert Fall(t, 2, 98, 1) == 0;
    assert ToEndRun(input, c4, t, 0).result == Success([]);
    assert ToEndRun(input, c3, t, 2) == Prepend(t[..2] + [98], ToEndRun(input, c4, t, 0));
    assert t[..2] + [98] == [97, 98, 98];
    var tail: Units := [];
    assert ToEndRun(input, c4, t, 0) == Scanned(Success(tail), Next(input, c4));
    assert [97, 98, 98] + tail == [97, 98, 98];
    assert ToEndRun(input, c3, t, 2).result == Success([97, 98, 98]);
    assert ToEndRun(input, c1, t, 0) == ToEndRun(input, c2, t, 1) == ToEndRun(input, c3, t, 2);
    assert ToEndRunAsWritten(input, c1, t, 0) == ToEndRunAsWritten(input, c2, t, 1) == ToEndRunAsWritten(input, c3, t, 2);
    assert ToEndAsWritten(input, c0, t) == ToEndRunAsWritten(input, c1, t, 0);
    assert ToEnd(input, c0, t) == ToEndRun(input, c1, t, 0);
  }
}
