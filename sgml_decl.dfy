/**
 * The pieces of SgmlDtd's declaration syntax that read within one entity,
 * as functions of that entity's text and reading position: comments inside
 * and around declarations, ignored marked sections, parameter-entity
 * references, entity declarations, name groups and the omission flags of
 * an element declaration. The Dtd class proves its methods equal to these.
 */
module SgmlDecl {
  import opened Wrappers
  import opened SgmlText
  import opened SgmlStream
  import opened SgmlEntity

  /** What a step did: an error or none, and where it left the reader. */
  datatype Outcome = Outcome(err: Option<SgmlError>, cur: Cursor)

  /** The terminator of a comment declaration, "-->". */
  const CommentEnd: Units := [HYPHEN, HYPHEN, GT]
  /** The terminator of a marked section, "]]>". */
  const SectionEnd: Units := [RBRACKET, RBRACKET, GT]
  /** The terminator of a comment inside a declaration, "--". */
  const Dashes: Units := [HYPHEN, HYPHEN]
  /** The terminators of a name in a name group: white space, '|', ',' and ')'. */
  const NameGroupTerm: Units := [SPACE, CR, LF, TAB, BAR, COMMA, RPAREN]

  predicate IsQuote(ch: Unit) {
    ch == QUOT || ch == APOS
  }

  // ------------------------------------------------------------ comments

  /**
   * ParseDeclComment, on the first '-' of a comment inside a declaration:
   * with `full`, the next character must be '-' too; then everything up to
   * "--" is skipped, and the white space after it.
   */
  function DeclComment(input: Units, c: Cursor, full: bool): (o: Outcome)
    requires c.pos <= |input|
    ensures o.cur.pos <= |input| && Remaining(input, o.cur) <= Remaining(input, c)
    ensures c.lastchar != EOF ==> Remaining(input, o.cur) < Remaining(input, c)
    ensures o.err.Some? <==> full && Next(input, c).lastchar != HYPHEN
    ensures o.err.Some? ==> o.err.value == ExpectedCommentDelimiter(Next(input, c).lastchar)
    ensures o.err.None? ==> !IsWhite(o.cur.lastchar)
  {
    NextProgress(input, c);
    var c1 := Next(input, c);
    if full && c1.lastchar != HYPHEN then Outcome(Some(ExpectedCommentDelimiter(c1.lastchar)), c1)
    else Outcome(None, SkipWs(input, ToEnd(input, c1, Dashes).cur))
  }

  /** ParseDeclComments: comments as long as the character under examination is '-'. */
  function DeclComments(input: Units, c: Cursor): (o: Outcome)
    requires c.pos <= |input|
    ensures o.cur.pos <= |input| && Remaining(input, o.cur) <= Remaining(input, c)
    ensures o.err.None? ==> o.cur.lastchar != HYPHEN
    ensures c.lastchar != HYPHEN ==> o == Outcome(None, c)
    decreases Remaining(input, c)
  {
    if c.lastchar == HYPHEN then
      var o := DeclComment(input, c, true);
      if o.err.Some? then o else DeclComments(input, o.cur)
    else
      Outcome(None, c)
  }

  /**
   * The comment branch of ParseMarkup, on the first '-' after "<!": a second
   * '-' must follow, and the comment is skipped past "-->".
   */
  function MarkupComment(input: Units, c: Cursor): (o: Outcome)
    requires c.pos <= |input|
    ensures o.cur.pos <= |input|
    ensures o.err.Some? <==> Next(input, c).lastchar != HYPHEN
    ensures o.err.Some? ==> o.err.value == ExpectedComment(Next(input, c).lastchar)
  {
    NextProgress(input, c);
    var c1 := Next(input, c);
    if c1.lastchar != HYPHEN then Outcome(Some(ExpectedComment(c1.lastchar)), c1)
    else Outcome(None, ToEnd(input, c1, CommentEnd).cur)
  }

  /** ParseIgnoreSection: after white space a '[' must come, and the section is skipped past "]]>". */
  function IgnoreSection(input: Units, c: Cursor): (o: Outcome)
    requires c.pos <= |input|
    ensures o.cur.pos <= |input|
    ensures o.err.Some? <==> SkipWs(input, c).lastchar != LBRACKET
    ensures o.err.Some? ==> o.err.value == ExpectedBracket(SkipWs(input, c).lastchar)
  {
    var c1 := SkipWs(input, c);
    if c1.lastchar != LBRACKET then Outcome(Some(ExpectedBracket(c1.lastchar)), c1)
    else Outcome(None, ToEnd(input, c1, SectionEnd).cur)
  }

  // ------------------------------------------------------------- keywords

  /** The declarations ParseMarkup dispatches on. */
  datatype DeclKind = EntityKw | ElementKw | AttListKw

  /** The switch of ParseMarkup: the keyword must be spelt exactly so. */
  function DeclKindOf(token: Units): (r: Option<DeclKind>)
    ensures r == Some(EntityKw) <==> token == KwENTITY
    ensures r == Some(ElementKw) <==> token == KwELEMENT
    ensures r == Some(AttListKw) <==> token == KwATTLIST
  {
    if token == KwENTITY then Some(EntityKw)
    else if token == KwELEMENT then Some(ElementKw)
    else if token == KwATTLIST then Some(AttListKw)
    else None
  }

  /** "entity" is not a declaration keyword, although marked-section keywords ignore case. */
  lemma KeywordsCaseSensitive()
    ensures DeclKindOf([101, 110, 116, 105, 116, 121]).None?
    ensures EqualsIgnoreCase([105, 103, 110, 111, 114, 101], KwIGNORE)
  {
    assert [101, 110, 116, 105, 116, 121] != KwENTITY by {
      assert KwENTITY[0] == 69;
    }
    assert UpperAll([105, 103, 110, 111, 114, 101]) == KwIGNORE;
  }

  /** The kinds of marked section ParseMarkedSection tells apart, ignoring case. */
  datatype SectionKind = IncludeSection | IgnoreSectionKind | OtherSection

  function SectionKindOf(name: Units): (r: SectionKind)
    ensures r == IncludeSection <==> EqualsIgnoreCase(name, KwINCLUDE)
    ensures r == IgnoreSectionKind <==> !EqualsIgnoreCase(name, KwINCLUDE) && EqualsIgnoreCase(name, KwIGNORE)
  {
    if EqualsIgnoreCase(name, KwINCLUDE) then IncludeSection
    else if EqualsIgnoreCase(name, KwIGNORE) then IgnoreSectionKind
    else OtherSection
  }

  // ------------------------------------------------- parameter references

  /** A name read from the text, and where the reader stands after it. */
  datatype Named = Named(name: Units, cur: Cursor)

  /**
   * ParseParameterEntity up to the table lookup, on the '%': the name runs
   * up to ';' or one of `term`, and a ';' that ends it is read past.
   */
  function ParamRef(input: Units, c: Cursor, term: Units): (r: Named)
    requires c.pos <= |input|
    ensures r.cur.pos <= |input| && Remaining(input, r.cur) <= Remaining(input, c)
    ensures c.lastchar != EOF ==> Remaining(input, r.cur) < Remaining(input, c)
    ensures SEMI !in r.name && forall i | 0 <= i < |r.name| :: r.name[i] !in term && r.name[i] != EOF
  {
    NextProgress(input, c);
    var c1 := Next(input, c);
    var t := Token(input, c1, [SEMI] + term, false);
    TokenRunSpells(input, c1, [SEMI] + term, false);
    assert forall i | 0 <= i < |t.result.value| :: t.result.value[i] !in [SEMI] + term;
    if t.cur.lastchar == SEMI then
      NextProgress(input, t.cur);
      Named(t.result.value, Next(input, t.cur))
    else
      Named(t.result.value, t.cur)
  }

  // ---------------------------------------------------------- entities

  /** What an entity declaration declares: replacement text, or an external identifier. */
  datatype Body =
    | Text(literal: Units, literalType: Option<LiteralType>)
    | ExternalId(publicId: Option<Units>, systemId: Option<Units>)

  /** An entity declaration: `param` for a parameter entity ('%' before the name). */
  datatype Decl = Decl(param: bool, name: Units, body: Body)

  datatype Declared = Declared(result: Result<Decl, SgmlError>, cur: Cursor)

  datatype BodyRead = BodyRead(result: Result<Body, SgmlError>, cur: Cursor)

  /** A public identifier read, or none, and where the reader stands. */
  datatype IdRead = IdRead(result: Result<Option<Units>, SgmlError>, cur: Cursor)

  /**
   * The first part of an external identifier: after PUBLIC (any case) a
   * quoted public identifier must follow; after SYSTEM there is none, and
   * any other keyword is an error.
   */
  function PublicPart(input: Units, c: Cursor, keyword: Units, isHtml: bool): (r: IdRead)
    requires c.pos <= |input|
    ensures r.cur.pos <= |input|
    ensures r.result.Success? <==>
      if EqualsIgnoreCase(keyword, KwPUBLIC) then
        IsQuote(SkipWs(input, c).lastchar) && Literal(input, SkipWs(input, c), SkipWs(input, c).lastchar, isHtml).result.Success?
      else EqualsIgnoreCase(keyword, KwSYSTEM)
    ensures r.result.Success? ==> (r.result.value.Some? <==> EqualsIgnoreCase(keyword, KwPUBLIC))
    ensures !EqualsIgnoreCase(keyword, KwPUBLIC) && !EqualsIgnoreCase(keyword, KwSYSTEM) ==>
      r == IdRead(Failure(InvalidExternalId(keyword)), c)
  {
    if EqualsIgnoreCase(keyword, KwPUBLIC) then
      var c1 := SkipWs(input, c);
      if IsQuote(c1.lastchar) then
        var l := Literal(input, c1, c1.lastchar, isHtml);
        if l.result.Failure? then IdRead(Failure(l.result.error), l.cur) else IdRead(Success(Some(l.result.value)), l.cur)
      else IdRead(Failure(ExpectedPublicId(c1.lastchar)), c1)
    else if !EqualsIgnoreCase(keyword, KwSYSTEM) then IdRead(Failure(InvalidExternalId(keyword)), c)
    else IdRead(Success(None), c)
  }

  /**
   * The second part: after white space, a quoted system identifier, or
   * none when the declaration is at its '>'.
   */
  function SystemPart(input: Units, c: Cursor, publicId: Option<Units>, isHtml: bool): (r: BodyRead)
    requires c.pos <= |input|
    ensures r.cur.pos <= |input|
    ensures r.result.Success? ==> r.result.value.ExternalId? && r.result.value.publicId == publicId
    ensures r.result.Success? ==> (r.result.value.systemId.None? <==> SkipWs(input, c).lastchar == GT)
    ensures !IsQuote(SkipWs(input, c).lastchar) && SkipWs(input, c).lastchar != GT ==>
      r.result == Failure(ExpectedSystemId(SkipWs(input, c).lastchar))
  {
    var c2 := SkipWs(input, c);
    if IsQuote(c2.lastchar) then
      var l := Literal(input, c2, c2.lastchar, isHtml);
      if l.result.Failure? then BodyRead(Failure(l.result.error), l.cur)
      else BodyRead(Success(ExternalId(publicId, Some(l.result.value))), l.cur)
    else if c2.lastchar != GT then BodyRead(Failure(ExpectedSystemId(c2.lastchar)), c2)
    else BodyRead(Success(ExternalId(publicId, None)), c2)
  }

  /** The external identifier after PUBLIC or SYSTEM: the public part, then the system part. */
  function ExternalBody(input: Units, c: Cursor, keyword: Units, isHtml: bool): (r: BodyRead)
    requires c.pos <= |input|
    ensures r.cur.pos <= |input|
    ensures r.result.Success? ==> r.result.value.ExternalId?
    ensures !EqualsIgnoreCase(keyword, KwPUBLIC) && !EqualsIgnoreCase(keyword, KwSYSTEM) ==>
      r.result == Failure(InvalidExternalId(keyword))
    ensures r.result.Success? ==> (r.result.value.publicId.Some? <==> EqualsIgnoreCase(keyword, KwPUBLIC))
  {
    var p := PublicPart(input, c, keyword, isHtml);
    if p.result.Failure? then BodyRead(Failure(p.result.error), p.cur)
    else SystemPart(input, p.cur, p.result.value, isHtml)
  }

  /** A literal after a literal type and white space, as replacement text of that type. */
  function TypedLiteral(input: Units, c: Cursor, token: Units, isHtml: bool): (r: BodyRead)
    requires c.pos <= |input|
    ensures r.cur.pos <= |input|
    ensures r.result.Success? ==> r.result.value.Text? && r.result.value.literalType == LiteralTypeOf(token)
  {
    var c1 := SkipWs(input, c);
    var l := Literal(input, c1, c1.lastchar, isHtml);
    if l.result.Failure? then BodyRead(Failure(l.result.error), l.cur)
    else BodyRead(Success(Text(l.result.value, LiteralTypeOf(token))), l.cur)
  }

  /**
   * What follows the entity's name: a quoted literal, a literal type (CDATA,
   * SDATA or PI, any case) and a literal in whatever quote comes next, or an
   * external identifier.
   */
  function EntityBody(input: Units, c: Cursor, isHtml: bool): (r: BodyRead)
    requires c.pos <= |input|
    ensures r.cur.pos <= |input|
    ensures IsQuote(c.lastchar) ==>
      var l := Literal(input, c, c.lastchar, isHtml);
      (r.result.Success? <==> l.result.Success?) && (r.result.Success? ==> r.result.value == Text(l.result.value, None))
  {
    if IsQuote(c.lastchar) then
      var l := Literal(input, c, c.lastchar, isHtml);
      if l.result.Failure? then BodyRead(Failure(l.result.error), l.cur)
      else BodyRead(Success(Text(l.result.value, None)), l.cur)
    else
      var t := Token(input, c, WhiteSpace, true);
      if t.result.Failure? then BodyRead(Failure(t.result.error), t.cur)
      else if IsLiteralType(t.result.value) then TypedLiteral(input, t.cur, t.result.value, isHtml)
      else
        ExternalBody(input, t.cur, t.result.value, isHtml)
  }

  /** Whether a '%' marked a parameter entity, and the name read after it. */
  datatype Head = Head(param: bool, name: Scanned)

  /** The start of ParseEntity, after "<!ENTITY": white space, an optional '%' and white space, the name. */
  function EntityHead(input: Units, c: Cursor): (r: Head)
    requires c.pos <= |input|
    ensures r.name.cur.pos <= |input|
    ensures r.param <==> SkipWs(input, c).lastchar == PERCENT
    ensures !r.param ==> r.name == Token(input, SkipWs(input, c), WhiteSpace, true)
  {
    var c1 := SkipWs(input, c);
    var pe := c1.lastchar == PERCENT;
    NextProgress(input, c1);
    var c2 := if pe then SkipWs(input, Next(input, c1)) else c1;
    Head(pe, Token(input, c2, WhiteSpace, true))
  }

  /**
   * The rest of ParseEntity, after the name: white space, the body, white
   * space, optional comments, and the '>' (left unread).
   */
  function EntityTail(input: Units, c: Cursor, isHtml: bool): (r: BodyRead)
    requires c.pos <= |input|
    ensures r.cur.pos <= |input|
    ensures r.result.Success? ==> r.cur.lastchar == GT
    ensures r.result.Success? ==> EntityBody(input, SkipWs(input, c), isHtml).result == r.result
  {
    var b := EntityBody(input, SkipWs(input, c), isHtml);
    if b.result.Failure? then b
    else
      var e := DeclComments(input, SkipWs(input, b.cur));
      if e.err.Some? then BodyRead(Failure(e.err.value), e.cur)
      else if e.cur.lastchar != GT then BodyRead(Failure(ExpectedEntityEnd(e.cur.lastchar)), e.cur)
      else BodyRead(b.result, e.cur)
  }

  /** ParseEntity up to the table update: the head, then the rest. */
  function EntityDeclaration(input: Units, c: Cursor, isHtml: bool): (r: Declared)
    requires c.pos <= |input|
    ensures r.cur.pos <= |input|
    ensures r.result.Success? ==> r.cur.lastchar == GT
    ensures r.result.Success? ==> r.result.value.param == (SkipWs(input, c).lastchar == PERCENT)
  {
    var h := EntityHead(input, c);
    if h.name.result.Failure? then Declared(Failure(h.name.result.error), h.name.cur)
    else
      var t := EntityTail(input, h.name.cur, isHtml);
      if t.result.Failure? then Declared(Failure(t.result.error), t.cur)
      else Declared(Success(Decl(h.param, h.name.result.value, t.result.value)), t.cur)
  }

  // ---------------------------------------------------------- name groups

  /** What the names of one parameter-entity reference in a group came to. */
  type Expansion = Result<seq<Units>, SgmlError>

  /** Names read, where the reader stands, and how many expansions were used. */
  datatype Names = Names(result: Result<seq<Units>, SgmlError>, cur: Cursor, used: nat)

  predicate AllUpper(names: seq<Units>) {
    forall i | 0 <= i < |names| :: UpperAll(names[i]) == names[i]
  }

  predicate ExpansionsUpper(ex: seq<Expansion>) {
    forall i | 0 <= i < |ex| :: ex[i].Success? ==> AllUpper(ex[i].value)
  }

  lemma UpperConcat(a: seq<Units>, b: seq<Units>, x: seq<Expansion>, y: seq<Expansion>)
    requires AllUpper(a) && AllUpper(b) && ExpansionsUpper(x) && ExpansionsUpper(y)
    ensures AllUpper(a + b) && ExpansionsUpper(x + y)
  {
    assert forall i | |a| <= i < |a + b| :: (a + b)[i] == b[i - |a|];
    assert forall i | |x| <= i < |x + y| :: (x + y)[i] == y[i - |x|];
  }

  /**
   * One item of a name group or list, on a character that is not white
   * space: a parameter-entity reference, whose names are the next of `ex`,
   * or a name token, upper-cased. A reference past the end of `ex` reads as
   * undefined.
   */
  function Item(input: Units, c: Cursor, ex: seq<Expansion>): (r: Names)
    requires c.pos <= |input|
    ensures r.cur.pos <= |input| && Remaining(input, r.cur) <= Remaining(input, c)
    ensures r.result.Success? ==> Remaining(input, r.cur) < Remaining(input, c)
    ensures r.used <= 1 && r.used <= |ex|
    ensures r.used == 1 <==> c.lastchar == PERCENT && |ex| > 0
    ensures r.used == 1 ==> r.result == ex[0]
    ensures c.lastchar != PERCENT && r.result.Success? ==>
      var t := Token(input, c, NameGroupTerm, true);
      t.result.Success? && r.result.value == [UpperAll(t.result.value)] && r.cur == t.cur
    ensures r.result.Success? && c.lastchar != PERCENT ==> AllUpper(r.result.value)
  {
    if c.lastchar == PERCENT then
      var p := ParamRef(input, c, NameGroupTerm);
      if |ex| == 0 then Names(Failure(UndefinedParameterEntity(p.name)), p.cur, 0)
      else Names(ex[0], p.cur, 1)
    else
      var t := Token(input, c, NameGroupTerm, true);
      if t.result.Failure? then Names(Failure(t.result.error), t.cur, 0)
      else
        UpperAllIdempotent(t.result.value);
        Names(Success([UpperAll(t.result.value)]), t.cur, 0)
  }

  /** The names of a successful item followed by those of the rest. */
  function Then(first: Names, rest: Names): (r: Names)
    requires first.result.Success?
    ensures r.cur == rest.cur && r.used == first.used + rest.used
    ensures r.result.Success? <==> rest.result.Success?
    ensures r.result.Success? ==> r.result.value == first.result.value + rest.result.value
  {
    if rest.result.Failure? then Names(rest.result, rest.cur, first.used + rest.used)
    else Names(Success(first.result.value + rest.result.value), rest.cur, first.used + rest.used)
  }

  /** After an item of a group: white space, then a '|' or ',' is read past. */
  function GroupNext(input: Units, c: Cursor): (r: Cursor)
    requires c.pos <= |input|
    ensures r.pos <= |input| && Remaining(input, r) <= Remaining(input, c)
  {
    var c2 := SkipWs(input, c);
    NextProgress(input, c2);
    if c2.lastchar == BAR || c2.lastchar == COMMA then Next(input, c2) else c2
  }

  /** After an item of a list: white space, then a '|' and the white space after it. */
  function ListNext(input: Units, c: Cursor): (r: Cursor)
    requires c.pos <= |input|
    ensures r.pos <= |input| && Remaining(input, r) <= Remaining(input, c)
    ensures !IsWhite(r.lastchar)
  {
    var c2 := SkipWs(input, c);
    NextProgress(input, c2);
    if c2.lastchar == BAR then SkipWs(input, Next(input, c2)) else c2
  }

  /**
   * The loop of ParseNameGroup, on the character after '(' and white space:
   * items separated by '|' or ',' up to ')', which is read past.
   */
  function GroupRun(input: Units, c: Cursor, ex: seq<Expansion>): (r: Names)
    requires c.pos <= |input|
    ensures r.cur.pos <= |input| && r.used <= |ex|
    ensures r.result.Success? && ExpansionsUpper(ex) ==> AllUpper(r.result.value)
    decreases Remaining(input, c)
  {
    if c.lastchar == RPAREN then
      Names(Success([]), Next(input, c), 0)
    else
      var c1 := SkipWs(input, c);
      var item := Item(input, c1, ex);
      if item.result.Failure? then item
      else
        var rest := GroupRun(input, GroupNext(input, item.cur), ex[item.used..]);
        assert ExpansionsUpper(ex) ==> ExpansionsUpper(ex[item.used..]) by {
          if ExpansionsUpper(ex) {
            forall i | 0 <= i < |ex[item.used..]| && ex[item.used..][i].Success?
              ensures AllUpper(ex[item.used..][i].value)
            {
              assert ex[item.used..][i] == ex[item.used + i];
            }
          }
        }
        Then(item, rest)
  }

  /**
   * ParseNameGroup: a parenthesised group, or else a single name token
   * ended by white space; every name is upper-cased.
   */
  function Group(input: Units, c: Cursor, ex: seq<Expansion>): (r: Names)
    requires c.pos <= |input|
    ensures r.cur.pos <= |input| && r.used <= |ex|
    ensures r.result.Success? && ExpansionsUpper(ex) ==> AllUpper(r.result.value)
    ensures c.lastchar != LPAREN ==>
      r.used == 0 &&
      var t := Token(input, c, WhiteSpace, true);
      r.result == (if t.result.Success? then Success([UpperAll(t.result.value)]) else Failure(t.result.error))
  {
    if c.lastchar == LPAREN then
      NextProgress(input, c);
      GroupRun(input, SkipWs(input, Next(input, c)), ex)
    else
      var t := Token(input, c, WhiteSpace, true);
      if t.result.Failure? then Names(Failure(t.result.error), t.cur, 0)
      else
        UpperAllIdempotent(t.result.value);
        Names(Success([UpperAll(t.result.value)]), t.cur, 0)
  }

  /**
   * The loop of ParseNameList, over the text of a parameter entity in a
   * group, on a character that is not white space: items separated by '|'
   * up to EOF. A ',' is not a separator here.
   */
  function ListRun(input: Units, c: Cursor, ex: seq<Expansion>): (r: Names)
    requires c.pos <= |input|
    ensures r.cur.pos <= |input| && r.used <= |ex|
    ensures r.result.Success? && ExpansionsUpper(ex) ==> AllUpper(r.result.value)
    ensures r.result.Success? ==> r.cur.lastchar == EOF
    decreases Remaining(input, c)
  {
    if c.lastchar == EOF then
      Names(Success([]), c, 0)
    else
      var item := Item(input, c, ex);
      if item.result.Failure? then item
      else
        var rest := ListRun(input, ListNext(input, item.cur), ex[item.used..]);
        assert ExpansionsUpper(ex) ==> ExpansionsUpper(ex[item.used..]) by {
          if ExpansionsUpper(ex) {
            forall i | 0 <= i < |ex[item.used..]| && ex[item.used..][i].Success?
              ensures AllUpper(ex[item.used..][i].value)
            {
              assert ex[item.used..][i] == ex[item.used + i];
            }
          }
        }
        Then(item, rest)
  }

  /** ParseNameList: white space first, then the items. */
  function List(input: Units, c: Cursor, ex: seq<Expansion>): (r: Names)
    requires c.pos <= |input|
    ensures r.cur.pos <= |input| && r.used <= |ex|
    ensures r.result.Success? && ExpansionsUpper(ex) ==> AllUpper(r.result.value)
  {
    ListRun(input, SkipWs(input, c), ex)
  }

  /** In the text of a parameter entity a ',' cannot separate names: it is read as the start of a name. */
  lemma ListRejectsComma(input: Units, c: Cursor, ex: seq<Expansion>)
    requires c.pos <= |input| && c.lastchar == COMMA
    ensures ListRun(input, c, ex).result == Failure(InvalidNameStart(COMMA))
  {
    assert Token(input, c, NameGroupTerm, true).result == Failure(InvalidNameStart(COMMA));
  }

  // ------------------------------------------- groups read by a loop

  /**
   * What a loop over a group has established: from `start`, with the
   * expansions `ex` used so far and whatever follows them, the group reads
   * `names` and then whatever the rest of it reads from `cur`.
   */
  ghost predicate GroupSoFar(input: Units, start: Cursor, ex: seq<Expansion>, names: seq<Units>, cur: Cursor) {
    start.pos <= |input| && cur.pos <= |input| &&
    forall rest: seq<Expansion> {:trigger GroupRun(input, cur, rest)} ::
      GroupRun(input, start, ex + rest) == Then(Names(Success(names), cur, |ex|), GroupRun(input, cur, rest))
  }

  lemma GroupStart(input: Units, start: Cursor)
    requires start.pos <= |input|
    ensures GroupSoFar(input, start, [], [], start)
  {
    forall rest: seq<Expansion>
      ensures GroupRun(input, start, [] + rest) == Then(Names(Success([]), start, 0), GroupRun(input, start, rest))
    {
      assert [] + rest == rest;
      var g := GroupRun(input, start, rest);
      if g.result.Success? {
        assert [] + g.result.value == g.result.value;
      }
    }
  }

  /** One more item read: its expansions `x` join those used, its names those read. */
  lemma GroupAdvance(input: Units, start: Cursor, ex: seq<Expansion>, names: seq<Units>, cur: Cursor, x: seq<Expansion>)
    requires GroupSoFar(input, start, ex, names, cur) && cur.lastchar != RPAREN
    requires |x| == if SkipWs(input, cur).lastchar == PERCENT then 1 else 0
    requires Item(input, SkipWs(input, cur), x).result.Success?
    ensures var item := Item(input, SkipWs(input, cur), x);
      GroupSoFar(input, start, ex + x, names + item.result.value, GroupNext(input, item.cur))
  {
    var item := Item(input, SkipWs(input, cur), x);
    var next := GroupNext(input, item.cur);
    forall rest: seq<Expansion>
      ensures GroupRun(input, start, (ex + x) + rest) ==
        Then(Names(Success(names + item.result.value), next, |ex + x|), GroupRun(input, next, rest))
    {
      assert GroupRun(input, start, ex + (x + rest)) == Then(Names(Success(names), cur, |ex|), GroupRun(input, cur, x + rest));
      GroupStep(input, start, ex, names, cur, x, rest);
    }
  }

  lemma GroupStep(input: Units, start: Cursor, ex: seq<Expansion>, names: seq<Units>, cur: Cursor, x: seq<Expansion>, rest: seq<Expansion>)
    requires start.pos <= |input| && cur.pos <= |input| && cur.lastchar != RPAREN
    requires |x| == if SkipWs(input, cur).lastchar == PERCENT then 1 else 0
    requires Item(input, SkipWs(input, cur), x).result.Success?
    requires GroupRun(input, start, ex + (x + rest)) == Then(Names(Success(names), cur, |ex|), GroupRun(input, cur, x + rest))
    ensures var item := Item(input, SkipWs(input, cur), x);
      var next := GroupNext(input, item.cur);
      GroupRun(input, start, (ex + x) + rest) ==
        Then(Names(Success(names + item.result.value), next, |ex + x|), GroupRun(input, next, rest))
  {
    var item := Item(input, SkipWs(input, cur), x);
    var next := GroupNext(input, item.cur);
    GroupUnfold(input, cur, x, rest);
    ConcatAssoc(ex, x, rest);
    Transfer(GroupRun(input, start, ex + (x + rest)), GroupRun(input, start, (ex + x) + rest), Names(Success(names), cur, |ex|),
             GroupRun(input, cur, x + rest), item, GroupRun(input, next, rest), next);
  }



  /** An item that fails ends the group with its error. */
  lemma GroupFailure(input: Units, start: Cursor, ex: seq<Expansion>, names: seq<Units>, cur: Cursor, x: seq<Expansion>)
    requires GroupSoFar(input, start, ex, names, cur) && cur.lastchar != RPAREN
    requires |x| == if SkipWs(input, cur).lastchar == PERCENT then 1 else 0
    requires Item(input, SkipWs(input, cur), x).result.Failure?
    ensures var item := Item(input, SkipWs(input, cur), x);
      GroupRun(input, start, ex + x) == Names(item.result, item.cur, |ex + x|)
  {
    assert (ex + x) + [] == ex + x && x + [] == x;
    assert GroupRun(input, start, ex + x) == Then(Names(Success(names), cur, |ex|), GroupRun(input, cur, x));
  }

  /** At ')' the group is complete, and the reader stands after the ')'. */
  lemma GroupEnd(input: Units, start: Cursor, ex: seq<Expansion>, names: seq<Units>, cur: Cursor)
    requires GroupSoFar(input, start, ex, names, cur) && cur.lastchar == RPAREN
    ensures GroupRun(input, start, ex) == Names(Success(names), Next(input, cur), |ex|)
  {
    assert ex + [] == ex && names + [] == names;
    assert GroupRun(input, start, ex + []) == Then(Names(Success(names), cur, |ex|), GroupRun(input, cur, []));
  }

  /** As GroupSoFar, for the loop of a name list. */
  ghost predicate ListSoFar(input: Units, start: Cursor, ex: seq<Expansion>, names: seq<Units>, cur: Cursor) {
    start.pos <= |input| && cur.pos <= |input| &&
    forall rest: seq<Expansion> {:trigger ListRun(input, cur, rest)} ::
      ListRun(input, start, ex + rest) == Then(Names(Success(names), cur, |ex|), ListRun(input, cur, rest))
  }

  lemma ListStart(input: Units, start: Cursor)
    requires start.pos <= |input|
    ensures ListSoFar(input, start, [], [], start)
  {
    forall rest: seq<Expansion>
      ensures ListRun(input, start, [] + rest) == Then(Names(Success([]), start, 0), ListRun(input, start, rest))
    {
      assert [] + rest == rest;
      var g := ListRun(input, start, rest);
      if g.result.Success? {
        assert [] + g.result.value == g.result.value;
      }
    }
  }

  lemma ListAdvance(input: Units, start: Cursor, ex: seq<Expansion>, names: seq<Units>, cur: Cursor, x: seq<Expansion>)
    requires ListSoFar(input, start, ex, names, cur) && cur.lastchar != EOF
    requires |x| == if cur.lastchar == PERCENT then 1 else 0
    requires Item(input, cur, x).result.Success?
    ensures var item := Item(input, cur, x);
      ListSoFar(input, start, ex + x, names + item.result.value, ListNext(input, item.cur))
  {
    var item := Item(input, cur, x);
    var next := ListNext(input, item.cur);
    forall rest: seq<Expansion>
      ensures ListRun(input, start, (ex + x) + rest) ==
        Then(Names(Success(names + item.result.value), next, |ex + x|), ListRun(input, next, rest))
    {
      assert ListRun(input, start, ex + (x + rest)) == Then(Names(Success(names), cur, |ex|), ListRun(input, cur, x + rest));
      ListStep(input, start, ex, names, cur, x, rest);
    }
  }

  lemma ListStep(input: Units, start: Cursor, ex: seq<Expansion>, names: seq<Units>, cur: Cursor, x: seq<Expansion>, rest: seq<Expansion>)
    requires start.pos <= |input| && cur.pos <= |input| && cur.lastchar != EOF
    requires |x| == if cur.lastchar == PERCENT then 1 else 0
    requires Item(input, cur, x).result.Success?
    requires ListRun(input, start, ex + (x + rest)) == Then(Names(Success(names), cur, |ex|), ListRun(input, cur, x + rest))
    ensures var item := Item(input, cur, x);
      var next := ListNext(input, item.cur);
      ListRun(input, start, (ex + x) + rest) ==
        Then(Names(Success(names + item.result.value), next, |ex + x|), ListRun(input, next, rest))
  {
    var item := Item(input, cur, x);
    var next := ListNext(input, item.cur);
    ListUnfold(input, cur, x, rest);
    ConcatAssoc(ex, x, rest);
    Transfer(ListRun(input, start, ex + (x + rest)), ListRun(input, start, (ex + x) + rest), Names(Success(names), cur, |ex|),
             ListRun(input, cur, x + rest), item, ListRun(input, next, rest), next);
  }



  lemma ListFailure(input: Units, start: Cursor, ex: seq<Expansion>, names: seq<Units>, cur: Cursor, x: seq<Expansion>)
    requires ListSoFar(input, start, ex, names, cur) && cur.lastchar != EOF
    requires |x| == if cur.lastchar == PERCENT then 1 else 0
    requires Item(input, cur, x).result.Failure?
    ensures var item := Item(input, cur, x);
      ListRun(input, start, ex + x) == Names(item.result, item.cur, |ex + x|)
  {
    assert (ex + x) + [] == ex + x && x + [] == x;
    assert ListRun(input, start, ex + x) == Then(Names(Success(names), cur, |ex|), ListRun(input, cur, x));
  }

  /** At the end of the entity's text the list is complete. */
  lemma ListEnd(input: Units, start: Cursor, ex: seq<Expansion>, names: seq<Units>, cur: Cursor)
    requires ListSoFar(input, start, ex, names, cur) && cur.lastchar == EOF
    ensures ListRun(input, start, ex) == Names(Success(names), cur, |ex|)
  {
    assert ex + [] == ex && names + [] == names;
    assert ListRun(input, start, ex + []) == Then(Names(Success(names), cur, |ex|), ListRun(input, cur, []));
  }

  lemma ConcatAssoc(a: seq<Expansion>, b: seq<Expansion>, c: seq<Expansion>)
    ensures (a + b) + c == a + (b + c)
  {
  }

  lemma Transfer(w: Names, v: Names, first: Names, b: Names, item: Names, c: Names, at: Cursor)
    requires first.result.Success? && item.result.Success?
    requires w == Then(first, b) && b == Then(item, c) && v == w
    ensures v == Then(Names(Success(first.result.value + item.result.value), at, first.used + item.used), c)
  {
    ThenAssoc(first, item, c);
  }

  /** What a run reads after a first part that is itself an item and a rest. */
  lemma ThenChain(a: Names, first: Names, b: Names, item: Names, c: Names, at: Cursor)
    requires first.result.Success? && item.result.Success?
    requires a == Then(first, b) && b == Then(item, c)
    ensures a == Then(Names(Success(first.result.value + item.result.value), at, first.used + item.used), c)
  {
    ThenAssoc(first, item, c);
  }

  /** Names read in two steps and then a third are the first followed by the other two. */
  lemma ThenAssoc(a: Names, b: Names, c: Names)
    requires a.result.Success? && b.result.Success?
    ensures Then(a, Then(b, c)) == Then(Names(Success(a.result.value + b.result.value), b.cur, a.used + b.used), c)
  {
    if c.result.Success? {
      assert a.result.value + (b.result.value + c.result.value) == (a.result.value + b.result.value) + c.result.value;
    }
  }

  /** One step of a group: an item that reads its expansions from `x` leaves the rest to what follows. */
  lemma GroupUnfold(input: Units, cur: Cursor, x: seq<Expansion>, rest: seq<Expansion>)
    requires cur.pos <= |input| && cur.lastchar != RPAREN
    requires |x| == if SkipWs(input, cur).lastchar == PERCENT then 1 else 0
    requires Item(input, SkipWs(input, cur), x).result.Success?
    ensures var item := Item(input, SkipWs(input, cur), x);
      GroupRun(input, cur, x + rest) == Then(item, GroupRun(input, GroupNext(input, item.cur), rest))
  {
    assert |x| > 0 ==> (x + rest)[0] == x[0];
    var item := Item(input, SkipWs(input, cur), x);
    assert Item(input, SkipWs(input, cur), x + rest) == item;
    assert (x + rest)[item.used..] == rest;
  }

  /** One step of a list, as GroupUnfold. */
  lemma ListUnfold(input: Units, cur: Cursor, x: seq<Expansion>, rest: seq<Expansion>)
    requires cur.pos <= |input| && cur.lastchar != EOF
    requires |x| == if cur.lastchar == PERCENT then 1 else 0
    requires Item(input, cur, x).result.Success?
    ensures var item := Item(input, cur, x);
      ListRun(input, cur, x + rest) == Then(item, ListRun(input, ListNext(input, item.cur), rest))
  {
    assert |x| > 0 ==> (x + rest)[0] == x[0];
    var item := Item(input, cur, x);
    assert Item(input, cur, x + rest) == item;
    assert (x + rest)[item.used..] == rest;
  }

  // ------------------------------------------------------ element headers

  /** The start- and end-tag omission flags of an element declaration, and where reading stopped. */
  datatype Omission = Omission(startOptional: bool, endOptional: bool, cur: Cursor)

  predicate IsOmissionFlag(ch: Unit) {
    Upper(ch) == 79 || ch == HYPHEN
  }

  /**
   * The omission flags of ParseElementDecl, after the name group: 'O' (any
   * case) marks a tag optional and '-' required; the end-tag flag is read
   * only after a start-tag flag, and without flags both tags are required.
   */
  function OmissionFlags(input: Units, c: Cursor): (r: Omission)
    requires c.pos <= |input|
    ensures r.cur.pos <= |input| && !IsWhite(r.cur.lastchar)
    ensures r.startOptional <==> Upper(SkipWs(input, c).lastchar) == 79
    ensures !IsOmissionFlag(SkipWs(input, c).lastchar) ==> !r.endOptional && r.cur == SkipWs(input, c)
  {
    var c1 := SkipWs(input, c);
    if IsOmissionFlag(c1.lastchar) then
      NextProgress(input, c1);
      var c2 := SkipWs(input, Next(input, c1));
      if IsOmissionFlag(c2.lastchar) then
        NextProgress(input, c2);
        Omission(Upper(c1.lastchar) == 79, Upper(c2.lastchar) == 79, SkipWs(input, Next(input, c2)))
      else
        Omission(Upper(c1.lastchar) == 79, false, SkipWs(input, c2))
    else
      Omission(false, false, SkipWs(input, c1))
  }

  /** An optional name group read, where the reader stands, and how many expansions it used. */
  datatype Part = Part(result: Result<Option<seq<Units>>, SgmlError>, cur: Cursor, used: nat)

  /**
   * The exclusions of ParseElementDecl, on the character after the content
   * model and white space: "-(" starts a name group, "--" a comment, and
   * any other character after '-' is an error. Without a '-' there are none.
   */
  function Exclusions(input: Units, c: Cursor, ex: seq<Expansion>): (r: Part)
    requires c.pos <= |input|
    ensures r.cur.pos <= |input| && r.used <= |ex|
    ensures c.lastchar != HYPHEN ==> r == Part(Success(None), c, 0)
    ensures r.result.Success? && r.result.value.Some? ==>
      Next(input, c).lastchar == LPAREN && Group(input, Next(input, c), ex).result == Success(r.result.value.value)
  {
    if c.lastchar != HYPHEN then Part(Success(None), c, 0)
    else
      NextProgress(input, c);
      var c1 := Next(input, c);
      if c1.lastchar == LPAREN then
        var g := Group(input, c1, ex);
        if g.result.Failure? then Part(Failure(g.result.error), g.cur, g.used)
        else Part(Success(Some(g.result.value)), SkipWs(input, g.cur), g.used)
      else if c1.lastchar == HYPHEN then Part(Success(None), DeclComment(input, c1, false).cur, 0)
      else Part(Failure(InvalidSyntax(c1.lastchar)), c1, 0)
  }

  /**
   * The inclusions of ParseElementDecl: '+' must be followed by a name
   * group. Without a '+' there are none.
   */
  function Inclusions(input: Units, c: Cursor, ex: seq<Expansion>): (r: Part)
    requires c.pos <= |input|
    ensures r.cur.pos <= |input| && r.used <= |ex|
    ensures c.lastchar != PLUS ==> r == Part(Success(None), c, 0)
    ensures c.lastchar == PLUS && Next(input, c).lastchar != LPAREN ==>
      r.result == Failure(ExpectedInclusions(Next(input, c).lastchar))
    ensures r.result.Success? && c.lastchar == PLUS ==>
      r.result.value.Some? && Group(input, Next(input, c), ex).result == Success(r.result.value.value)
  {
    if c.lastchar != PLUS then Part(Success(None), c, 0)
    else
      NextProgress(input, c);
      var c1 := Next(input, c);
      if c1.lastchar != LPAREN then Part(Failure(ExpectedInclusions(c1.lastchar)), c1, 0)
      else
        var g := Group(input, c1, ex);
        if g.result.Failure? then Part(Failure(g.result.error), g.cur, g.used)
        else Part(Success(Some(g.result.value)), SkipWs(input, g.cur), g.used)
  }

  /** The exceptions of an element declaration: inclusions and exclusions, each optional. */
  datatype Exceptions = Exceptions(inclusions: Option<seq<Units>>, exclusions: Option<seq<Units>>)

  datatype Tail = Tail(result: Result<Exceptions, SgmlError>, cur: Cursor)

  /**
   * ParseElementDecl after the content model: white space, exclusions,
   * comments, inclusions, comments, and the closing '>' (left unread). The
   * exclusions read their references' names from `exX`, the inclusions from `exI`.
   */
  function ElementTail(input: Units, c: Cursor, exX: seq<Expansion>, exI: seq<Expansion>): (r: Tail)
    requires c.pos <= |input|
    ensures r.cur.pos <= |input|
    ensures r.result.Success? ==> r.cur.lastchar == GT
    ensures r.result.Success? ==>
      var x := Exclusions(input, SkipWs(input, c), exX);
      x.result.Success? && r.result.value.exclusions == x.result.value
  {
    var x := Exclusions(input, SkipWs(input, c), exX);
    if x.result.Failure? then Tail(Failure(x.result.error), x.cur)
    else
      var d1 := DeclComments(input, x.cur);
      if d1.err.Some? then Tail(Failure(d1.err.value), d1.cur)
      else
        var i := Inclusions(input, d1.cur, exI);
        if i.result.Failure? then Tail(Failure(i.result.error), i.cur)
        else
          var d2 := DeclComments(input, i.cur);
          if d2.err.Some? then Tail(Failure(d2.err.value), d2.cur)
          else if d2.cur.lastchar != GT then Tail(Failure(ExpectedElementEnd(d2.cur.lastchar)), d2.cur)
          else Tail(Success(Exceptions(i.result.value, x.result.value)), d2.cur)
  }

  /** An element declaration as the element table holds it; the content model is not part of this model. */
  datatype ElementDecl = ElementDecl(
    name: Units, startTagOptional: bool, endTagOptional: bool,
    inclusions: Option<seq<Units>>, exclusions: Option<seq<Units>>)

  datatype Registered = Registered(table: map<Units, ElementDecl>, err: Option<SgmlError>)

  /** The name a declared element is stored under. */
  function Atoms(names: seq<Units>): (r: seq<Units>)
    ensures |r| == |names| && forall i | 0 <= i < |names| :: r[i] == UpperAll(names[i])
  {
    if names == [] then [] else [UpperAll(names[0])] + Atoms(names[1..])
  }

  predicate Distinct(s: seq<Units>) {
    forall i, j | 0 <= i < j < |s| :: s[i] != s[j]
  }

  /**
   * The closing loop of ParseElementDecl: each name, upper-cased, is added
   * with the same declaration; the first one already present stops the
   * loop with DuplicateKey, and the names added before it stay.
   */
  function Register(table: map<Units, ElementDecl>, names: seq<Units>, sto: bool, eto: bool,
                    inclusions: Option<seq<Units>>, exclusions: Option<seq<Units>>): (r: Registered)
    ensures forall k | k in table :: k in r.table && r.table[k] == table[k]
    ensures forall k | k in r.table :: k in table || k in Atoms(names)
    ensures r.err.None? ==>
      forall i | 0 <= i < |names| ::
        UpperAll(names[i]) in r.table && r.table[UpperAll(names[i])] == ElementDecl(UpperAll(names[i]), sto, eto, inclusions, exclusions)
    ensures r.err.Some? ==> r.err.value.DuplicateKey?
    decreases |names|
  {
    if names == [] then Registered(table, None)
    else
      var atom := UpperAll(names[0]);
      if atom in table then Registered(table, Some(DuplicateKey(atom)))
      else
        var r := Register(table[atom := ElementDecl(atom, sto, eto, inclusions, exclusions)], names[1..], sto, eto, inclusions, exclusions);
        assert forall i | 1 <= i < |names| :: names[1..][i - 1] == names[i];
        r
  }

  lemma DistinctCons(a: Units, s: seq<Units>)
    ensures Distinct([a] + s) <==> Distinct(s) && a !in s
  {
    if Distinct(s) && a !in s {
      forall i, j | 0 <= i < j < |[a] + s|
        ensures ([a] + s)[i] != ([a] + s)[j]
      {
        if i > 0 {
          assert ([a] + s)[i] == s[i - 1] && ([a] + s)[j] == s[j - 1];
        } else {
          assert ([a] + s)[j] in s;
        }
      }
    }
    if Distinct([a] + s) {
      forall i, j | 0 <= i < j < |s|
        ensures s[i] != s[j]
      {
        assert ([a] + s)[i + 1] != ([a] + s)[j + 1];
      }
      forall k | 0 <= k < |s|
        ensures s[k] != a
      {
        assert ([a] + s)[0] != ([a] + s)[k + 1];
      }
    }
  }

  /** Registration fails exactly when some name is already declared or declared twice in the group. */
  lemma {:induction false} RegisterFails(table: map<Units, ElementDecl>, names: seq<Units>, sto: bool, eto: bool,
                                          inclusions: Option<seq<Units>>, exclusions: Option<seq<Units>>)
    ensures Register(table, names, sto, eto, inclusions, exclusions).err.None? <==>
      Distinct(Atoms(names)) && forall a | a in Atoms(names) :: a !in table
    decreases |names|
  {
    if names != [] {
      var atom := UpperAll(names[0]);
      var t2 := table[atom := ElementDecl(atom, sto, eto, inclusions, exclusions)];
      RegisterFails(t2, names[1..], sto, eto, inclusions, exclusions);
      assert Atoms(names) == [atom] + Atoms(names[1..]);
      DistinctCons(atom, Atoms(names[1..]));
    }
  }
}
