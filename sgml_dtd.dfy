/**
 * SgmlDtd: the DTD reader. It keeps a stack of the entities being read
 * (the last one is m_current), the tables of general and parameter
 * entities and of element declarations, and reads declarations from the
 * entity on top of the stack.
 */
module SgmlDtd {
  import opened Wrappers
  import opened SgmlText
  import opened SgmlStream
  import opened SgmlEntity
  import opened SgmlDecl

  /**
   * A reader for the parts of a declaration whose classes are not part of
   * this model (content models and attribute definitions): from the text
   * and where reading stands, an error or none and where reading stopped.
   */
  type Reader = (Units, Cursor) -> Outcome

  /** What a reader gave, kept within the text it read. */
  function Bounded(input: Units, c: Cursor, o: Outcome): (r: Outcome)
    requires c.pos <= |input|
    ensures r.cur.pos <= |input| && r.err == o.err
    ensures o.cur.pos <= |input| ==> r == o
  {
    if o.cur.pos <= |input| then o else Outcome(o.err, c)
  }

  /** The stack read from the top down: the order of a chain of parents. */
  function Rev(s: seq<Entity>): (r: seq<Entity>)
    ensures |r| == |s| && forall i | 0 <= i < |s| :: r[i] == s[|s| - 1 - i]
  {
    if s == [] then [] else [s[|s| - 1]] + Rev(s[..|s| - 1])
  }

  /** Every internal entity of the table has its replacement text. */
  predicate LiteralsPresent(pe: map<Units, Entity>) {
    forall e | e in pe.Values :: e.isInternal ==> e.literal.Some?
  }

  /**
   * `u` is a text the entity `e` reads when it is opened: its literal, or
   * what fetching its system identifier against some base location delivers.
   */
  ghost predicate EntityText(e: Entity, u: Units, fetch: (Option<Units>, Units) -> Option<Units>) {
    if e.isInternal then e.literal == Some(u)
    else e.uri.Some? && exists base :: fetch(base, e.uri.value) == Some(u)
  }

  /** `u` is one of the texts reading started from, or the text of a parameter entity of `pe`. */
  ghost predicate OpenedText(u: Units, start: set<Units>, pe: map<Units, Entity>,
                             fetch: (Option<Units>, Units) -> Option<Units>) {
    u in start || exists e | e in pe.Values :: EntityText(e, u, fetch)
  }

  /** Texts that were opened stay so while the parameter entities only grow. */
  lemma OpenedTextsGrow(texts: set<Units>, start: set<Units>, pe: map<Units, Entity>, pe': map<Units, Entity>,
                        fetch: (Option<Units>, Units) -> Option<Units>)
    requires forall u | u in texts :: OpenedText(u, start, pe, fetch)
    requires Grows(pe, pe')
    ensures forall u | u in texts :: OpenedText(u, start, pe', fetch)
  {
    forall u | u in texts && u !in start
      ensures exists e | e in pe'.Values :: EntityText(e, u, fetch)
    {
      var e :| e in pe.Values && EntityText(e, u, fetch);
      var k :| k in pe && pe[k] == e;
      assert pe'[k] == e;
    }
  }

  /** GetParameterEntity: the parameter entity of exactly this name, else an error. */
  function GetParameterEntity(pe: map<Units, Entity>, n: Units): (r: Result<Entity, SgmlError>)
    ensures r.Success? <==> n in pe
    ensures r.Failure? ==> r.error == UndefinedParameterEntity(n)
    ensures r.Success? ==> r.value == pe[n]
  {
    if n in pe then Success(pe[n]) else Failure(UndefinedParameterEntity(n))
  }

  /**
   * ScanName, on the character before the name: after white space, a
   * parameter-entity reference stands for the trimmed text of an internal
   * parameter entity; otherwise a name token ended by one of `term`.
   */
  function NameOrReference(input: Units, c: Cursor, term: Units, pe: map<Units, Entity>): (r: Scanned)
    requires c.pos <= |input| && LiteralsPresent(pe)
    ensures r.cur.pos <= |input|
    ensures SkipWs(input, c).lastchar != PERCENT ==> r == Token(input, SkipWs(input, c), term, true)
    ensures SkipWs(input, c).lastchar == PERCENT ==>
      var p := ParamRef(input, SkipWs(input, c), term);
      r.cur == p.cur &&
      (r.result.Success? <==> p.name in pe && pe[p.name].isInternal) &&
      (r.result.Success? ==> r.result.value == Trim(pe[p.name].literal.value))
  {
    var c1 := SkipWs(input, c);
    if c1.lastchar == PERCENT then
      var p := ParamRef(input, c1, term);
      if p.name !in pe then Scanned(Failure(UndefinedParameterEntity(p.name)), p.cur)
      else if !pe[p.name].isInternal then Scanned(Failure(ExternalParameterEntity), p.cur)
      else Scanned(Success(Trim(pe[p.name].literal.value)), p.cur)
    else
      Token(input, c1, term, true)
  }

  /**
   * ParseMarkedSection, on the '[' after "<!": the section's name, then an
   * IGNORE section is skipped; INCLUDE is not implemented and any other
   * name is an error.
   */
  function MarkedSection(input: Units, c: Cursor, pe: map<Units, Entity>): (o: Outcome)
    requires c.pos <= |input| && LiteralsPresent(pe)
    ensures o.cur.pos <= |input|
    ensures o.err.None? ==>
      var n := NameOrReference(input, Next(input, c), [LBRACKET], pe);
      n.result.Success? && SectionKindOf(n.result.value) == IgnoreSectionKind
    ensures var n := NameOrReference(input, Next(input, c), [LBRACKET], pe);
      n.result.Success? && SectionKindOf(n.result.value) == IncludeSection ==> o.err == Some(IncludeSectionNotImplemented)
  {
    NextProgress(input, c);
    var n := NameOrReference(input, Next(input, c), [LBRACKET], pe);
    if n.result.Failure? then Outcome(Some(n.result.error), n.cur)
    else
      match SectionKindOf(n.result.value)
      case IncludeSection => Outcome(Some(IncludeSectionNotImplemented), n.cur)
      case IgnoreSectionKind => IgnoreSection(input, n.cur)
      case OtherSection => Outcome(Some(UnsupportedMarkedSection(n.result.value)), n.cur)
  }

  /** The header of an element declaration: everything ParseElementDecl stores. */
  datatype ElementHead = ElementHead(names: seq<Units>, startTagOptional: bool, endTagOptional: bool,
                                     inclusions: Option<seq<Units>>, exclusions: Option<seq<Units>>)

  datatype Header = Header(result: Result<ElementHead, SgmlError>, cur: Cursor)

  /**
   * ParseElementDecl up to the table update, after "<!ELEMENT": the name
   * group, the omission flags, the content model (read by `cm`), and the
   * rest up to the '>'. The name group reads its references' names from
   * `exN`, the exclusions from `exX` and the inclusions from `exI`.
   */
  function ElementHeader(input: Units, c: Cursor, exN: seq<Expansion>, exX: seq<Expansion>, exI: seq<Expansion>,
                         cm: Reader): (r: Header)
    requires c.pos <= |input|
    ensures r.cur.pos <= |input|
    ensures r.result.Success? ==> r.cur.lastchar == GT
    ensures r.result.Success? ==>
      var g := Group(input, SkipWs(input, c), exN);
      g.result == Success(r.result.value.names) &&
      r.result.value.startTagOptional == OmissionFlags(input, g.cur).startOptional &&
      r.result.value.endTagOptional == OmissionFlags(input, g.cur).endOptional
  {
    var g := Group(input, SkipWs(input, c), exN);
    if g.result.Failure? then Header(Failure(g.result.error), g.cur)
    else
      var o := OmissionFlags(input, g.cur);
      var m := Bounded(input, o.cur, cm(input, o.cur));
      if m.err.Some? then Header(Failure(m.err.value), m.cur)
      else
        var t := ElementTail(input, m.cur, exX, exI);
        if t.result.Failure? then Header(Failure(t.result.error), t.cur)
        else Header(Success(ElementHead(g.result.value, o.startOptional, o.endOptional,
                                        t.result.value.inclusions, t.result.value.exclusions)), t.cur)
  }

  /**
   * What ParseElementDecl does to the element table: an error in the header
   * leaves it as it was; otherwise every name is registered.
   */
  function Declare(table: map<Units, ElementDecl>, h: Result<ElementHead, SgmlError>): (r: Registered)
    ensures Grows(table, r.table)
    ensures h.Failure? ==> r == Registered(table, Some(h.error))
    ensures h.Success? ==> (r.err.None? <==> Distinct(Atoms(h.value.names)) && forall a | a in Atoms(h.value.names) :: a !in table)
  {
    if h.Failure? then Registered(table, Some(h.error))
    else
      var v := h.value;
      RegisterFails(table, v.names, v.startTagOptional, v.endTagOptional, v.inclusions, v.exclusions);
      Register(table, v.names, v.startTagOptional, v.endTagOptional, v.inclusions, v.exclusions)
  }

  /** The three tables of a DTD: element declarations, parameter entities and general entities. */
  datatype Tables = Tables(elements: map<Units, ElementDecl>, pentities: map<Units, Entity>, entities: map<Units, Entity>)

  /**
   * What one pass of the main loop does to the tables: nothing, an entity
   * declaration read at `cur` of `input` that adds the entity `e`, or an
   * element declaration read at `cur` whose names are registered.
   */
  datatype Effect =
    | Unchanged
    | EntityRead(input: Units, cur: Cursor, isHtml: bool, decl: Decl, e: Entity)
    | ElementRead(input: Units, cur: Cursor, exN: seq<Expansion>, exX: seq<Expansion>, exI: seq<Expansion>, head: ElementHead)

  /** The tables after one effect; an entity whose name is already taken is not added. */
  function Apply(t: Tables, ef: Effect): Tables {
    match ef
    case Unchanged => t
    case EntityRead(_, _, _, d, e) =>
      if d.param then (if d.name in t.pentities then t else t.(pentities := t.pentities[d.name := e]))
      else (if d.name in t.entities then t else t.(entities := t.entities[d.name := e]))
    case ElementRead(_, _, _, _, _, h) => t.(elements := Declare(t.elements, Success(h)).table)
  }

  /** The tables after a run of effects, in order. */
  function ApplyAll(t: Tables, log: seq<Effect>): Tables
    decreases |log|
  {
    if log == [] then t else Apply(ApplyAll(t, log[..|log| - 1]), log[|log| - 1])
  }

  lemma ApplyAllSnoc(t: Tables, log: seq<Effect>, ef: Effect)
    ensures ApplyAll(t, log + [ef]) == Apply(ApplyAll(t, log), ef)
  {
    assert (log + [ef])[..|log|] == log;
  }

  /** The declaration an effect records is the one the declaration readers read at its position. */
  predicate Justified(ef: Effect, cm: Reader) {
    match ef
    case Unchanged => true
    case EntityRead(input, cur, isHtml, d, _) =>
      cur.pos <= |input| && EntityDeclaration(input, cur, isHtml).result == Success(d)
    case ElementRead(input, cur, exN, exX, exI, h) =>
      cur.pos <= |input| && ElementHeader(input, cur, exN, exX, exI, cm).result == Success(h)
  }

  /**
   * A declaration of kind `kind`, read at `c` of `input`, ended with `err`
   * and did `ef`: an entity declaration read without error is recorded
   * with the entity it adds, an element declaration is recorded when its
   * header is read, and an attribute-list declaration changes no table.
   */
  predicate DeclDone(kind: DeclKind, input: Units, c: Cursor, isHtml: bool, err: Option<SgmlError>, ef: Effect) {
    && (ef.EntityRead? ==> kind == EntityKw && err.None? && ef.input == input && ef.cur == c && ef.isHtml == isHtml)
    && (ef.ElementRead? ==> kind == ElementKw && ef.input == input && ef.cur == c)
    && (kind == EntityKw && err.None? ==> ef.EntityRead?)
    && (kind == ElementKw && err.None? ==> ef.ElementRead?)
    && (kind == AttListKw ==> ef == Unchanged)
  }

  /** Where reading stood after the declaration an effect records. */
  function DeclEnd(ef: Effect, cm: Reader): Cursor
    requires !ef.Unchanged?
  {
    if ef.cur.pos > |ef.input| then ef.cur
    else if ef.EntityRead? then EntityDeclaration(ef.input, ef.cur, ef.isHtml).cur
    else ElementHeader(ef.input, ef.cur, ef.exN, ef.exX, ef.exI, cm).cur
  }

  /**
   * After a run of effects a general entity name is in the table exactly when
   * it was before or a general entity declaration of the run names it; the
   * same holds for parameter entities. No entry is replaced.
   */
  lemma {:induction false} ApplyAllEntities(t: Tables, log: seq<Effect>, n: Units)
    ensures n in ApplyAll(t, log).entities <==>
      n in t.entities || exists i | 0 <= i < |log| :: log[i].EntityRead? && !log[i].decl.param && log[i].decl.name == n
    ensures n in ApplyAll(t, log).pentities <==>
      n in t.pentities || exists i | 0 <= i < |log| :: log[i].EntityRead? && log[i].decl.param && log[i].decl.name == n
    ensures Grows(t.entities, ApplyAll(t, log).entities) && Grows(t.pentities, ApplyAll(t, log).pentities)
    decreases |log|
  {
    if log != [] {
      var init := log[..|log| - 1];
      ApplyAllEntities(t, init, n);
      assert forall i | 0 <= i < |init| :: init[i] == log[i];
    }
  }

  /**
   * After a run of effects every element name in the table was there before
   * or is one of the upper-cased names of an element declaration of the run;
   * no entry is replaced.
   */
  lemma {:induction false} ApplyAllElements(t: Tables, log: seq<Effect>, n: Units)
    ensures n in ApplyAll(t, log).elements ==>
      n in t.elements || exists i | 0 <= i < |log| :: log[i].ElementRead? && n in Atoms(log[i].head.names)
    ensures Grows(t.elements, ApplyAll(t, log).elements)
    decreases |log|
  {
    if log != [] {
      var init := log[..|log| - 1];
      ApplyAllElements(t, init, n);
      assert forall i | 0 <= i < |init| :: init[i] == log[i];
    }
  }

  /**
   * From empty tables, a run of effects declares a general or parameter
   * entity exactly when one of its entity declarations names it, and an
   * element only when one of its element declarations names it.
   */
  lemma DeclaredByLog(log: seq<Effect>)
    ensures forall n :: n in ApplyAll(Tables(map[], map[], map[]), log).entities <==>
      exists i | 0 <= i < |log| :: log[i].EntityRead? && !log[i].decl.param && log[i].decl.name == n
    ensures forall n :: n in ApplyAll(Tables(map[], map[], map[]), log).pentities <==>
      exists i | 0 <= i < |log| :: log[i].EntityRead? && log[i].decl.param && log[i].decl.name == n
    ensures forall n :: n in ApplyAll(Tables(map[], map[], map[]), log).elements ==>
      exists i | 0 <= i < |log| :: log[i].ElementRead? && n in Atoms(log[i].head.names)
  {
    var t := Tables(map[], map[], map[]);
    forall n
      ensures n in ApplyAll(t, log).entities <==>
        exists i | 0 <= i < |log| :: log[i].EntityRead? && !log[i].decl.param && log[i].decl.name == n
      ensures n in ApplyAll(t, log).pentities <==>
        exists i | 0 <= i < |log| :: log[i].EntityRead? && log[i].decl.param && log[i].decl.name == n
    {
      ApplyAllEntities(t, log, n);
    }
    forall n | n in ApplyAll(t, log).elements
      ensures exists i | 0 <= i < |log| :: log[i].ElementRead? && n in Atoms(log[i].head.names)
    {
      ApplyAllElements(t, log, n);
    }
  }

  /** What ParseMarkup found after the '<'. */
  datatype Markup = CommentMarkup | SectionMarkup | DeclMarkup(kind: DeclKind)

  datatype Start = Start(result: Result<Markup, SgmlError>, cur: Cursor)

  /**
   * The dispatch of ParseMarkup, on the '<': a '!' must follow; then "--"
   * starts a comment, '[' a marked section, and otherwise a keyword, spelt
   * exactly ENTITY, ELEMENT or ATTLIST, a declaration.
   */
  function MarkupStart(input: Units, c: Cursor): (r: Start)
    requires c.pos <= |input|
    ensures r.cur.pos <= |input|
    ensures Next(input, c).lastchar != BANG ==> r == Start(Failure(ExpectedDeclaration), Next(input, c))
    ensures r.result == Success(CommentMarkup) <==>
      Next(input, c).lastchar == BANG && Next(input, Next(input, c)).lastchar == HYPHEN
    ensures r.result == Success(SectionMarkup) <==>
      Next(input, c).lastchar == BANG && Next(input, Next(input, c)).lastchar == LBRACKET
    ensures r.result.Success? && r.result.value.DeclMarkup? ==>
      var t := Token(input, Next(input, Next(input, c)), WhiteSpace, true);
      t.result.Success? && DeclKindOf(t.result.value) == Some(r.result.value.kind)
  {
    NextProgress(input, c);
    var c1 := Next(input, c);
    if c1.lastchar != BANG then Start(Failure(ExpectedDeclaration), c1)
    else
      NextProgress(input, c1);
      var c2 := Next(input, c1);
      if c2.lastchar == HYPHEN then Start(Success(CommentMarkup), c2)
      else if c2.lastchar == LBRACKET then Start(Success(SectionMarkup), c2)
      else
        var t := Token(input, c2, WhiteSpace, true);
        if t.result.Failure? then Start(Failure(t.result.error), t.cur)
        else match DeclKindOf(t.result.value)
          case None => Start(Failure(InvalidDeclaration(t.result.value)), t.cur)
          case Some(k) => Start(Success(DeclMarkup(k)), t.cur)
  }

  datatype Listed = Listed(result: Result<seq<Units>, SgmlError>, cur: Cursor)

  /**
   * ParseAttList, after "<!ATTLIST", up to the check of the names: the name
   * group, then the attribute definitions, read by `ad`.
   */
  function AttListHeader(input: Units, c: Cursor, ex: seq<Expansion>, ad: Reader): (r: Listed)
    requires c.pos <= |input|
    ensures r.cur.pos <= |input|
    ensures r.result.Success? ==> Group(input, SkipWs(input, c), ex).result == r.result
  {
    var g := Group(input, SkipWs(input, c), ex);
    if g.result.Failure? then Listed(g.result, g.cur)
    else
      var a := Bounded(input, g.cur, ad(input, g.cur));
      if a.err.Some? then Listed(Failure(a.err.value), a.cur)
      else Listed(g.result, a.cur)
  }

  /** The check closing ParseAttList: the first name that has no element declaration is an error. */
  function FirstUndeclared(table: map<Units, ElementDecl>, names: seq<Units>): (r: Option<SgmlError>)
    ensures r.None? <==> forall i | 0 <= i < |names| :: names[i] in table
    ensures r.Some? ==> exists i | 0 <= i < |names| ::
      names[i] !in table && r.value == UndefinedElement(names[i]) && forall j | 0 <= j < i :: names[j] in table
  {
    if names == [] then None
    else if names[0] !in table then Some(UndefinedElement(names[0]))
    else
      var r := FirstUndeclared(table, names[1..]);
      assert forall i | 1 <= i < |names| :: names[1..][i - 1] == names[i];
      if r.Some? then
        var i :| 0 <= i < |names[1..]| && names[1..][i] !in table && r.value == UndefinedElement(names[1..][i]) &&
          forall j | 0 <= j < i :: names[1..][j] in table;
        assert names[i + 1] !in table && forall j | 0 <= j < i + 1 :: names[j] in table;
        r
      else r
  }

  class Dtd {
    const name: Units
    /** What fetching a system identifier against a base location delivers; None when it fails. */
    const fetch: (Option<Units>, Units) -> Option<Units>
    const contentModel: Reader
    const attDefs: Reader
    var elements: map<Units, ElementDecl>
    var pentities: map<Units, Entity>
    var entities: map<Units, Entity>
    /** The entities being read, outermost first. */
    var stack: seq<Entity>

    /** The entities being read. */
    ghost function Objects(): set<Entity>
      reads this`stack
    {
      set e | e in stack
    }

    /**
     * Every entity being read is within its text, the stack is the chain of
     * parents of the current entity, and an internal parameter entity has a
     * literal.
     */
    ghost predicate Valid()
      reads this`stack, this`pentities, Objects()
    {
      (forall i | 0 <= i < |stack| :: stack[i].Valid()) &&
      (|stack| > 0 ==> ParentChain(stack[|stack| - 1], Rev(stack))) &&
      LiteralsPresent(pentities)
    }

    /** m_current. */
    function Top(): Entity
      requires |stack| > 0
      reads this`stack
    {
      stack[|stack| - 1]
    }

    /** The three tables, as a value. */
    function Contents(): Tables
      reads this
    {
      Tables(elements, pentities, entities)
    }

    /** The texts of the entities being read. */
    ghost function Inputs(): set<Units>
      reads this`stack, Objects()
    {
      set e | e in stack :: e.input
    }

    /** The entities under the current one. */
    ghost function Below(): set<Entity>
      reads this`stack
    {
      set i | 0 <= i < |stack| - 1 :: stack[i]
    }

    constructor (name: Units, fetch: (Option<Units>, Units) -> Option<Units>, contentModel: Reader, attDefs: Reader)
      ensures this.name == name && this.fetch == fetch && this.contentModel == contentModel && this.attDefs == attDefs
      ensures elements == map[] && pentities == map[] && entities == map[] && stack == []
      ensures Valid()
    {
      this.name := name;
      this.fetch := fetch;
      this.contentModel := contentModel;
      this.attDefs := attDefs;
      elements := map[];
      pentities := map[];
      entities := map[];
      stack := [];
    }

    /** SgmlDtd.FindEntity: the general entity of exactly this name, or null. */
    function FindEntity(n: Units): (e: Entity?)
      reads this
      ensures e != null <==> n in entities
      ensures e != null ==> e in entities.Values
    {
      if n in entities then entities[n] else null
    }

    /** SgmlDtd.FindElement: the declaration of the upper-cased name, or None. */
    function FindElement(n: Units): (d: Option<ElementDecl>)
      reads this
      ensures d.Some? <==> UpperAll(n) in elements
      ensures d.Some? ==> d.value in elements.Values
    {
      if UpperAll(n) in elements then Some(elements[UpperAll(n)]) else None
    }

    /** Element names are found whatever their case. */
    lemma FindElementIgnoresCase(a: Units, b: Units)
      requires EqualsIgnoreCase(a, b)
      ensures FindElement(a) == FindElement(b)
    {
    }

    /** Entity names are not: a name in the table is found only as spelt. */
    lemma FindEntityExact(a: Units, b: Units)
      requires a in entities && b !in entities
      ensures FindEntity(a) != null && FindEntity(b) == null
    {
    }

    // ------------------------------------------------------------ stack

    lemma TopValid()
      requires Valid() && |stack| > 0
      ensures Top() in Objects() && Top().Valid()
    {
    }

    /**
     * SgmlDtd.PushEntity: opens the entity with the current one as parent and
     * the text `fetch` gives for its system identifier, makes it current and
     * reads its first character. The model refuses an entity that is already
     * being read, which SgmlDtd would restart from the beginning.
     */
    method PushEntity(baseUri: Option<Units>, e: Entity) returns (err: Option<SgmlError>)
      requires Valid() && (e.isInternal && e.literal.None? ==> e.Valid())
      modifies this`stack, e`parent, e`isHtml, e`line, e`input, e`pos, e`resolvedUri
      modifies e`lineStart, e`absolutePos, e`lastchar, e`isWhitespace
      ensures Valid()
      ensures e in old(stack) ==> err == Some(RecursiveEntity(e.name))
      ensures e !in old(stack) ==> (err.None? <==> e.isInternal || (e.uri.Some? && fetch(baseUri, e.uri.value).Some?))
      ensures err.Some? ==> stack == old(stack)
      ensures e !in old(stack) && !e.isInternal && e.uri.None? ==> err == Some(UnresolvableEntity(e.name))
      ensures e !in old(stack) && !e.isInternal && e.uri.Some? && err.Some? ==> err == Some(FetchFailed(e.uri.value))
      ensures err.None? ==> stack == old(stack) + [e]
      ensures err.None? ==> e.parent == (if old(stack) == [] then null else old(stack)[|old(stack)| - 1])
      ensures err.None? && e.isInternal && e.literal.Some? ==> e.input == e.literal.value
      ensures err.None? && !e.isInternal ==> e.input == fetch(baseUri, e.uri.value).value
      ensures err.None? && e.isInternal && e.literal.None? ==> e.input == old(e.input)
      ensures err.None? ==>
        e.Cur() == Next(e.input, Cursor(if e.isInternal && e.literal.None? then old(e.pos) else 0,
                                        1, old(e.lineStart), old(e.absolutePos), old(e.lastchar), old(e.isWhitespace)))
    {
      if e in stack {
        return Some(RecursiveEntity(e.name));
      }
      var parent: Entity? := if stack == [] then null else stack[|stack| - 1];
      var fetched := if !e.isInternal && e.uri.Some? then fetch(baseUri, e.uri.value) else None;
      ghost var chain := Rev(stack);
      assert e !in chain;
      err := e.Open(parent, fetched);
      assert stack != [] ==> ParentChain(stack[|stack| - 1], chain);
      if err.None? {
        Enter(e);
      }
    }

    /** PushEntity, as the entry points use it: with an entity not read yet. */
    method Open(baseUri: Option<Units>, e: Entity) returns (err: Option<SgmlError>)
      requires Valid() && e !in stack && (e.isInternal && e.literal.None? ==> e.Valid())
      modifies this`stack, e`parent, e`isHtml, e`line, e`input, e`pos, e`resolvedUri
      modifies e`lineStart, e`absolutePos, e`lastchar, e`isWhitespace
      ensures Valid()
      ensures err.None? ==> stack == old(stack) + [e]
      ensures err.Some? ==> stack == old(stack)
      ensures e.isInternal ==> err.None?
      ensures !e.isInternal && e.uri.Some? && fetch(baseUri, e.uri.value).None? ==> err == Some(FetchFailed(e.uri.value))
      ensures err.None? && e.isInternal ==> e.input == if e.literal.Some? then e.literal.value else old(e.input)
      ensures err.None? && !e.isInternal ==> e.uri.Some? && Some(e.input) == fetch(baseUri, e.uri.value)
    {
      err := PushEntity(baseUri, e);
    }

    /** The opened entity becomes current and its first character is read. */
    method Enter(e: Entity)
      requires Valid() && e.Valid() && e !in stack
      requires e.parent == if stack == [] then null else stack[|stack| - 1]
      modifies this`stack, e`pos, e`line, e`lineStart, e`absolutePos, e`lastchar, e`isWhitespace
      ensures Valid() && stack == old(stack) + [e]
      ensures e.Cur() == Next(e.input, old(e.Cur()))
    {
      ghost var chain := Rev(stack);
      assert Rev(stack + [e]) == [e] + chain by {
        assert (stack + [e])[..|stack|] == stack;
      }
      stack := stack + [e];
      assert ParentChain(e, Rev(stack));
      var _ := e.ReadChar();
    }

    /** SgmlDtd.PopEntity: the parent of the current entity becomes current, or nothing is. */
    method PopEntity()
      requires Valid() && |stack| > 0
      modifies this`stack
      ensures Valid()
      ensures stack == old(stack[..|stack| - 1])
      ensures stack == [] <==> old(Top().parent) == null
      ensures stack != [] ==> Top() == old(Top().parent)
    {
      ghost var chain := Rev(stack);
      stack := stack[..|stack| - 1];
      assert chain[1..] == Rev(stack);
    }

    /**
     * ParseEntity, after "<!ENTITY": the declaration is read and the entity
     * it declares is added to the parameter or the general entities. A name
     * already in that table is an error, which leaves the table as it was.
     */
    method ParseEntity() returns (err: Option<SgmlError>)
      requires Valid() && |stack| > 0
      modifies this`pentities, this`entities
      modifies Top()`pos, Top()`line, Top()`lineStart, Top()`absolutePos, Top()`lastchar, Top()`isWhitespace
      ensures Valid()
      ensures var d := EntityDeclaration(Top().input, old(Top().Cur()), Top().isHtml);
        Top().Cur() == d.cur &&
        if d.result.Failure? then
          err == Some(d.result.error) && pentities == old(pentities) && entities == old(entities)
        else
          var decl := d.result.value;
          var table := if decl.param then old(pentities) else old(entities);
          var now := if decl.param then pentities else entities;
          if decl.name in table then
            err == Some(DuplicateKey(decl.name)) && pentities == old(pentities) && entities == old(entities)
          else
            err.None? && decl.name in now && fresh(now[decl.name]) && Declares(now[decl.name], decl) &&
            now == table[decl.name := now[decl.name]] &&
            (if decl.param then entities == old(entities) else pentities == old(pentities))
      ensures Grows(old(pentities), pentities) && Grows(old(entities), entities)
    {
      TopValid();
      var d := ReadEntityDeclaration(Top());
      if d.Failure? {
        return Some(d.error);
      }
      err := AddEntity(d.value);
    }

    // ------------------------------------------------------ name groups

    /** The parameter entities not being read: those a reference may still open. */
    ghost function Pending(): set<Entity>
      reads this`stack, this`pentities
    {
      set e | e in pentities.Values && e !in stack
    }

    /**
     * One item of ParseNameGroup or ParseNameList, on a character that is not
     * white space: a name token, upper-cased, or a parameter-entity reference
     * whose text is read as a name list. What the reference delivered is the
     * ghost `x`.
     */
    method ParseNameItem() returns (r: Result<seq<Units>, SgmlError>, ghost x: seq<Expansion>)
      requires Valid() && |stack| > 0
      modifies this`stack, Top()`pos, Top()`line, Top()`lineStart, Top()`absolutePos, Top()`lastchar, Top()`isWhitespace
      modifies Pending()
      ensures Valid() && stack == old(stack)
      ensures |x| == (if old(Top().lastchar) == PERCENT then 1 else 0) && ExpansionsUpper(x)
      ensures Names(r, Top().Cur(), |x|) == Item(Top().input, old(Top().Cur()), x)
      decreases Pending(), 2
    {
      TopValid();
      if Top().lastchar == PERCENT {
        r := ParseReferenceItem();
        x := [r];
      } else {
        r := ParseTokenItem(Top());
        x := [];
      }
    }

    /** The reference branch of an item: the entity is looked up, opened, and its text read as a name list. */
    method ParseReferenceItem() returns (r: Result<seq<Units>, SgmlError>)
      requires Valid() && |stack| > 0 && Top().lastchar == PERCENT
      modifies this`stack, Top()`pos, Top()`line, Top()`lineStart, Top()`absolutePos, Top()`lastchar, Top()`isWhitespace
      modifies Pending()
      ensures Valid() && stack == old(stack)
      ensures r.Success? ==> AllUpper(r.value)
      ensures Names(r, Top().Cur(), 1) == Item(Top().input, old(Top().Cur()), [r])
      decreases Pending(), 1
    {
      TopValid();
      var cur := Top();
      var e := ParseParameterEntity(cur, NameGroupTerm, pentities);
      if e.Failure? {
        return Failure(e.error);
      }
      if e.value in stack {
        return Failure(RecursiveEntity(e.value.name));
      }
      r := ExpandReference(e.value);
    }

    /**
     * The entity of a reference in a name group is opened, its text read as a
     * name list, and closed again; the current entity is left as it was.
     */
    method ExpandReference(e: Entity) returns (r: Result<seq<Units>, SgmlError>)
      requires Valid() && |stack| > 0 && e in Pending()
      modifies this`stack, Pending()
      ensures Valid() && stack == old(stack)
      ensures r.Success? ==> AllUpper(r.value)
      decreases Pending(), 0
    {
      TopValid();
      var base := Top().ResolvedUri(Rev(stack));
      var err := PushEntity(base, e);
      if err.Some? {
        return Failure(err.value);
      }
      ghost var sub: seq<Expansion>;
      r, sub := ParseNameList();
      PopEntity();
    }

    /** ParseNameList, over the text of a parameter entity just opened. */
    method ParseNameList() returns (r: Result<seq<Units>, SgmlError>, ghost ex: seq<Expansion>)
      requires Valid() && |stack| > 0
      modifies this`stack, Top()`pos, Top()`line, Top()`lineStart, Top()`absolutePos, Top()`lastchar, Top()`isWhitespace
      modifies Pending()
      ensures Valid() && stack == old(stack)
      ensures ExpansionsUpper(ex) && (r.Success? ==> AllUpper(r.value))
      ensures Names(r, Top().Cur(), |ex|) == List(Top().input, old(Top().Cur()), ex)
      decreases Pending(), 3
    {
      TopValid();
      var cur := Top();
      var ch := cur.SkipWhitespace();
      ghost var start := cur.Cur();
      ListStart(cur.input, start);
      var names: seq<Units> := [];
      ex := [];
      while cur.lastchar != EOF
        invariant Valid() && stack == old(stack) && cur == Top() && cur.Valid()
        invariant ListSoFar(cur.input, start, ex, names, cur.Cur())
        invariant ExpansionsUpper(ex) && AllUpper(names)
        decreases Remaining(cur.input, cur.Cur())
      {
        ghost var c := cur.Cur();
        var item: Result<seq<Units>, SgmlError>;
        ghost var x: seq<Expansion>;
        item, x := ParseNameItem();
        if item.Failure? {
          ListFailure(cur.input, start, ex, names, c, x);
          ex := ex + x;
          return item, ex;
        }
        ListAdvance(cur.input, start, ex, names, c, x);
        UpperConcat(names, item.value, ex, x);
        names := names + item.value;
        ex := ex + x;
        Separator(false);
      }
      ListEnd(cur.input, start, ex, names, cur.Cur());
      r := Success(names);
    }

    /** ParseNameGroup, on the character before the group or the name. */
    method ParseNameGroup() returns (r: Result<seq<Units>, SgmlError>, ghost ex: seq<Expansion>)
      requires Valid() && |stack| > 0
      modifies this`stack, Top()`pos, Top()`line, Top()`lineStart, Top()`absolutePos, Top()`lastchar, Top()`isWhitespace
      modifies Pending()
      ensures Valid() && stack == old(stack)
      ensures ExpansionsUpper(ex) && (r.Success? ==> AllUpper(r.value))
      ensures Names(r, Top().Cur(), |ex|) == Group(Top().input, old(Top().Cur()), ex)
    {
      TopValid();
      var cur := Top();
      ex := [];
      if cur.lastchar != LPAREN {
        r := ParseSingleName(cur);
        return;
      }
      CurrentReadChar();
      CurrentSkipWhitespace();
      r, ex := ParseGroupItems();
    }

    /** The loop of ParseNameGroup, after the '(' and the white space after it; the ')' is read past. */
    method ParseGroupItems() returns (r: Result<seq<Units>, SgmlError>, ghost ex: seq<Expansion>)
      requires Valid() && |stack| > 0
      modifies this`stack, Top()`pos, Top()`line, Top()`lineStart, Top()`absolutePos, Top()`lastchar, Top()`isWhitespace
      modifies Pending()
      ensures Valid() && stack == old(stack)
      ensures ExpansionsUpper(ex) && (r.Success? ==> AllUpper(r.value))
      ensures Names(r, Top().Cur(), |ex|) == GroupRun(Top().input, old(Top().Cur()), ex)
    {
      TopValid();
      var cur := Top();
      ex := [];
      ghost var start := cur.Cur();
      GroupStart(cur.input, start);
      var names: seq<Units> := [];
      while cur.lastchar != RPAREN
        invariant Valid() && stack == old(stack) && cur == Top() && cur.Valid()
        invariant GroupSoFar(cur.input, start, ex, names, cur.Cur())
        invariant ExpansionsUpper(ex) && AllUpper(names)
        decreases Remaining(cur.input, cur.Cur())
      {
        ghost var c := cur.Cur();
        CurrentSkipWhitespace();
        var item: Result<seq<Units>, SgmlError>;
        ghost var x: seq<Expansion>;
        item, x := ParseNameItem();
        if item.Failure? {
          GroupFailure(cur.input, start, ex, names, c, x);
          ex := ex + x;
          return item, ex;
        }
        GroupAdvance(cur.input, start, ex, names, c, x);
        UpperConcat(names, item.value, ex, x);
        names := names + item.value;
        ex := ex + x;
        Separator(true);
      }
      GroupEnd(cur.input, start, ex, names, cur.Cur());
      CurrentReadChar();
      r := Success(names);
    }

    // ------------------------------------------------- element declarations

    /** The exclusions of ParseElementDecl. */
    method ParseExclusions() returns (r: Result<Option<seq<Units>>, SgmlError>, ghost ex: seq<Expansion>)
      requires Valid() && |stack| > 0
      modifies this`stack, Top()`pos, Top()`line, Top()`lineStart, Top()`absolutePos, Top()`lastchar, Top()`isWhitespace
      modifies Pending()
      ensures Valid() && stack == old(stack)
      ensures Part(r, Top().Cur(), |ex|) == Exclusions(Top().input, old(Top().Cur()), ex)
    {
      ex := [];
      TopValid();
      if Top().lastchar != HYPHEN {
        return Success(None), ex;
      }
      CurrentReadChar();
      if Top().lastchar == LPAREN {
        var g: Result<seq<Units>, SgmlError>;
        g, ex := ParseNameGroup();
        if g.Failure? {
          return Failure(g.error), ex;
        }
        CurrentSkipWhitespace();
        return Success(Some(g.value)), ex;
      } else if Top().lastchar == HYPHEN {
        CurrentDeclComment(false);
        return Success(None), ex;
      }
      return Failure(InvalidSyntax(Top().lastchar)), ex;
    }

    /** The inclusions of ParseElementDecl. */
    method ParseInclusions() returns (r: Result<Option<seq<Units>>, SgmlError>, ghost ex: seq<Expansion>)
      requires Valid() && |stack| > 0
      modifies this`stack, Top()`pos, Top()`line, Top()`lineStart, Top()`absolutePos, Top()`lastchar, Top()`isWhitespace
      modifies Pending()
      ensures Valid() && stack == old(stack)
      ensures Part(r, Top().Cur(), |ex|) == Inclusions(Top().input, old(Top().Cur()), ex)
    {
      ex := [];
      TopValid();
      if Top().lastchar != PLUS {
        return Success(None), ex;
      }
      CurrentReadChar();
      if Top().lastchar != LPAREN {
        return Failure(ExpectedInclusions(Top().lastchar)), ex;
      }
      var g: Result<seq<Units>, SgmlError>;
      g, ex := ParseNameGroup();
      if g.Failure? {
        return Failure(g.error), ex;
      }
      CurrentSkipWhitespace();
      return Success(Some(g.value)), ex;
    }

    /** ParseElementDecl after the content model, up to the '>'. */
    method ParseElementTail() returns (r: Result<Exceptions, SgmlError>, ghost exX: seq<Expansion>, ghost exI: seq<Expansion>)
      requires Valid() && |stack| > 0
      modifies this`stack, Top()`pos, Top()`line, Top()`lineStart, Top()`absolutePos, Top()`lastchar, Top()`isWhitespace
      modifies Pending()
      ensures Valid() && stack == old(stack)
      ensures Tail(r, Top().Cur()) == ElementTail(Top().input, old(Top().Cur()), exX, exI)
    {
      exI := [];
      CurrentSkipWhitespace();
      var x: Result<Option<seq<Units>>, SgmlError>;
      x, exX := ParseExclusions();
      if x.Failure? {
        return Failure(x.error), exX, exI;
      }
      var err := CurrentDeclComments();
      if err.Some? {
        return Failure(err.value), exX, exI;
      }
      var i: Result<Option<seq<Units>>, SgmlError>;
      i, exI := ParseInclusions();
      if i.Failure? {
        return Failure(i.error), exX, exI;
      }
      err := CurrentDeclComments();
      if err.Some? {
        return Failure(err.value), exX, exI;
      }
      TopValid();
      if Top().lastchar != GT {
        return Failure(ExpectedElementEnd(Top().lastchar)), exX, exI;
      }
      r := Success(Exceptions(i.value, x.value));
    }

    /** ParseElementDecl up to the table update, after "<!ELEMENT". */
    method ParseElementHeader() returns (r: Result<ElementHead, SgmlError>,
                                         ghost exN: seq<Expansion>, ghost exX: seq<Expansion>, ghost exI: seq<Expansion>)
      requires Valid() && |stack| > 0
      modifies this`stack, Top()`pos, Top()`line, Top()`lineStart, Top()`absolutePos, Top()`lastchar, Top()`isWhitespace
      modifies Pending()
      ensures Valid() && stack == old(stack)
      ensures Header(r, Top().Cur()) == ElementHeader(Top().input, old(Top().Cur()), exN, exX, exI, contentModel)
    {
      exX, exI := [], [];
      CurrentSkipWhitespace();
      var names: Result<seq<Units>, SgmlError>;
      names, exN := ParseNameGroup();
      if names.Failure? {
        return Failure(names.error), exN, exX, exI;
      }
      var sto, eto := CurrentOmission();
      var err := CurrentContentModel();
      if err.Some? {
        return Failure(err.value), exN, exX, exI;
      }
      var t: Result<Exceptions, SgmlError>;
      t, exX, exI := ParseElementTail();
      if t.Failure? {
        return Failure(t.error), exN, exX, exI;
      }
      r := Success(ElementHead(names.value, sto, eto, t.value.inclusions, t.value.exclusions));
    }

    /**
     * The closing loop of ParseElementDecl: every name, upper-cased, is
     * added with the declaration; a name already present stops the loop.
     */
    method RegisterElements(h: ElementHead) returns (err: Option<SgmlError>)
      modifies this`elements
      ensures Registered(elements, err) == Declare(old(elements), Success(h))
      ensures Grows(old(elements), elements)
    {
      var i := 0;
      while i < |h.names|
        invariant 0 <= i <= |h.names|
        invariant Register(old(elements), h.names, h.startTagOptional, h.endTagOptional, h.inclusions, h.exclusions) ==
          Register(elements, h.names[i..], h.startTagOptional, h.endTagOptional, h.inclusions, h.exclusions)
      {
        var atom := UpperAll(h.names[i]);
        if atom in elements {
          return Some(DuplicateKey(atom));
        }
        assert h.names[i..][1..] == h.names[i + 1..];
        elements := elements[atom := ElementDecl(atom, h.startTagOptional, h.endTagOptional, h.inclusions, h.exclusions)];
        i := i + 1;
      }
      return None;
    }

    /**
     * ParseElementDecl, after "<!ELEMENT": the header is read and every
     * declared name is registered.
     */
    method ParseElementDecl() returns (err: Option<SgmlError>, ghost exN: seq<Expansion>, ghost exX: seq<Expansion>, ghost exI: seq<Expansion>)
      requires Valid() && |stack| > 0
      modifies this`stack, this`elements, Top()`pos, Top()`line, Top()`lineStart, Top()`absolutePos, Top()`lastchar, Top()`isWhitespace
      modifies Pending()
      ensures Valid() && stack == old(stack)
      ensures var h := ElementHeader(Top().input, old(Top().Cur()), exN, exX, exI, contentModel);
        Top().Cur() == h.cur && Registered(elements, err) == Declare(old(elements), h.result)
      ensures Grows(old(elements), elements)
    {
      var h: Result<ElementHead, SgmlError>;
      h, exN, exX, exI := ParseElementHeader();
      if h.Failure? {
        return Some(h.error), exN, exX, exI;
      }
      err := RegisterElements(h.value);
    }

    // -------------------------------------------------------- main loop

    /**
     * SgmlDtd.Parse, the loop over the current entity: white space is read
     * past, '<' starts markup and '%' a parameter-entity reference, whose
     * entity is opened (an entity that cannot be opened is passed over); any
     * other character is an error. At EOF the entity is closed and its parent
     * read on, and reading ends when no entity is left. At most `fuel`
     * characters are dispatched. `log` holds what each pass did to the
     * tables, in order: the tables are the old ones with the log applied,
     * every declaration in it is the one read where it was read, and it was
     * read in one of the texts being read at the start or in the text of a
     * parameter entity.
     */
    method ParseDeclarations(fuel: nat) returns (err: Option<SgmlError>, ghost log: seq<Effect>)
      requires Valid() && |stack| > 0
      modifies this, Objects(), pentities.Values
      ensures Valid()
      ensures err.None? <==> stack == []
      ensures Contents() == ApplyAll(old(Contents()), log)
      ensures forall i | 0 <= i < |log| :: Justified(log[i], contentModel)
      ensures forall i | 0 <= i < |log| :: !log[i].Unchanged? ==> OpenedText(log[i].input, old(Inputs()), pentities, fetch)
      ensures Grows(old(elements), elements) && Grows(old(pentities), pentities) && Grows(old(entities), entities)
    {
      var n := fuel;
      log := [];
      ghost var texts := Inputs();
      while true
        invariant Valid() && |stack| > 0
        invariant forall e | e in stack :: e in old(Objects()) || e in old(pentities.Values) || fresh(e)
        invariant forall e | e in pentities.Values :: e in old(pentities.Values) || fresh(e)
        invariant Grows(old(elements), elements) && Grows(old(pentities), pentities) && Grows(old(entities), entities)
        invariant Contents() == ApplyAll(old(Contents()), log)
        invariant forall i | 0 <= i < |log| :: Justified(log[i], contentModel)
        invariant forall u | u in texts :: OpenedText(u, old(Inputs()), pentities, fetch)
        invariant forall f | f in stack :: f.input in texts
        invariant forall i | 0 <= i < |log| :: !log[i].Unchanged? ==> log[i].input in texts
        decreases n
      {
        if n == 0 {
          return Some(OutOfFuel), log;
        }
        n := n - 1;
        var done;
        ghost var ef, texts';
        done, err, ef, texts' := Pass(old(Inputs()), texts);
        ApplyAllSnoc(old(Contents()), log, ef);
        log, texts := log + [ef], texts';
        if done {
          return;
        }
      }
    }

    /**
     * ParseStep, keeping track of the texts being read: every one of `texts`
     * was read from the start or is the text of a parameter entity, and so is
     * the text the pass pushes; `texts'` adds it.
     */
    method Pass(ghost start: set<Units>, ghost texts: set<Units>)
      returns (done: bool, err: Option<SgmlError>, ghost ef: Effect, ghost texts': set<Units>)
      requires Valid() && |stack| > 0
      requires forall u | u in texts :: OpenedText(u, start, pentities, fetch)
      requires forall f | f in stack :: f.input in texts
      modifies this`stack, this`elements, this`pentities, this`entities
      modifies Top()`pos, Top()`line, Top()`lineStart, Top()`absolutePos, Top()`lastchar, Top()`isWhitespace
      modifies Pending()
      ensures Valid() && (done <==> err.Some? || stack == []) && (err.Some? ==> stack != [])
      ensures Contents() == Apply(old(Contents()), ef) && Justified(ef, contentModel)
      ensures forall e | e in stack :: e in old(stack) || e in old(pentities.Values) || fresh(e)
      ensures forall e | e in pentities.Values :: e in old(pentities.Values) || fresh(e)
      ensures Grows(old(elements), elements) && Grows(old(pentities), pentities) && Grows(old(entities), entities)
      ensures texts <= texts' && forall u | u in texts' :: OpenedText(u, start, pentities, fetch)
      ensures (forall f | f in stack :: f.input in texts') && (ef != Unchanged ==> ef.input in texts')
    {
      ghost var pe, below := pentities, stack;
      done, err, ef := ParseStep();
      OpenedTextsGrow(texts, start, pe, pentities, fetch);
      texts' := texts;
      if !(stack <= below) {
        texts' := texts + {Top().input};
      }
    }

    /**
     * One pass of the loop of SgmlDtd.Parse, on the current entity's last
     * character; `done` when the loop ends, with an error or with no entity
     * left. EOF closes the entity, white space is read past, '%' reads a
     * reference and '<' markup; `ef` is what the pass does to the tables,
     * which only markup changes.
     */
    method ParseStep() returns (done: bool, err: Option<SgmlError>, ghost ef: Effect)
      requires Valid() && |stack| > 0
      modifies this`stack, this`elements, this`pentities, this`entities
      modifies Top()`pos, Top()`line, Top()`lineStart, Top()`absolutePos, Top()`lastchar, Top()`isWhitespace
      modifies Pending()
      ensures Valid()
      ensures done <==> err.Some? || stack == []
      ensures err.None? ==> (stack == [] <==> old(Top().lastchar) == EOF && |old(stack)| == 1)
      ensures err.Some? ==> stack == old(stack)
      ensures !(old(Top().lastchar) in {EOF, LT, PERCENT} || IsWhite(old(Top().lastchar))) ==>
        err == Some(UnexpectedChar(old(Top().lastchar)))
      ensures old(Top().lastchar) == EOF ==> err.None? && stack == old(stack[..|stack| - 1])
      ensures IsWhite(old(Top().lastchar)) ==>
        err.None? && stack == old(stack) && Top().Cur() == Next(Top().input, old(Top().Cur()))
      ensures old(Top().lastchar) == PERCENT ==>
        var p := ParamRef(old(Top().input), old(Top().Cur()), WhiteSpace);
        old(Top()).Cur() == p.cur &&
        err == (if p.name in pentities then None else Some(UndefinedParameterEntity(p.name))) &&
        (stack == old(stack) || (err.None? && stack == old(stack) + [pentities[p.name]]))
      ensures stack <= old(stack) || (stack == old(stack) + [Top()] && Top() in pentities.Values && EntityText(Top(), Top().input, fetch))
      ensures old(Top().lastchar) == LT ==>
        stack == old(stack) && old(Top().Cur()).pos <= |Top().input| && MarkupDone(old(Top().Cur()), old(pentities), err, ef)
      ensures ef != Unchanged ==> old(Top().lastchar) == LT
      ensures Contents() == Apply(old(Contents()), ef) && Justified(ef, contentModel)
      ensures forall e | e in stack :: e in old(stack) || e in old(pentities.Values) || fresh(e)
      ensures forall e | e in pentities.Values :: e in old(pentities.Values) || fresh(e)
      ensures Grows(old(elements), elements) && Grows(old(pentities), pentities) && Grows(old(entities), entities)
    {
      done, err, ef := false, None, Unchanged;
      TopValid();
      var ch := Top().lastchar;
      if ch == EOF {
        PopEntity();
        return stack == [], None, ef;
      } else if IsWhite(ch) {
        CurrentReadChar();
      } else if ch == LT {
        err, ef := MarkupStep();
        if err.Some? {
          return true, err, ef;
        }
      } else if ch == PERCENT {
        err := ParseReference();
        if err.Some? {
          return true, err, ef;
        }
      } else {
        return true, Some(UnexpectedChar(ch)), ef;
      }
    }

    /**
     * The '<' branch of SgmlDtd.Parse seen from the state after it, `c` being
     * the cursor on the '<' and `pe` the parameter entities before: what
     * ParseMarkup read and, when it read without error, the character after
     * it is read. A declaration read is the effect `ef`.
     */
    ghost predicate MarkupDone(c: Cursor, pe: map<Units, Entity>, err: Option<SgmlError>, ef: Effect)
      requires |stack| > 0 && c.pos <= |Top().input| && LiteralsPresent(pe)
      reads this`stack, Top()
    {
      var input := Top().input;
      var s := MarkupStart(input, c);
      && (s.result.Failure? ==> err == Some(s.result.error))
      && (s.result == Success(CommentMarkup) ==>
            var o := MarkupComment(input, s.cur); err == o.err && (err.None? ==> Top().Cur() == Next(input, o.cur)))
      && (s.result == Success(SectionMarkup) ==>
            var o := MarkedSection(input, s.cur, pe); err == o.err && (err.None? ==> Top().Cur() == Next(input, o.cur)))
      && (s.result.Success? && s.result.value.DeclMarkup? ==> DeclDone(s.result.value.kind, input, s.cur, Top().isHtml, err, ef))
      && (!(s.result.Success? && s.result.value.DeclMarkup?) ==> ef == Unchanged)
      && (ef != Unchanged && err.None? ==> Top().Cur() == Next(input, DeclEnd(ef, contentModel)))
    }

    /** The '<' branch of SgmlDtd.Parse: ParseMarkup, then the character after the markup. */
    method MarkupStep() returns (err: Option<SgmlError>, ghost ef: Effect)
      requires Valid() && |stack| > 0
      modifies this`stack, this`elements, this`pentities, this`entities
      modifies Top()`pos, Top()`line, Top()`lineStart, Top()`absolutePos, Top()`lastchar, Top()`isWhitespace
      modifies Pending()
      ensures Valid() && stack == old(stack)
      ensures old(Top().Cur()).pos <= |Top().input| && MarkupDone(old(Top().Cur()), old(pentities), err, ef)
      ensures Contents() == Apply(old(Contents()), ef) && Justified(ef, contentModel)
      ensures Grows(old(elements), elements) && Grows(old(pentities), pentities) && Grows(old(entities), entities)
      ensures forall e | e in pentities.Values :: e in old(pentities.Values) || fresh(e)
    {
      TopValid();
      err, ef := ParseMarkup();
      if err.None? {
        CurrentReadChar();
      }
    }

    /**
     * The '%' branch of SgmlDtd.Parse: the reference is read; its entity is
     * then opened and becomes current, or, when it cannot be, reading goes on
     * in the current one.
     */
    method ParseReference() returns (err: Option<SgmlError>)
      requires Valid() && |stack| > 0
      modifies this`stack, Top()`pos, Top()`line, Top()`lineStart, Top()`absolutePos, Top()`lastchar, Top()`isWhitespace
      modifies Pending()
      ensures Valid() && |stack| > 0
      ensures var p := ParamRef(old(Top().input), old(Top().Cur()), WhiteSpace);
        old(Top()).Cur() == p.cur &&
        err == (if p.name in pentities then None else Some(UndefinedParameterEntity(p.name))) &&
        (stack == old(stack) ||
         (err.None? && stack == old(stack) + [pentities[p.name]] && EntityText(Top(), Top().input, fetch)))
    {
      var e := CurrentParameterEntity();
      if e.Failure? {
        return Some(e.error);
      }
      if e.value !in stack {
        OpenReference(e.value);
      }
      // RecursiveEntity, like any entity that cannot be opened, is passed over
      return None;
    }

    /** ParseParameterEntity on the current entity, with white space ending the name. */
    method CurrentParameterEntity() returns (r: Result<Entity, SgmlError>)
      requires Valid() && |stack| > 0
      modifies Top()`pos, Top()`line, Top()`lineStart, Top()`absolutePos, Top()`lastchar, Top()`isWhitespace
      ensures Valid()
      ensures var p := ParamRef(Top().input, old(Top().Cur()), WhiteSpace);
        Top().Cur() == p.cur && r == GetParameterEntity(pentities, p.name)
    {
      TopValid();
      r := ParseParameterEntity(Top(), WhiteSpace, pentities);
    }

    /** The referenced entity is opened and becomes current; one that cannot be opened is passed over. */
    method OpenReference(e: Entity)
      requires Valid() && |stack| > 0 && e in pentities.Values && e !in stack
      modifies this`stack, e
      ensures Valid() && (stack == old(stack) || stack == old(stack) + [e])
      ensures stack != old(stack) ==> EntityText(e, e.input, fetch)
    {
      TopValid();
      var base := Top().ResolvedUri(Rev(stack));
      var err := PushEntity(base, e);
      if err.None? && !e.isInternal {
        assert fetch(base, e.uri.value) == Some(e.input);
      }
    }

    // ----------------------------------------------------------- markup

    /**
     * ParseMarkup, on the '<': a comment or a marked section is skipped and a
     * declaration read by ParseEntity, ParseElementDecl or ParseAttList. Only
     * an entity declaration changes the entity tables and only an element
     * declaration the element table, and neither replaces an entry; `ef` is
     * the change, read after the keyword.
     */
    method ParseMarkup() returns (err: Option<SgmlError>, ghost ef: Effect)
      requires Valid() && |stack| > 0
      modifies this`stack, this`elements, this`pentities, this`entities
      modifies Top()`pos, Top()`line, Top()`lineStart, Top()`absolutePos, Top()`lastchar, Top()`isWhitespace
      modifies Pending()
      ensures Valid() && stack == old(stack)
      ensures var s := MarkupStart(Top().input, old(Top().Cur()));
        (s.result.Failure? ==> err == Some(s.result.error) && Top().Cur() == s.cur) &&
        (s.result == Success(CommentMarkup) ==> Outcome(err, Top().Cur()) == MarkupComment(Top().input, s.cur)) &&
        (s.result == Success(SectionMarkup) ==> Outcome(err, Top().Cur()) == MarkedSection(Top().input, s.cur, old(pentities))) &&
        (s.result.Success? && s.result.value.DeclMarkup? ==> DeclDone(s.result.value.kind, Top().input, s.cur, Top().isHtml, err, ef)) &&
        (!(s.result.Success? && s.result.value.DeclMarkup?) ==> ef == Unchanged)
      ensures Contents() == Apply(old(Contents()), ef) && Justified(ef, contentModel)
      ensures ef != Unchanged ==> Top().Cur() == DeclEnd(ef, contentModel)
      ensures ef.EntityRead? ==> fresh(ef.e) && Declares(ef.e, ef.decl)
      ensures Grows(old(elements), elements) && Grows(old(pentities), pentities) && Grows(old(entities), entities)
      ensures forall e | e in pentities.Values :: e in old(pentities.Values) || fresh(e)
    {
      ef := Unchanged;
      var s := CurrentMarkupStart();
      if s.Failure? {
        return Some(s.error), ef;
      }
      match s.value
      case CommentMarkup =>
        err := CurrentMarkupComment();
      case SectionMarkup =>
        err := CurrentMarkedSection();
      case DeclMarkup(kind) =>
        err, ef := ParseDeclaration(kind);
    }

    /**
     * The declaration branch of ParseMarkup, after the keyword. `ef` is what
     * it does to the tables: an entity declaration read without error adds
     * its entity, an element declaration whose header is read registers its
     * names (up to a duplicate), and nothing else changes them.
     */
    method ParseDeclaration(kind: DeclKind) returns (err: Option<SgmlError>, ghost ef: Effect)
      requires Valid() && |stack| > 0
      modifies this`stack, this`elements, this`pentities, this`entities
      modifies Top()`pos, Top()`line, Top()`lineStart, Top()`absolutePos, Top()`lastchar, Top()`isWhitespace
      modifies Pending()
      ensures Valid() && stack == old(stack)
      ensures Contents() == Apply(old(Contents()), ef) && Justified(ef, contentModel)
      ensures DeclDone(kind, Top().input, old(Top().Cur()), Top().isHtml, err, ef)
      ensures ef != Unchanged ==> Top().Cur() == DeclEnd(ef, contentModel)
      ensures ef.EntityRead? ==> fresh(ef.e) && Declares(ef.e, ef.decl)
      ensures kind != ElementKw ==> elements == old(elements)
      ensures kind != EntityKw ==> pentities == old(pentities) && entities == old(entities)
      ensures Grows(old(elements), elements) && Grows(old(pentities), pentities) && Grows(old(entities), entities)
      ensures forall e | e in pentities.Values :: e in old(pentities.Values) || fresh(e)
    {
      if kind == EntityKw {
        err, ef := DeclareEntity();
      } else if kind == ElementKw {
        err, ef := DeclareElement();
      } else {
        ghost var ex: seq<Expansion>;
        err, ex := ParseAttList();
        ef := Unchanged;
      }
    }

    /** The entity branch of ParseDeclaration: ParseEntity, with what it adds as an effect. */
    method DeclareEntity() returns (err: Option<SgmlError>, ghost ef: Effect)
      requires Valid() && |stack| > 0
      modifies this`pentities, this`entities
      modifies Top()`pos, Top()`line, Top()`lineStart, Top()`absolutePos, Top()`lastchar, Top()`isWhitespace
      ensures Valid()
      ensures Contents() == Apply(old(Contents()), ef) && Justified(ef, contentModel)
      ensures DeclDone(EntityKw, Top().input, old(Top().Cur()), Top().isHtml, err, ef)
      ensures ef != Unchanged ==> Top().Cur() == DeclEnd(ef, contentModel)
      ensures ef.EntityRead? ==> fresh(ef.e) && Declares(ef.e, ef.decl)
      ensures Grows(old(pentities), pentities) && Grows(old(entities), entities)
    {
      ghost var c0 := Top().Cur();
      err := ParseEntity();
      ghost var d := EntityDeclaration(Top().input, c0, Top().isHtml);
      if err.None? {
        var decl := d.result.value;
        ef := EntityRead(Top().input, c0, Top().isHtml, decl, if decl.param then pentities[decl.name] else entities[decl.name]);
      } else {
        ef := Unchanged;
      }
    }

    /** The element branch of ParseDeclaration: ParseElementDecl, with the header it read as an effect. */
    method DeclareElement() returns (err: Option<SgmlError>, ghost ef: Effect)
      requires Valid() && |stack| > 0
      modifies this`stack, this`elements, Top()`pos, Top()`line, Top()`lineStart, Top()`absolutePos, Top()`lastchar, Top()`isWhitespace
      modifies Pending()
      ensures Valid() && stack == old(stack) && pentities == old(pentities) && entities == old(entities)
      ensures Contents() == Apply(old(Contents()), ef) && Justified(ef, contentModel)
      ensures DeclDone(ElementKw, Top().input, old(Top().Cur()), Top().isHtml, err, ef)
      ensures ef != Unchanged ==> Top().Cur() == DeclEnd(ef, contentModel)
      ensures Grows(old(elements), elements)
    {
      ghost var c0 := Top().Cur();
      ghost var exN: seq<Expansion>, exX: seq<Expansion>, exI: seq<Expansion>;
      err, exN, exX, exI := ParseElementDecl();
      ghost var h := ElementHeader(Top().input, c0, exN, exX, exI, contentModel);
      ef := if h.result.Success? then ElementRead(Top().input, c0, exN, exX, exI, h.result.value) else Unchanged;
    }

    /** The comment branch of ParseMarkup on the current entity. */
    method CurrentMarkupComment() returns (err: Option<SgmlError>)
      requires Valid() && |stack| > 0
      modifies Top()`pos, Top()`line, Top()`lineStart, Top()`absolutePos, Top()`lastchar, Top()`isWhitespace
      ensures Valid() && Outcome(err, Top().Cur()) == MarkupComment(Top().input, old(Top().Cur()))
    {
      TopValid();
      err := ParseMarkupComment(Top());
    }

    /** The marked-section branch of ParseMarkup on the current entity. */
    method CurrentMarkedSection() returns (err: Option<SgmlError>)
      requires Valid() && |stack| > 0
      modifies Top()`pos, Top()`line, Top()`lineStart, Top()`absolutePos, Top()`lastchar, Top()`isWhitespace
      ensures Valid() && Outcome(err, Top().Cur()) == MarkedSection(Top().input, old(Top().Cur()), pentities)
    {
      TopValid();
      err := ParseMarkedSection(Top(), pentities);
    }

    /** The dispatch of ParseMarkup on the current entity. */
    method CurrentMarkupStart() returns (r: Result<Markup, SgmlError>)
      requires Valid() && |stack| > 0
      modifies Top()`pos, Top()`line, Top()`lineStart, Top()`absolutePos, Top()`lastchar, Top()`isWhitespace
      ensures Valid() && Start(r, Top().Cur()) == MarkupStart(Top().input, old(Top().Cur()))
    {
      TopValid();
      r := ReadMarkupStart(Top());
    }

    /**
     * ParseAttList, after "<!ATTLIST": the name group and the attribute
     * definitions are read, and every name must have an element declaration.
     * Attaching the definitions to the declarations is not part of this model.
     */
    method ParseAttList() returns (err: Option<SgmlError>, ghost ex: seq<Expansion>)
      requires Valid() && |stack| > 0
      modifies this`stack, Top()`pos, Top()`line, Top()`lineStart, Top()`absolutePos, Top()`lastchar, Top()`isWhitespace
      modifies Pending()
      ensures Valid() && stack == old(stack)
      ensures var h := AttListHeader(Top().input, old(Top().Cur()), ex, attDefs);
        Top().Cur() == h.cur &&
        err == if h.result.Failure? then Some(h.result.error) else FirstUndeclared(elements, h.result.value)
    {
      var names: Result<seq<Units>, SgmlError>;
      names, ex := ParseAttListHeader();
      if names.Failure? {
        return Some(names.error), ex;
      }
      err := CheckDeclared(names.value);
    }

    /** ParseAttList up to the check of the names. */
    method ParseAttListHeader() returns (r: Result<seq<Units>, SgmlError>, ghost ex: seq<Expansion>)
      requires Valid() && |stack| > 0
      modifies this`stack, Top()`pos, Top()`line, Top()`lineStart, Top()`absolutePos, Top()`lastchar, Top()`isWhitespace
      modifies Pending()
      ensures Valid() && stack == old(stack)
      ensures Listed(r, Top().Cur()) == AttListHeader(Top().input, old(Top().Cur()), ex, attDefs)
    {
      CurrentSkipWhitespace();
      r, ex := ParseNameGroup();
      if r.Failure? {
        return;
      }
      var err := CurrentAttDefs();
      if err.Some? {
        return Failure(err.value), ex;
      }
    }

    /** The loop closing ParseAttList: each name is looked up in the element table. */
    method CheckDeclared(names: seq<Units>) returns (err: Option<SgmlError>)
      ensures err == FirstUndeclared(elements, names)
    {
      var i := 0;
      while i < |names|
        invariant 0 <= i <= |names|
        invariant FirstUndeclared(elements, names) == FirstUndeclared(elements, names[i..])
      {
        if names[i] !in elements {
          return Some(UndefinedElement(names[i]));
        }
        assert names[i..][1..] == names[i + 1..];
        i := i + 1;
      }
      return None;
    }

    /** ParseAttList's definitions: the reader this model leaves abstract. */
    method CurrentAttDefs() returns (err: Option<SgmlError>)
      requires Valid() && |stack| > 0
      modifies Top()`pos, Top()`line, Top()`lineStart, Top()`absolutePos, Top()`lastchar, Top()`isWhitespace
      ensures Valid()
      ensures Outcome(err, Top().Cur()) == Bounded(Top().input, old(Top().Cur()), attDefs(Top().input, old(Top().Cur())))
    {
      TopValid();
      var cur := Top();
      var o := Bounded(cur.input, cur.Cur(), attDefs(cur.input, cur.Cur()));
      cur.Seek(o.cur);
      err := o.err;
    }

    /** ParseDeclComment on the current entity. */
    method CurrentDeclComment(full: bool)
      requires Valid() && |stack| > 0
      modifies Top()`pos, Top()`line, Top()`lineStart, Top()`absolutePos, Top()`lastchar, Top()`isWhitespace
      ensures Valid() && Top().Cur() == DeclComment(Top().input, old(Top().Cur()), full).cur
    {
      TopValid();
      var _ := ParseDeclComment(Top(), full);
    }

    /** ParseDeclComments on the current entity. */
    method CurrentDeclComments() returns (err: Option<SgmlError>)
      requires Valid() && |stack| > 0
      modifies Top()`pos, Top()`line, Top()`lineStart, Top()`absolutePos, Top()`lastchar, Top()`isWhitespace
      ensures Valid() && Outcome(err, Top().Cur()) == DeclComments(Top().input, old(Top().Cur()))
    {
      TopValid();
      err := ParseDeclComments(Top());
    }

    /** The omission flags of ParseElementDecl on the current entity. */
    method CurrentOmission() returns (sto: bool, eto: bool)
      requires Valid() && |stack| > 0
      modifies Top()`pos, Top()`line, Top()`lineStart, Top()`absolutePos, Top()`lastchar, Top()`isWhitespace
      ensures Valid() && Omission(sto, eto, Top().Cur()) == OmissionFlags(Top().input, old(Top().Cur()))
    {
      TopValid();
      sto, eto := ReadOmission(Top());
    }

    /** ParseContentModel: the reader this model leaves abstract, and the reading position it leaves. */
    method CurrentContentModel() returns (err: Option<SgmlError>)
      requires Valid() && |stack| > 0
      modifies Top()`pos, Top()`line, Top()`lineStart, Top()`absolutePos, Top()`lastchar, Top()`isWhitespace
      ensures Valid()
      ensures Outcome(err, Top().Cur()) == Bounded(Top().input, old(Top().Cur()), contentModel(Top().input, old(Top().Cur())))
    {
      TopValid();
      var cur := Top();
      var o := Bounded(cur.input, cur.Cur(), contentModel(cur.input, cur.Cur()));
      cur.Seek(o.cur);
      err := o.err;
    }

    /** m_current.ReadChar. */
    method CurrentReadChar()
      requires Valid() && |stack| > 0
      modifies Top()`pos, Top()`line, Top()`lineStart, Top()`absolutePos, Top()`lastchar, Top()`isWhitespace
      ensures Valid() && Top().Cur() == Next(Top().input, old(Top().Cur()))
    {
      TopValid();
      var _ := Top().ReadChar();
    }

    /** m_current.SkipWhitespace. */
    method CurrentSkipWhitespace()
      requires Valid() && |stack| > 0
      modifies Top()`pos, Top()`line, Top()`lineStart, Top()`absolutePos, Top()`lastchar, Top()`isWhitespace
      ensures Valid() && Top().Cur() == SkipWs(Top().input, old(Top().Cur()))
    {
      TopValid();
      var _ := Top().SkipWhitespace();
    }

    /** The separator after an item of a name list, or with `group` of a name group. */
    method Separator(group: bool)
      requires Valid() && |stack| > 0
      modifies Top()`pos, Top()`line, Top()`lineStart, Top()`absolutePos, Top()`lastchar, Top()`isWhitespace
      ensures Valid()
      ensures Top().Cur() == if group then GroupNext(Top().input, old(Top().Cur())) else ListNext(Top().input, old(Top().Cur()))
    {
      TopValid();
      if group {
        GroupSeparator(Top());
      } else {
        ListSeparator(Top());
      }
    }

    /** The table update of ParseEntity: Dictionary.Add, which refuses a name already present. */
    method AddEntity(decl: Decl) returns (err: Option<SgmlError>)
      requires Valid()
      modifies this`pentities, this`entities
      ensures Valid()
      ensures var table := if decl.param then old(pentities) else old(entities);
        var now := if decl.param then pentities else entities;
        if decl.name in table then
          err == Some(DuplicateKey(decl.name)) && pentities == old(pentities) && entities == old(entities)
        else
          err.None? && decl.name in now && fresh(now[decl.name]) && Declares(now[decl.name], decl) &&
          now == table[decl.name := now[decl.name]] &&
          (if decl.param then entities == old(entities) else pentities == old(pentities))
      ensures Grows(old(pentities), pentities) && Grows(old(entities), entities)
    {
      var e := NewEntity(decl.name, decl.body);
      assert Declares(e, decl);
      if decl.param {
        if decl.name in pentities {
          return Some(DuplicateKey(decl.name));
        }
        pentities := pentities[decl.name := e];
      } else {
        if decl.name in entities {
          return Some(DuplicateKey(decl.name));
        }
        entities := entities[decl.name := e];
      }
      err := None;
    }
  }

  /** The entity `e` is what the declaration `d` declares. */
  predicate Declares(e: Entity, d: Decl)
    reads e
  {
    e.name == d.name &&
    match d.body
    case Text(literal, literalType) =>
      e.isInternal && e.literal == Some(literal) && e.literalType == literalType
    case ExternalId(publicId, systemId) =>
      !e.isInternal && e.literal.None? && e.publicId == publicId && e.uri == systemId && e.literalType.None?
  }

  /** The entity ParseEntity creates for a declaration's body. */
  method NewEntity(name: Units, body: Body) returns (e: Entity)
    ensures fresh(e) && Declares(e, Decl(false, name, body))
  {
    if body.Text? {
      e := new Entity.Internal(name, body.literal);
      if body.literalType.Some? {
        var t := body.literalType.value;
        e.SetLiteralType(if t == CDATA then KwCDATA else if t == SDATA then KwSDATA else KwPI);
      }
    } else {
      e := new Entity.External(name, body.publicId, body.systemId);
    }
  }

  // ------------------------------------------- reading the current entity

  /** ParseDeclComment. */
  method ParseDeclComment(cur: Entity, full: bool) returns (err: Option<SgmlError>)
    requires cur.Valid()
    modifies cur`pos, cur`line, cur`lineStart, cur`absolutePos, cur`lastchar, cur`isWhitespace
    ensures cur.Valid()
    ensures Outcome(err, cur.Cur()) == DeclComment(cur.input, old(cur.Cur()), full)
  {
    var ch := cur.ReadChar();
    if full && ch != HYPHEN {
      return Some(ExpectedCommentDelimiter(ch));
    }
    var _ := cur.ScanToEnd(Dashes);
    ch := cur.SkipWhitespace();
    return None;
  }

  /** ParseDeclComments. */
  method ParseDeclComments(cur: Entity) returns (err: Option<SgmlError>)
    requires cur.Valid()
    modifies cur`pos, cur`line, cur`lineStart, cur`absolutePos, cur`lastchar, cur`isWhitespace
    ensures cur.Valid()
    ensures Outcome(err, cur.Cur()) == DeclComments(cur.input, old(cur.Cur()))
  {
    ghost var c0 := cur.Cur();
    while cur.lastchar == HYPHEN
      invariant cur.Valid()
      invariant DeclComments(cur.input, cur.Cur()) == DeclComments(cur.input, c0)
      decreases Remaining(cur.input, cur.Cur())
    {
      err := ParseDeclComment(cur, true);
      if err.Some? {
        return;
      }
    }
    return None;
  }

  /** ParseIgnoreSection. */
  method ParseIgnoreSection(cur: Entity) returns (err: Option<SgmlError>)
    requires cur.Valid()
    modifies cur`pos, cur`line, cur`lineStart, cur`absolutePos, cur`lastchar, cur`isWhitespace
    ensures cur.Valid()
    ensures Outcome(err, cur.Cur()) == IgnoreSection(cur.input, old(cur.Cur()))
  {
    var ch := cur.SkipWhitespace();
    if ch != LBRACKET {
      return Some(ExpectedBracket(ch));
    }
    var _ := cur.ScanToEnd(SectionEnd);
    return None;
  }

  /** ParseParameterEntity, on the '%': the reference's name, looked up in the parameter entities. */
  method ParseParameterEntity(cur: Entity, term: Units, pe: map<Units, Entity>) returns (r: Result<Entity, SgmlError>)
    requires cur.Valid()
    modifies cur`pos, cur`line, cur`lineStart, cur`absolutePos, cur`lastchar, cur`isWhitespace
    ensures cur.Valid()
    ensures var p := ParamRef(cur.input, old(cur.Cur()), term);
      cur.Cur() == p.cur && r == GetParameterEntity(pe, p.name)
  {
    ghost var c0 := cur.Cur();
    var _ := cur.ReadChar();
    var t := cur.ScanToken([SEMI] + term, false);
    TokenRunSpells(cur.input, Next(cur.input, c0), [SEMI] + term, false);
    if cur.lastchar == SEMI {
      var _ := cur.ReadChar();
    }
    r := GetParameterEntity(pe, t.value);
  }

  /** ScanName. */
  method ScanName(cur: Entity, term: Units, pe: map<Units, Entity>) returns (r: Result<Units, SgmlError>)
    requires cur.Valid() && LiteralsPresent(pe)
    modifies cur`pos, cur`line, cur`lineStart, cur`absolutePos, cur`lastchar, cur`isWhitespace
    ensures cur.Valid()
    ensures Scanned(r, cur.Cur()) == NameOrReference(cur.input, old(cur.Cur()), term, pe)
  {
    var ch := cur.SkipWhitespace();
    if ch == PERCENT {
      var e := ParseParameterEntity(cur, term, pe);
      if e.Failure? {
        return Failure(e.error);
      }
      if !e.value.isInternal {
        return Failure(ExternalParameterEntity);
      }
      return Success(Trim(e.value.literal.value));
    }
    r := cur.ScanToken(term, true);
  }

  /** ParseMarkedSection. */
  method ParseMarkedSection(cur: Entity, pe: map<Units, Entity>) returns (err: Option<SgmlError>)
    requires cur.Valid() && LiteralsPresent(pe)
    modifies cur`pos, cur`line, cur`lineStart, cur`absolutePos, cur`lastchar, cur`isWhitespace
    ensures cur.Valid()
    ensures Outcome(err, cur.Cur()) == MarkedSection(cur.input, old(cur.Cur()), pe)
  {
    var _ := cur.ReadChar();
    var name := ScanName(cur, [LBRACKET], pe);
    if name.Failure? {
      return Some(name.error);
    }
    var kind := SectionKindOf(name.value);
    if kind == IncludeSection {
      return Some(IncludeSectionNotImplemented);
    } else if kind == IgnoreSectionKind {
      err := ParseIgnoreSection(cur);
    } else {
      return Some(UnsupportedMarkedSection(name.value));
    }
  }

  // ---------------------------------------------------------- entities

  /** The public part of an external identifier in ParseEntity. */
  method ReadPublicId(cur: Entity, keyword: Units) returns (r: Result<Option<Units>, SgmlError>)
    requires cur.Valid()
    modifies cur`pos, cur`line, cur`lineStart, cur`absolutePos, cur`lastchar, cur`isWhitespace
    ensures cur.Valid()
    ensures IdRead(r, cur.Cur()) == PublicPart(cur.input, old(cur.Cur()), keyword, cur.isHtml)
  {
    if EqualsIgnoreCase(keyword, KwPUBLIC) {
      var ch := cur.SkipWhitespace();
      if !IsQuote(ch) {
        return Failure(ExpectedPublicId(ch));
      }
      var l := cur.ScanLiteral(ch);
      if l.Failure? {
        return Failure(l.error);
      }
      return Success(Some(l.value));
    } else if !EqualsIgnoreCase(keyword, KwSYSTEM) {
      return Failure(InvalidExternalId(keyword));
    }
    return Success(None);
  }

  /** The system part of an external identifier in ParseEntity. */
  method ReadSystemId(cur: Entity, publicId: Option<Units>) returns (r: Result<Body, SgmlError>)
    requires cur.Valid()
    modifies cur`pos, cur`line, cur`lineStart, cur`absolutePos, cur`lastchar, cur`isWhitespace
    ensures cur.Valid()
    ensures BodyRead(r, cur.Cur()) == SystemPart(cur.input, old(cur.Cur()), publicId, cur.isHtml)
  {
    var ch := cur.SkipWhitespace();
    if IsQuote(ch) {
      var l := cur.ScanLiteral(ch);
      if l.Failure? {
        return Failure(l.error);
      }
      return Success(ExternalId(publicId, Some(l.value)));
    } else if ch != GT {
      return Failure(ExpectedSystemId(ch));
    }
    return Success(ExternalId(publicId, None));
  }

  /** The external identifier of ParseEntity, after PUBLIC or SYSTEM. */
  method ReadExternalBody(cur: Entity, keyword: Units) returns (r: Result<Body, SgmlError>)
    requires cur.Valid()
    modifies cur`pos, cur`line, cur`lineStart, cur`absolutePos, cur`lastchar, cur`isWhitespace
    ensures cur.Valid()
    ensures BodyRead(r, cur.Cur()) == ExternalBody(cur.input, old(cur.Cur()), keyword, cur.isHtml)
  {
    var p := ReadPublicId(cur, keyword);
    if p.Failure? {
      return Failure(p.error);
    }
    r := ReadSystemId(cur, p.value);
  }

  /** A literal after a literal type in ParseEntity. */
  method ReadTypedLiteral(cur: Entity, token: Units) returns (r: Result<Body, SgmlError>)
    requires cur.Valid()
    modifies cur`pos, cur`line, cur`lineStart, cur`absolutePos, cur`lastchar, cur`isWhitespace
    ensures cur.Valid()
    ensures BodyRead(r, cur.Cur()) == TypedLiteral(cur.input, old(cur.Cur()), token, cur.isHtml)
  {
    var ch := cur.SkipWhitespace();
    var l := cur.ScanLiteral(ch);
    if l.Failure? {
      return Failure(l.error);
    }
    return Success(Text(l.value, LiteralTypeOf(token)));
  }

  /** What ParseEntity reads after the entity's name and the white space after it. */
  method ReadEntityBody(cur: Entity) returns (r: Result<Body, SgmlError>)
    requires cur.Valid()
    modifies cur`pos, cur`line, cur`lineStart, cur`absolutePos, cur`lastchar, cur`isWhitespace
    ensures cur.Valid()
    ensures BodyRead(r, cur.Cur()) == EntityBody(cur.input, old(cur.Cur()), cur.isHtml)
  {
    var ch := cur.lastchar;
    if IsQuote(ch) {
      var l := cur.ScanLiteral(ch);
      if l.Failure? {
        return Failure(l.error);
      }
      return Success(Text(l.value, None));
    }
    var tok := cur.ScanToken(WhiteSpace, true);
    if tok.Failure? {
      return Failure(tok.error);
    }
    if IsLiteralType(tok.value) {
      r := ReadTypedLiteral(cur, tok.value);
      return;
    }
    r := ReadExternalBody(cur, tok.value);
  }

  /** The start of ParseEntity: whether the entity is a parameter entity, and its name. */
  method ReadEntityHead(cur: Entity) returns (param: bool, name: Result<Units, SgmlError>)
    requires cur.Valid()
    modifies cur`pos, cur`line, cur`lineStart, cur`absolutePos, cur`lastchar, cur`isWhitespace
    ensures cur.Valid()
    ensures Head(param, Scanned(name, cur.Cur())) == EntityHead(cur.input, old(cur.Cur()))
  {
    var ch := cur.SkipWhitespace();
    param := ch == PERCENT;
    if param {
      var _ := cur.ReadChar();
      ch := cur.SkipWhitespace();
    }
    name := cur.ScanToken(WhiteSpace, true);
  }

  /** The rest of ParseEntity, after the name. */
  method ReadEntityTail(cur: Entity) returns (r: Result<Body, SgmlError>)
    requires cur.Valid()
    modifies cur`pos, cur`line, cur`lineStart, cur`absolutePos, cur`lastchar, cur`isWhitespace
    ensures cur.Valid()
    ensures BodyRead(r, cur.Cur()) == EntityTail(cur.input, old(cur.Cur()), cur.isHtml)
  {
    var ch := cur.SkipWhitespace();
    r := ReadEntityBody(cur);
    if r.Failure? {
      return;
    }
    ch := cur.SkipWhitespace();
    var err := ParseDeclComments(cur);
    if err.Some? {
      return Failure(err.value);
    }
    if cur.lastchar != GT {
      return Failure(ExpectedEntityEnd(cur.lastchar));
    }
  }

  /** ParseEntity up to the table update. */
  method ReadEntityDeclaration(cur: Entity) returns (r: Result<Decl, SgmlError>)
    requires cur.Valid()
    modifies cur`pos, cur`line, cur`lineStart, cur`absolutePos, cur`lastchar, cur`isWhitespace
    ensures cur.Valid()
    ensures Declared(r, cur.Cur()) == EntityDeclaration(cur.input, old(cur.Cur()), cur.isHtml)
  {
    var pe, name := ReadEntityHead(cur);
    if name.Failure? {
      return Failure(name.error);
    }
    var body := ReadEntityTail(cur);
    if body.Failure? {
      return Failure(body.error);
    }
    return Success(Decl(pe, name.value, body.value));
  }

  /** The name-token branch of an item: the token, upper-cased. */
  method ParseTokenItem(cur: Entity) returns (r: Result<seq<Units>, SgmlError>)
    requires cur.Valid() && cur.lastchar != PERCENT
    modifies cur`pos, cur`line, cur`lineStart, cur`absolutePos, cur`lastchar, cur`isWhitespace
    ensures cur.Valid()
    ensures Names(r, cur.Cur(), 0) == Item(cur.input, old(cur.Cur()), [])
  {
    var t := cur.ScanToken(NameGroupTerm, true);
    if t.Failure? {
      return Failure(t.error);
    }
    UpperAllIdempotent(t.value);
    r := Success([UpperAll(t.value)]);
  }

  /** After an item of ParseNameList: white space, and a '|' with the white space after it. */
  method ListSeparator(cur: Entity)
    requires cur.Valid()
    modifies cur`pos, cur`line, cur`lineStart, cur`absolutePos, cur`lastchar, cur`isWhitespace
    ensures cur.Valid() && cur.Cur() == ListNext(cur.input, old(cur.Cur()))
  {
    var ch := cur.SkipWhitespace();
    if ch == BAR {
      ch := cur.ReadChar();
      ch := cur.SkipWhitespace();
    }
  }

  /** After an item of ParseNameGroup: white space, and a '|' or ',' read past. */
  method GroupSeparator(cur: Entity)
    requires cur.Valid()
    modifies cur`pos, cur`line, cur`lineStart, cur`absolutePos, cur`lastchar, cur`isWhitespace
    ensures cur.Valid() && cur.Cur() == GroupNext(cur.input, old(cur.Cur()))
  {
    var ch := cur.SkipWhitespace();
    if ch == BAR || ch == COMMA {
      ch := cur.ReadChar();
    }
  }

  /** ParseNameGroup without a '(': one name token ended by white space, upper-cased. */
  method ParseSingleName(cur: Entity) returns (r: Result<seq<Units>, SgmlError>)
    requires cur.Valid() && cur.lastchar != LPAREN
    modifies cur`pos, cur`line, cur`lineStart, cur`absolutePos, cur`lastchar, cur`isWhitespace
    ensures cur.Valid()
    ensures Names(r, cur.Cur(), 0) == Group(cur.input, old(cur.Cur()), [])
  {
    var t := cur.ScanToken(WhiteSpace, true);
    if t.Failure? {
      return Failure(t.error);
    }
    UpperAllIdempotent(t.value);
    r := Success([UpperAll(t.value)]);
  }

  /** The omission flags of ParseElementDecl, after the name group. */
  method ReadOmission(cur: Entity) returns (sto: bool, eto: bool)
    requires cur.Valid()
    modifies cur`pos, cur`line, cur`lineStart, cur`absolutePos, cur`lastchar, cur`isWhitespace
    ensures cur.Valid() && Omission(sto, eto, cur.Cur()) == OmissionFlags(cur.input, old(cur.Cur()))
  {
    sto, eto := false, false;
    var ch := cur.SkipWhitespace();
    if IsOmissionFlag(ch) {
      sto := Upper(ch) == 79;
      ch := cur.ReadChar();
      ch := cur.SkipWhitespace();
      if IsOmissionFlag(ch) {
        eto := Upper(ch) == 79;
        ch := cur.ReadChar();
      }
    }
    ch := cur.SkipWhitespace();
  }

  /** No entry of `before` is removed or replaced in `after`. */
  predicate Grows<K, V(==)>(before: map<K, V>, after: map<K, V>) {
    forall k | k in before :: k in after && after[k] == before[k]
  }

  /** The dispatch of ParseMarkup. */
  method ReadMarkupStart(cur: Entity) returns (r: Result<Markup, SgmlError>)
    requires cur.Valid()
    modifies cur`pos, cur`line, cur`lineStart, cur`absolutePos, cur`lastchar, cur`isWhitespace
    ensures cur.Valid() && Start(r, cur.Cur()) == MarkupStart(cur.input, old(cur.Cur()))
  {
    var ch := cur.ReadChar();
    if ch != BANG {
      return Failure(ExpectedDeclaration);
    }
    ch := cur.ReadChar();
    if ch == HYPHEN {
      return Success(CommentMarkup);
    } else if ch == LBRACKET {
      return Success(SectionMarkup);
    }
    var token := cur.ScanToken(WhiteSpace, true);
    if token.Failure? {
      return Failure(token.error);
    }
    var kind := DeclKindOf(token.value);
    if kind.None? {
      return Failure(InvalidDeclaration(token.value));
    }
    return Success(DeclMarkup(kind.value));
  }

  /** The comment branch of ParseMarkup. */
  method ParseMarkupComment(cur: Entity) returns (err: Option<SgmlError>)
    requires cur.Valid()
    modifies cur`pos, cur`line, cur`lineStart, cur`absolutePos, cur`lastchar, cur`isWhitespace
    ensures cur.Valid() && Outcome(err, cur.Cur()) == MarkupComment(cur.input, old(cur.Cur()))
  {
    var ch := cur.ReadChar();
    if ch != HYPHEN {
      return Some(ExpectedComment(ch));
    }
    var _ := cur.ScanToEnd(CommentEnd);
    return None;
  }

  // ---------------------------------------------------------- entry points

  /**
   * The static SgmlDtd.Parse over a system identifier and an internal
   * subset: a new DTD reads the entity `url` names (when it is not empty)
   * and, above it so that it is read first, the subset (when it is not
   * empty). With neither, there is nothing to read.
   */
  method ParseDtd(name: Units, fetch: (Option<Units>, Units) -> Option<Units>, contentModel: Reader, attDefs: Reader,
                  baseUri: Option<Units>, publicId: Option<Units>, url: Units, subset: Units, fuel: nat)
    returns (dtd: Dtd, err: Option<SgmlError>, ghost log: seq<Effect>)
    ensures fresh(dtd) && dtd.Valid() && dtd.name == name
    ensures err.None? ==> dtd.stack == []
    ensures url == [] && subset == [] ==> err == Some(NoDtdInput)
    ensures url != [] && fetch(baseUri, url).None? ==> err == Some(FetchFailed(url)) && dtd.elements == map[]
    ensures dtd.Contents() == ApplyAll(Tables(map[], map[], map[]), log)
    ensures forall i | 0 <= i < |log| :: Justified(log[i], contentModel)
    ensures forall n :: n in dtd.entities <==>
      exists i | 0 <= i < |log| :: log[i].EntityRead? && !log[i].decl.param && log[i].decl.name == n
    ensures forall n :: n in dtd.pentities <==>
      exists i | 0 <= i < |log| :: log[i].EntityRead? && log[i].decl.param && log[i].decl.name == n
    ensures forall n :: n in dtd.elements ==>
      exists i | 0 <= i < |log| :: log[i].ElementRead? && n in Atoms(log[i].head.names)
    ensures forall i | 0 <= i < |log| :: !log[i].Unchanged? ==>
      (url != [] && fetch(baseUri, url) == Some(log[i].input)) || OpenedText(log[i].input, {subset}, dtd.pentities, fetch)
  {
    dtd := new Dtd(name, fetch, contentModel, attDefs);
    log := [];
    err := OpenSources(dtd, baseUri, publicId, url, subset);
    if err.None? && dtd.stack == [] {
      err := Some(NoDtdInput);
    } else if err.None? {
      err, log := dtd.ParseDeclarations(fuel);
    }
    DeclaredByLog(log);
  }

  /** The entities the static SgmlDtd.Parse opens: the one `url` names, then the subset. */
  method OpenSources(dtd: Dtd, baseUri: Option<Units>, publicId: Option<Units>, url: Units, subset: Units)
    returns (err: Option<SgmlError>)
    requires dtd.Valid() && dtd.stack == []
    modifies dtd`stack
    ensures dtd.Valid() && forall e | e in dtd.stack :: fresh(e)
    ensures url == [] && subset == [] ==> err.None?
    ensures err.None? ==> (dtd.stack == [] <==> url == [] && subset == [])
    ensures url != [] && dtd.fetch(baseUri, url).None? ==> err == Some(FetchFailed(url))
    ensures forall u | u in dtd.Inputs() :: u == subset || (url != [] && dtd.fetch(baseUri, url) == Some(u))
  {
    err := None;
    if url != [] {
      var e := new Entity.External(dtd.name, publicId, Some(url));
      err := dtd.Open(baseUri, e);
      if err.Some? {
        return;
      }
    }
    if subset != [] {
      var e := new Entity.Internal(dtd.name, subset);
      err := dtd.Open(baseUri, e);
    }
  }

  /**
   * The static SgmlDtd.Parse over a text reader: the text, then the
   * internal subset above it when it is not empty.
   */
  method ParseDtdText(name: Units, fetch: (Option<Units>, Units) -> Option<Units>, contentModel: Reader, attDefs: Reader,
                      baseUri: Option<Units>, text: Units, subset: Units, fuel: nat)
    returns (dtd: Dtd, err: Option<SgmlError>, ghost log: seq<Effect>)
    ensures fresh(dtd) && dtd.Valid() && dtd.name == name
    ensures err.None? ==> dtd.stack == []
    ensures dtd.Contents() == ApplyAll(Tables(map[], map[], map[]), log)
    ensures forall i | 0 <= i < |log| :: Justified(log[i], contentModel)
    ensures forall n :: n in dtd.entities <==>
      exists i | 0 <= i < |log| :: log[i].EntityRead? && !log[i].decl.param && log[i].decl.name == n
    ensures forall n :: n in dtd.pentities <==>
      exists i | 0 <= i < |log| :: log[i].EntityRead? && log[i].decl.param && log[i].decl.name == n
    ensures forall n :: n in dtd.elements ==>
      exists i | 0 <= i < |log| :: log[i].ElementRead? && n in Atoms(log[i].head.names)
    ensures forall i | 0 <= i < |log| :: !log[i].Unchanged? ==> OpenedText(log[i].input, {text, subset}, dtd.pentities, fetch)
  {
    dtd := new Dtd(name, fetch, contentModel, attDefs);
    err := OpenText(dtd, baseUri, text, subset);
    err, log := dtd.ParseDeclarations(fuel);
    DeclaredByLog(log);
  }

  /** The entities the static SgmlDtd.Parse over a text reader opens: the text, then the subset. */
  method OpenText(dtd: Dtd, baseUri: Option<Units>, text: Units, subset: Units) returns (err: Option<SgmlError>)
    requires dtd.Valid() && dtd.stack == []
    modifies dtd`stack
    ensures dtd.Valid() && forall e | e in dtd.stack :: fresh(e)
    ensures err.None? && |dtd.stack| == if subset == [] then 1 else 2
    ensures dtd.Inputs() <= {text, subset}
  {
    var e := new Entity.Reader(dtd.name, baseUri, text);
    err := dtd.Open(baseUri, e);
    if subset != [] {
      var s := new Entity.Internal(dtd.name, subset);
      err := dtd.Open(baseUri, s);
    }
  }
}
