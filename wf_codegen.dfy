/**
 * The page generator of the WebForms rewriting tool: it walks the parsed
 * entries, writes markup verbatim and a `<% name; %>` call each time the
 * render function changes, and flushes the accumulated block into output
 * lines. It retags the entries it visits in place.
 */
module AspCodeGen {
  import opened Wrappers
  import opened Strings
  import opened AspEntry
  import opened AspLines
  import opened AspNodes

  /** The output lines run together. */
  function Flatten(lines: seq<string>): string
    decreases |lines|
  {
    if lines == [] then "" else Flatten(lines[..|lines| - 1]) + lines[|lines| - 1]
  }

  lemma FlattenSnoc(lines: seq<string>, s: string)
    ensures Flatten(lines + [s]) == Flatten(lines) + s
  {
    assert (lines + [s])[..|lines|] == lines;
  }

  /** `CodeGen.RenderBlock`: a non-empty block becomes the next output line, and the block is cleared. */
  function RenderBlock(ret: seq<string>, block: string): (seq<string>, string) {
    if block == "" then (ret, block) else (ret + [block], "")
  }

  /**
   * Flushing empties the block, adds at most one line, never an empty one,
   * keeps the earlier lines, and loses no text.
   */
  lemma RenderBlockFacts(ret: seq<string>, block: string)
    ensures var r := RenderBlock(ret, block);
      && r.1 == ""
      && |ret| <= |r.0| <= |ret| + 1 && r.0[..|ret|] == ret
      && (|r.0| == |ret| + 1 <==> block != "")
      && (|r.0| == |ret| + 1 ==> r.0[|ret|] == block)
      && Flatten(r.0) + r.1 == Flatten(ret) + block
  {
    if block != "" {
      FlattenSnoc(ret, block);
      assert (ret + [block])[..|ret|] == ret;
    }
  }

  /** `CodeGen.HandleCodeBlock`: the render function to call for a code entry, and the new current function. */
  function HandleCodeBlock(codeFunction: Option<string>, codeFunc: string): (string, string) {
    if codeFunction.None? || codeFunction.value == "" then ("", codeFunc)
    else if codeFunc == "" then (codeFunction.value, codeFunction.value)
    else if codeFunc == codeFunction.value then ("", codeFunc)
    else (codeFunction.value, codeFunction.value)
  }

  /**
   * A call is written exactly when the entry names a function other than the
   * current one; it then becomes current, otherwise the current function
   * stays; so handing the same entry over again writes nothing.
   */
  lemma HandleCodeBlockFacts(codeFunction: Option<string>, codeFunc: string)
    ensures var r := HandleCodeBlock(codeFunction, codeFunc);
      && (r.0 != "" <==> codeFunction.Some? && codeFunction.value != "" && codeFunction.value != codeFunc)
      && (r.0 != "" ==> r.0 == codeFunction.value && r.1 == codeFunction.value)
      && (r.0 == "" ==> r.1 == codeFunc)
      && HandleCodeBlock(codeFunction, r.1).0 == ""
  {
  }

  /** An Html opening or closing tag whose left-trimmed text is longer than two characters flushes the block first. */
  predicate FlushesFirst(d: Fields) {
    d.fileType == Html && (d.tagType == Close || d.tagType == Open) && |TrimStart(d.value)| > 2
  }

  /** What an entry writes into the block: markup verbatim, or a call when the render function changes. */
  function Body(d: Fields, codeFunc: string): (string, string) {
    if d.fileType == Html then (d.value, codeFunc)
    else
      var h := HandleCodeBlock(d.codeFunction, codeFunc);
      (if h.0 == "" then "" else "<% " + h.0 + "; %>", h.1)
  }

  /** The fields of an entry after the generator has visited it: "value=" is retagged Value, and content is marked open. */
  function Touched(d: Fields): Fields {
    var tag := if d.value == "value=" then Value else d.tagType;
    d.(tagType := tag, isOpen := d.isOpen || tag == Content || tag == CodeContent)
  }

  /**
   * Visiting changes only the tag type and the open flag, in the way stated,
   * and a second visit of the same entry changes nothing more.
   */
  lemma TouchedFacts(d: Fields)
    ensures var t := Touched(d);
      && t == d.(tagType := t.tagType, isOpen := t.isOpen)
      && (d.value == "value=" ==> t.tagType == Value)
      && (d.value != "value=" ==> t.tagType == d.tagType)
      && (t.isOpen <==> d.isOpen || t.tagType == Content || t.tagType == CodeContent)
      && Touched(t) == t
  {
  }

  /** The generator's state: the output lines, the open block, the current render function, whether the previous entry was a Value, and the entries' fields. */
  datatype Gen = Gen(ret: seq<string>, block: string, codeFunc: string, afterValue: bool, st: Store)

  function Quote(afterValue: bool): string {
    if afterValue then "\"" else ""
  }

  /** The space added after an entry's text: none when the block is empty, already ends in a space, or the entry is a Value. */
  function Gap(block: string, t: Fields): string {
    if |block| > 0 && t.tagType != Value && block[|block| - 1] != ' ' then " " else ""
  }

  function Spaced(block: string, t: Fields): string {
    block + Gap(block, t)
  }

  lemma TextGrowth(x0: string, blk: string, q: string, body: string, x1: string, f1: string, gap: string)
    requires x1 + f1 == x0 + blk + q
    ensures x1 + (f1 + body + q + gap) == x0 + blk + q + body + q + gap
  {
    calc {
      x1 + (f1 + body + q + gap);
      (x1 + f1) + body + q + gap;
      x0 + blk + q + body + q + gap;
    }
  }

  /** The output and block after the opening quote and the flush an Html tag asks for. */
  function Lead(g: Gen, d: Fields): (seq<string>, string) {
    var b := g.block + Quote(g.afterValue);
    if FlushesFirst(d) then RenderBlock(g.ret, b) else (g.ret, b)
  }

  /** The output and block at the end of an iteration: only an entry that is not open flushes. */
  function Settle(ret: seq<string>, block: string, t: Fields): (seq<string>, string) {
    if t.isOpen then (ret, block) else RenderBlock(ret, block)
  }

  /** One iteration of the generator loop on entry `e`. */
  function GenStep(g: Gen, e: Entry): Gen
    requires e in g.st
  {
    var d := g.st[e];
    var f := Lead(g, d);
    var body := Body(d, g.codeFunc);
    var t := Touched(d);
    var out := Settle(f.0, Spaced(f.1 + body.0 + Quote(g.afterValue), t), t);
    Gen(out.0, out.1, body.1, t.tagType == Value, g.st[e := t])
  }

  /** The generator over a list of entries, from an empty output. */
  function GenAll(refs: seq<Entry>, st: Store): (r: Gen)
    requires Covers(refs, st)
    ensures r.st.Keys == st.Keys
    decreases |refs|
  {
    if refs == [] then Gen([], "", "", false, st)
    else GenStep(GenAll(refs[..|refs| - 1], st), refs[|refs| - 1])
  }

  /** No output line is empty. */
  predicate NonEmptyLines(ret: seq<string>) {
    forall i :: 0 <= i < |ret| ==> ret[i] != ""
  }

  /** `b` is `a` followed by more lines. */
  predicate Extends(a: seq<string>, b: seq<string>) {
    |a| <= |b| && b[..|a|] == a
  }

  lemma ExtendsTrans(a: seq<string>, b: seq<string>, c: seq<string>)
    requires Extends(a, b) && Extends(b, c)
    ensures Extends(a, c)
  {
    assert c[..|a|] == c[..|b|][..|a|];
  }

  /** Flushing keeps the earlier lines, adds no empty one and loses no text. */
  lemma FlushFacts(ret: seq<string>, block: string, r: (seq<string>, string))
    requires NonEmptyLines(ret)
    requires r == RenderBlock(ret, block) || r == (ret, block)
    ensures Extends(ret, r.0) && NonEmptyLines(r.0) && Flatten(r.0) + r.1 == Flatten(ret) + block
  {
    RenderBlockFacts(ret, block);
  }

  /**
   * One entry appends output lines and never rewrites earlier ones, adds no
   * empty line, and leaves the block empty unless the entry is open.
   */
  lemma GenStepLines(g: Gen, e: Entry)
    requires e in g.st && NonEmptyLines(g.ret)
    ensures var r := GenStep(g, e);
      && Extends(g.ret, r.ret) && NonEmptyLines(r.ret)
      && (!Touched(g.st[e]).isOpen ==> r.block == "")
  {
    var d := g.st[e];
    var f := Lead(g, d);
    FlushFacts(g.ret, g.block + Quote(g.afterValue), f);
    var t := Touched(d);
    var b := Spaced(f.1 + Body(d, g.codeFunc).0 + Quote(g.afterValue), t);
    var out := Settle(f.0, b, t);
    FlushFacts(f.0, b, out);
    ExtendsTrans(g.ret, f.0, out.0);
    RenderBlockFacts(f.0, b);
  }

  /**
   * The output and the block together grow by exactly the entry's text: its
   * markup or call, between the quotes a preceding Value asks for, and at
   * most one space; so flushing loses nothing.
   */
  lemma GenStepText(g: Gen, e: Entry)
    requires e in g.st
    ensures var r := GenStep(g, e);
      var d := g.st[e];
      var q := Quote(g.afterValue);
      var gap := Gap(Lead(g, d).1 + Body(d, g.codeFunc).0 + q, Touched(d));
      && (gap == "" || gap == " ")
      && Flatten(r.ret) + r.block == Flatten(g.ret) + g.block + q + Body(d, g.codeFunc).0 + q + gap
  {
    var d := g.st[e];
    var q := Quote(g.afterValue);
    var f := Lead(g, d);
    RenderBlockFacts(g.ret, g.block + q);
    assert Flatten(f.0) + f.1 == Flatten(g.ret) + g.block + q;
    var body := Body(d, g.codeFunc).0;
    var t := Touched(d);
    var b := Spaced(f.1 + body + q, t);
    RenderBlockFacts(f.0, b);
    assert Flatten(GenStep(g, e).ret) + GenStep(g, e).block == Flatten(f.0) + b;
    TextGrowth(Flatten(g.ret), g.block, q, body, Flatten(f.0), f.1, Gap(f.1 + body + q, t));
  }

  /** Over a whole list no output line is empty. */
  lemma {:induction false} GenAllLines(refs: seq<Entry>, st: Store)
    requires Covers(refs, st)
    ensures NonEmptyLines(GenAll(refs, st).ret)
    decreases |refs|
  {
    if refs != [] {
      var init := refs[..|refs| - 1];
      GenAllLines(init, st);
      GenStepLines(GenAll(init, st), refs[|refs| - 1]);
    }
  }

  /** Touching one more entry keeps every listed entry touched once and every other entry as it was. */
  lemma TouchOneMore(init: seq<Entry>, e: Entry, st: Store, g: Store)
    requires Covers(init + [e], st) && g.Keys == st.Keys
    requires forall x :: x in st && x !in init ==> g[x] == st[x]
    requires forall x :: x in init ==> g[x] == Touched(st[x])
    ensures var r := g[e := Touched(g[e])];
      && (forall x :: x in st && x !in init + [e] ==> r[x] == st[x])
      && (forall x :: x in init + [e] ==> r[x] == Touched(st[x]))
  {
    TouchedFacts(st[e]);
  }

  /** Over a whole list every listed entry ends up `Touched` once, however often it is listed, and no other entry changes. */
  lemma {:induction false} GenAllStore(refs: seq<Entry>, st: Store)
    requires Covers(refs, st)
    ensures var r := GenAll(refs, st);
      && (forall e :: e in st && e !in refs ==> r.st[e] == st[e])
      && (forall e :: e in refs ==> r.st[e] == Touched(st[e]))
    decreases |refs|
  {
    if refs != [] {
      var init := refs[..|refs| - 1];
      var e := refs[|refs| - 1];
      assert refs == init + [e];
      GenAllStore(init, st);
      var g := GenAll(init, st);
      assert GenAll(refs, st).st == g.st[e := Touched(g.st[e])];
      TouchOneMore(init, e, st, g.st);
    }
  }

  /** Visiting keeps every field but the tag type and the open flag. */
  lemma GenAllKeeps(refs: seq<Entry>, st: Store)
    requires Covers(refs, st)
    ensures var r := GenAll(refs, st);
      forall e :: e in st ==> r.st[e] == st[e].(tagType := r.st[e].tagType, isOpen := r.st[e].isOpen)
  {
    GenAllStore(refs, st);
    var r := GenAll(refs, st);
    forall e | e in st
      ensures r.st[e] == st[e].(tagType := r.st[e].tagType, isOpen := r.st[e].isOpen)
    {
      TouchedFacts(st[e]);
      if e in refs {
        assert r.st[e] == Touched(st[e]);
      }
    }
  }

  lemma GenNext(refs: seq<Entry>, k: nat, st: Store)
    requires k < |refs| && Covers(refs, st)
    ensures Covers(refs[..k], st) && Covers(refs[..k + 1], st)
    ensures GenAll(refs[..k + 1], st) == GenStep(GenAll(refs[..k], st), refs[k])
  {
    assert refs[..k + 1][..k] == refs[..k];
  }

  /** The in-place part of an iteration: "value=" is retagged Value, and content is marked open. */
  method Retag(htmlDom: seq<Entry>, entry: Entry, ghost st: Store)
    requires entry in htmlDom && Holds(htmlDom, st)
    modifies entry`tagType, entry`isOpen
    ensures entry.Get() == Touched(old(entry.Get()))
    ensures Holds(htmlDom, st[entry := Touched(st[entry])])
  {
    if entry.value == "value=" {
      entry.tagType := Value;
    }
    if entry.tagType == Content || entry.tagType == CodeContent {
      entry.isOpen := true;
    }
    HoldsUpdate(htmlDom, st, entry);
  }

  /**
   * The first half of an iteration, which reads the entry but changes
   * nothing: the opening quote, the flush an Html tag asks for, the entry's
   * markup or call, and the closing quote.
   */
  method WriteEntry(entry: Entry, ret: seq<string>, block: string, codeFunc: string, isValue: bool)
    returns (ret': seq<string>, block': string, codeFunc': string)
    ensures var g := Gen(ret, block, codeFunc, isValue, map[]);
      && ret' == Lead(g, entry.Get()).0
      && block' == Lead(g, entry.Get()).1 + Body(entry.Get(), codeFunc).0 + Quote(isValue)
      && codeFunc' == Body(entry.Get(), codeFunc).1
  {
    ghost var g := Gen(ret, block, codeFunc, isValue, map[]);
    ghost var d := entry.Get();
    ret', block', codeFunc' := ret, block, codeFunc;
    if isValue {
      block' := block' + "\"";
    }
    assert block' == block + Quote(isValue);
    if entry.fileType == Html {
      if entry.tagType == Close || entry.tagType == Open {
        if |TrimStart(entry.value)| > 2 {
          ret', block' := RenderBlock(ret', block').0, RenderBlock(ret', block').1;
        }
      }
      assert (ret', block') == Lead(g, d);
      block' := block' + entry.value;
    } else {
      var h := HandleCodeBlock(entry.codeFunction, codeFunc');
      codeFunc' := h.1;
      if h.0 != "" {
        block' := block' + ("<% " + h.0 + "; %>");
      }
    }
    assert block' == Lead(g, d).1 + Body(d, codeFunc).0 && codeFunc' == Body(d, codeFunc).1;
    if isValue {
      block' := block' + "\"";
    }
  }

  /** The body of the generator loop on one entry. */
  method GenEntry(htmlDom: seq<Entry>, entry: Entry, ret: seq<string>, block: string, codeFunc: string,
                  isValue: bool, ghost g: Gen)
    returns (ret': seq<string>, block': string, codeFunc': string, prevValue: bool)
    requires entry in htmlDom && Holds(htmlDom, g.st)
    requires g == Gen(ret, block, codeFunc, isValue, g.st)
    modifies entry`tagType, entry`isOpen
    ensures var r := GenStep(g, entry);
      ret' == r.ret && block' == r.block && codeFunc' == r.codeFunc && prevValue == r.afterValue
    ensures Holds(htmlDom, GenStep(g, entry).st)
  {
    ghost var d := entry.Get();
    assert d == g.st[entry];
    ret', block', codeFunc' := WriteEntry(entry, ret, block, codeFunc, isValue);
    assert Lead(g, d) == Lead(Gen(ret, block, codeFunc, isValue, map[]), d);
    ghost var text := block';
    Retag(htmlDom, entry, g.st);
    ghost var t := Touched(d);
    assert entry.tagType == t.tagType && entry.isOpen == t.isOpen;
    if |block'| > 0 && entry.tagType != Value {
      if block'[|block'| - 1] != ' ' {
        block' := block' + " ";
      }
    }
    assert block' == text + Gap(text, t);
    prevValue := entry.tagType == Value;
    if !entry.isOpen {
      ret', block' := RenderBlock(ret', block').0, RenderBlock(ret', block').1;
    }
    assert (ret', block') == Settle(Lead(g, d).0, Spaced(text, t), t);
  }

  /** `CodeGen.GenHtmlFile`: the page's output lines; visited entries are retagged in place. */
  method GenHtmlFile(htmlDom: seq<Entry>) returns (ret: seq<string>)
    modifies htmlDom
    ensures ret == GenAll(htmlDom, old(Snapshot(htmlDom))).ret
    ensures Holds(htmlDom, GenAll(htmlDom, old(Snapshot(htmlDom))).st)
  {
    ghost var st0 := Snapshot(htmlDom);
    ret := [];
    var codeFunc := "";
    var block := "";
    var isValue := false;
    var idx := 0;
    while idx < |htmlDom|
      invariant 0 <= idx <= |htmlDom|
      invariant var g := GenAll(htmlDom[..idx], st0);
        Holds(htmlDom, g.st) && g == Gen(ret, block, codeFunc, isValue, g.st)
    {
      ghost var g := GenAll(htmlDom[..idx], st0);
      GenNext(htmlDom, idx, st0);
      ret, block, codeFunc, isValue := GenEntry(htmlDom, htmlDom[idx], ret, block, codeFunc, isValue, g);
      idx := idx + 1;
    }
    assert htmlDom[..idx] == htmlDom;
  }

  /** `CodeGen.Generate`: code-behind generation yields no lines; markup generation runs the page generator. */
  method Generate(codeDom: seq<Entry>, mode: AspFile := CodeBehind) returns (ret: seq<string>)
    modifies codeDom
    ensures mode == CodeBehind ==> ret == [] && forall i :: 0 <= i < |codeDom| ==> codeDom[i].Get() == old(codeDom[i].Get())
    ensures mode == Html ==> ret == GenAll(codeDom, old(Snapshot(codeDom))).ret
    ensures mode == Html ==> Holds(codeDom, GenAll(codeDom, old(Snapshot(codeDom))).st)
  {
    if mode == CodeBehind {
      ret := [];
    } else {
      ret := GenHtmlFile(codeDom);
    }
  }
}
