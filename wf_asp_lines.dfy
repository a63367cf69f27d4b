/**
 * The line passes of the WebForms page parser: a page is split into lines,
 * each kept line becomes an `Entry`, and successive passes classify the
 * entries in place as comment, code or script, split code lines on ';',
 * merge children into their parents, name the render functions and
 * consolidate the list.
 *
 * Every pass is specified against a function over a `Store`, the fields of
 * the entries it touches keyed by object, so that an entry reached twice
 * through the list (as the ';' split produces) is one entry, as it is in the
 * program.
 */
module AspLines {
  import opened Wrappers
  import opened Strings
  import opened AspEntry
  import opened AspState

  /** `Environment.NewLine` on the Windows hosts the tool targets. */
  const NewLine: string := "\r\n"

  /** The fields of some entries, by object. */
  type Store = map<Entry, Fields>

  predicate Covers(refs: seq<Entry>, st: Store) {
    forall e :: e in refs ==> e in st
  }

  /** Every entry of `refs` holds the fields `st` records for it. */
  predicate Holds(refs: seq<Entry>, st: Store)
    reads refs
  {
    forall e :: e in refs ==> e in st && e.Get() == st[e]
  }

  function Snapshot(refs: seq<Entry>): (st: Store)
    reads refs
    ensures st.Keys == set e | e in refs
    ensures Holds(refs, st)
  {
    map e | e in refs :: e.Get()
  }

  /** A store that the entries hold and that records nothing else is their snapshot. */
  lemma HoldsSnapshot(refs: seq<Entry>, st: Store)
    requires Holds(refs, st) && st.Keys == set e | e in refs
    ensures Snapshot(refs) == st
  {
  }

  /** `b` differs from `a` at most in its file type and tag type. */
  predicate Retyped(a: Fields, b: Fields) {
    b == a.(fileType := b.fileType, tagType := b.tagType)
  }

  predicate Distinct(refs: seq<Entry>) {
    forall i, j :: 0 <= i < j < |refs| ==> refs[i] != refs[j]
  }

  // ---------------------------------------------------------------------
  // Phase I: one entry per non-blank line, comment or content

  /** A line kept by the first pass: its value and its tag type. */
  datatype Line = Line(value: string, tagType: TagType)

  /** The raw line opens a comment (the test ignores leading white space and tabs). */
  predicate OpensComment(stmt: string) {
    StartsWith(stmt, "<%--") || StartsWith(stmt, "<!--")
  }

  /** The stripped line ends a comment. */
  predicate ClosesComment(line: string) {
    EndsWith(line, "-->") || EndsWith(line, "--%>")
  }

  /** A raw line without its tabs and leading white space. */
  function Stripped(stmt: string): string {
    TrimStart(Remove(stmt, '\t'))
  }

  /**
   * The first pass on one raw line: the entry it adds, none for a blank line,
   * and the comment flag after it. The value is the stripped line, unless the
   * raw line holds "-->" followed by text up to the next "-->" or the end.
   */
  function ClassifyLine(stmt: string, inComment: bool): (Option<Line>, bool) {
    var line := Stripped(stmt);
    if line == "" then (None, inComment)
    else
      var c := OpensComment(stmt) || inComment;
      var temp := Split(stmt, "-->");
      var v := if |temp| > 1 && |temp[1]| > 0 then temp[1] else line;
      (Some(Line(v, if c then Comment else Content)), c && !ClosesComment(line))
  }

  /**
   * Blank lines add nothing and keep the comment flag; a kept line has a
   * non-empty value and is a comment exactly when the flag was set or the raw
   * line opens one; the flag stays set until a line that ends a comment.
   */
  lemma ClassifyLineFacts(stmt: string, inComment: bool)
    ensures var r := ClassifyLine(stmt, inComment);
      && (r.0.None? <==> Stripped(stmt) == "")
      && (r.0.None? ==> r.1 == inComment)
      && (r.0.Some? ==> r.0.value.value != "")
      && (r.0.Some? ==> (r.0.value.tagType == Comment <==> inComment || OpensComment(stmt)))
      && (r.0.Some? ==> r.0.value.tagType == Comment || r.0.value.tagType == Content)
      && (r.0.Some? ==> (r.1 <==> (inComment || OpensComment(stmt)) && !ClosesComment(Stripped(stmt))))
  {
  }

  /** A line of no-break, tab and ideographic spaces is blank: it adds no entry and leaves the comment flag alone. */
  lemma NonAsciiBlankLine(inComment: bool)
    ensures ClassifyLine("\U{A0}\t\U{3000}", inComment) == (None, inComment)
  {
  }

  /** The first pass over all lines: the kept lines in order and the final comment flag. */
  function ClassifyLines(lines: seq<string>, inComment: bool): (seq<Line>, bool)
    decreases |lines|
  {
    if lines == [] then ([], inComment)
    else
      var p := ClassifyLines(lines[..|lines| - 1], inComment);
      var q := ClassifyLine(lines[|lines| - 1], p.1);
      (if q.0.Some? then p.0 + [q.0.value] else p.0, q.1)
  }

  /** At most one entry per line, and none exactly when every line is blank. */
  lemma {:induction false} ClassifyLinesCount(lines: seq<string>, inComment: bool)
    ensures |ClassifyLines(lines, inComment).0| <= |lines|
    ensures ClassifyLines(lines, inComment).0 == [] <==> forall i :: 0 <= i < |lines| ==> Stripped(lines[i]) == ""
    decreases |lines|
  {
    if lines != [] {
      var init := lines[..|lines| - 1];
      ClassifyLinesCount(init, inComment);
      ClassifyLineFacts(lines[|lines| - 1], ClassifyLines(init, inComment).1);
      assert forall i :: 0 <= i < |lines| - 1 ==> init[i] == lines[i];
    }
  }

  /** The fields of the entry the first pass makes for a kept line. */
  function LineFields(l: Line): Fields {
    Blank.(value := l.value, tagType := l.tagType, innerText := l.value)
  }

  /** `r` is `blocks`, with the entry for `l` appended when there is one. */
  predicate Appended(blocks: seq<Entry>, r: seq<Entry>, l: Option<Line>)
    reads r
  {
    if l.None? then r == blocks
    else |r| == |blocks| + 1 && r[..|blocks|] == blocks && r[|blocks|].Get() == LineFields(l.value)
  }

  /** The entries of `nodes` hold the fields of the kept lines `ls`, in order. */
  predicate Made(nodes: seq<Entry>, ls: seq<Line>)
    reads nodes
  {
    |nodes| == |ls| && forall i :: 0 <= i < |nodes| ==> nodes[i].Get() == LineFields(ls[i])
  }

  lemma ClassifyLinesNext(lines: seq<string>, k: nat, c: bool)
    requires k < |lines|
    ensures var p := ClassifyLines(lines[..k], c);
      var q := ClassifyLine(lines[k], p.1);
      ClassifyLines(lines[..k + 1], c) == (if q.0.Some? then p.0 + [q.0.value] else p.0, q.1)
  {
    assert lines[..k + 1][..k] == lines[..k];
  }

  lemma DistinctStep(nodes: seq<Entry>, r: seq<Entry>)
    requires Distinct(nodes)
    requires r == nodes || (|r| == |nodes| + 1 && r[..|nodes|] == nodes && r[|nodes|] !in nodes)
    ensures Distinct(r)
  {
  }

  lemma AppendedFrom(blocks: seq<Entry>, r: seq<Entry>, l: Option<Line>)
    requires Appended(blocks, r, l)
    ensures forall e :: e in r ==> e in blocks || (|r| == |blocks| + 1 && e == r[|blocks|])
  {
    if l.Some? {
      assert r == blocks + [r[|blocks|]];
    }
  }

  lemma MadeStep(nodes: seq<Entry>, r: seq<Entry>, ls: seq<Line>, q: Option<Line>)
    requires Made(nodes, ls) && Appended(nodes, r, q)
    ensures Made(r, if q.Some? then ls + [q.value] else ls)
  {
  }

  /** `Parser.ProcessLine`: appends a new entry for one raw line, if it is not blank. */
  method ProcessLine(blocks: seq<Entry>, stmt: string, state: State) returns (r: seq<Entry>)
    modifies state`isComment
    ensures state.isComment == ClassifyLine(stmt, old(state.isComment)).1
    ensures Appended(blocks, r, ClassifyLine(stmt, old(state.isComment)).0)
    ensures |r| == |blocks| + 1 ==> fresh(r[|blocks|]) && r[|blocks|] !in blocks
  {
    var line := TrimStart(Remove(stmt, '\t'));
    var entry := new Entry();
    if line == "" {
      return blocks;
    }
    state.isComment := OpensComment(stmt) || state.isComment;
    entry.value := line;
    if state.isComment {
      entry.tagType := Comment;
    }
    if ClosesComment(line) {
      state.isComment := false;
    }
    var temp := Split(stmt, "-->");
    if |temp| > 1 && |temp[1]| > 0 {
      entry.value := temp[1];
    }
    entry.innerText := entry.value;
    r := blocks + [entry];
  }

  /** The body of the first loop: one line, and what the loop keeps about the entries made so far. */
  method AddLine(nodes: seq<Entry>, stmt: string, state: State, ghost ls: seq<Line>) returns (r: seq<Entry>)
    requires Made(nodes, ls) && Distinct(nodes)
    modifies state`isComment
    ensures var q := ClassifyLine(stmt, old(state.isComment));
      && state.isComment == q.1
      && Made(r, if q.0.Some? then ls + [q.0.value] else ls)
    ensures Distinct(r)
    ensures forall i :: 0 <= i < |r| ==> r[i] in nodes || fresh(r[i])
  {
    ghost var q := ClassifyLine(stmt, state.isComment).0;
    r := ProcessLine(nodes, stmt, state);
    MadeStep(nodes, r, ls, q);
    DistinctStep(nodes, r);
    AppendedFrom(nodes, r, q);
  }

  /** The first loop of `Parser.ParseLines`: a new entry per non-blank line. */
  method ProcessLines(lines: seq<string>, state: State) returns (nodes: seq<Entry>)
    modifies state`isComment
    ensures state.isComment == ClassifyLines(lines, old(state.isComment)).1
    ensures Made(nodes, ClassifyLines(lines, old(state.isComment)).0)
    ensures Distinct(nodes)
    ensures forall i :: 0 <= i < |nodes| ==> fresh(nodes[i])
  {
    ghost var c0 := state.isComment;
    nodes := [];
    var k := 0;
    while k < |lines|
      invariant 0 <= k <= |lines|
      invariant state.isComment == ClassifyLines(lines[..k], c0).1
      invariant Made(nodes, ClassifyLines(lines[..k], c0).0)
      invariant Distinct(nodes)
      invariant forall i :: 0 <= i < |nodes| ==> fresh(nodes[i])
    {
      ClassifyLinesNext(lines, k, c0);
      nodes := AddLine(nodes, lines[k], state, ClassifyLines(lines[..k], c0).0);
      k := k + 1;
    }
    assert lines[..k] == lines;
  }

  // ---------------------------------------------------------------------
  // Phase II: code lines

  /** `Parser.HandleCodeState`: adds the braces of the entry's inner text to the counters, then handles it. */
  method HandleCodeState(state: State, entry: Entry)
    modifies state
    ensures state.Get() == CodeStep(old(state.Get()), entry.innerText)
  {
    var block := entry.innerText;
    state.openCode := state.openCode + CountChar(block, '{');
    state.closeCode := state.closeCode + CountChar(block, '}');
    state.HandleCodeState(block);
  }

  /** The entry is classified as code: code mode is on, or the value opens it, and it is not a comment. */
  predicate InCode(d: Fields, s: Flags) {
    (StartsWith(d.value, "<%") || s.isCode) && d.tagType != Comment
  }

  /** The second pass on one entry: its fields and the state after it. */
  function Step2(d: Fields, s: Flags): (Fields, Flags) {
    var s1 := s.(isCode := StartsWith(d.value, "<%") || s.isCode);
    if !s1.isCode || d.tagType == Comment then (d, s1)
    else if StartsWith(d.value, "<%@") then (d.(tagType := Page), s1.(isCode := false))
    else
      var d1 := d.(fileType := CodeBehind, tagType := if StartsWith(d.value, "<%") then CodeOpen else CodeContent);
      (d1, CodeStep(s1, d1.innerText))
  }

  /**
   * The second pass changes only the file and tag type of an entry: an entry
   * outside code is untouched, a page directive becomes Page and ends code
   * mode, any other code entry becomes code-behind, CodeOpen when it starts
   * with "<%" and CodeContent otherwise. Code mode starts only at "<%" and
   * ends only at a page directive or at a block close, which moves on to the
   * next render function.
   */
  lemma Step2Facts(d: Fields, s: Flags)
    ensures var r := Step2(d, s);
      && Retyped(d, r.0)
      && (!InCode(d, s) ==> r.0 == d)
      && (InCode(d, s) && StartsWith(d.value, "<%@") ==> r.0 == d.(tagType := Page) && !r.1.isCode)
      && (InCode(d, s) && !StartsWith(d.value, "<%@") ==>
            r.0.fileType == CodeBehind && r.0.tagType == (if StartsWith(d.value, "<%") then CodeOpen else CodeContent))
      && (r.1.isCode ==> s.isCode || StartsWith(d.value, "<%"))
      && ((s.isCode || StartsWith(d.value, "<%")) && !r.1.isCode ==>
            InCode(d, s) && (StartsWith(d.value, "<%@") || r.1.funcCount == s.funcCount + 1))
      && s.funcCount <= r.1.funcCount <= s.funcCount + 1
      && r.1.isComment == s.isComment && r.1.isScript == s.isScript
  {
  }

  /** The second pass over a list: the fields of every entry and the final state. */
  function Pass2(refs: seq<Entry>, st: Store, s: Flags): (r: (Store, Flags))
    requires Covers(refs, st)
    ensures r.0.Keys == st.Keys
    decreases |refs|
  {
    if refs == [] then (st, s)
    else
      var p := Pass2(refs[..|refs| - 1], st, s);
      var e := refs[|refs| - 1];
      var q := Step2(p.0[e], p.1);
      (p.0[e := q.0], q.1)
  }

  /** Over a whole list the second pass only retypes entries, touches none outside it, and never lowers the function count. */
  lemma {:induction false} Pass2Retypes(refs: seq<Entry>, st: Store, s: Flags)
    requires Covers(refs, st)
    ensures var r := Pass2(refs, st, s);
      && (forall e :: e in st ==> Retyped(st[e], r.0[e]))
      && (forall e :: e in st && e !in refs ==> r.0[e] == st[e])
      && s.funcCount <= r.1.funcCount <= s.funcCount + |refs|
    decreases |refs|
  {
    if refs != [] {
      var init := refs[..|refs| - 1];
      Pass2Retypes(init, st, s);
      var p := Pass2(init, st, s);
      var b := refs[|refs| - 1];
      Step2Facts(p.0[b], p.1);
      var r := Pass2(refs, st, s);
      assert r.0 == p.0[b := Step2(p.0[b], p.1).0];
      forall e | e in st && e !in refs
        ensures r.0[e] == st[e]
      {
        assert e !in init && e != b;
      }
    }
  }

  lemma Pass2Next(refs: seq<Entry>, k: nat, st: Store, s: Flags)
    requires k < |refs| && Covers(refs, st)
    ensures Covers(refs[..k], st) && Covers(refs[..k + 1], st)
    ensures var p := Pass2(refs[..k], st, s);
      var q := Step2(p.0[refs[k]], p.1);
      Pass2(refs[..k + 1], st, s) == (p.0[refs[k] := q.0], q.1)
  {
    assert refs[..k + 1][..k] == refs[..k];
  }

  /** Recording the new fields of one entry keeps a store in step with the heap. */
  lemma HoldsUpdate(refs: seq<Entry>, st: Store, b: Entry)
    requires b in refs
    requires forall e :: e in refs && e != b ==> e in st && e.Get() == st[e]
    ensures Holds(refs, st[b := b.Get()])
  {
  }

  /** The second pass leaves every comment entry as it is. */
  lemma {:induction false} Pass2KeepsComments(refs: seq<Entry>, st: Store, s: Flags)
    requires Covers(refs, st)
    ensures forall e :: e in st && st[e].tagType == Comment ==> Pass2(refs, st, s).0[e] == st[e]
    decreases |refs|
  {
    if refs != [] {
      var init := refs[..|refs| - 1];
      Pass2KeepsComments(init, st, s);
      var p := Pass2(init, st, s);
      var b := refs[|refs| - 1];
      assert Pass2(refs, st, s).0 == p.0[b := Step2(p.0[b], p.1).0];
    }
  }

  /** The body of the second pass's loop on one entry. */
  method ClassifyCode(block: Entry, state: State)
    modifies block`fileType, block`tagType, state
    ensures (block.Get(), state.Get()) == Step2(old(block.Get()), old(state.Get()))
  {
    var stmt := block.value;
    state.isCode := StartsWith(stmt, "<%") || state.isCode;
    if !state.isCode || block.tagType == Comment {
      return;
    }
    if StartsWith(stmt, "<%@") {
      state.isCode := false;
      block.tagType := Page;
      return;
    }
    block.fileType := CodeBehind;
    block.tagType := if StartsWith(stmt, "<%") then CodeOpen else CodeContent;
    HandleCodeState(state, block);
  }

  /** `Parser.ProcessLine2`: classifies code lines in place and returns the same entries. */
  method ProcessLine2(blocks: seq<Entry>, state: State) returns (nodes: seq<Entry>)
    modifies blocks, state
    ensures nodes == blocks
    ensures Holds(blocks, Pass2(blocks, old(Snapshot(blocks)), old(state.Get())).0)
    ensures state.Get() == Pass2(blocks, old(Snapshot(blocks)), old(state.Get())).1
  {
    ghost var st0 := Snapshot(blocks);
    ghost var s0 := state.Get();
    var idx := 0;
    while idx < |blocks|
      invariant 0 <= idx <= |blocks|
      invariant Holds(blocks, Pass2(blocks[..idx], st0, s0).0)
      invariant state.Get() == Pass2(blocks[..idx], st0, s0).1
    {
      var block := blocks[idx];
      ghost var p := Pass2(blocks[..idx], st0, s0);
      Pass2Next(blocks, idx, st0, s0);
      ClassifyCode(block, state);
      HoldsUpdate(blocks, p.0, block);
      idx := idx + 1;
    }
    assert blocks[..idx] == blocks;
    nodes := blocks;
  }

  // ---------------------------------------------------------------------
  // Phase III: script lines

  /** The entry is classified as script: script mode is on, or the value opens it, and it is not a comment. */
  predicate InScript(d: Fields, s: Flags) {
    (StartsWith(d.value, "<script") || s.isScript) && d.tagType != Comment
  }

  /** The third pass on one entry: its fields and the state after it. */
  function Step3(d: Fields, s: Flags): (Fields, Flags) {
    var sc := StartsWith(d.value, "<script") || s.isScript;
    if !sc || d.tagType == Comment then (d, s.(isScript := sc))
    else
      var d1 := d.(tagType := if StartsWith(d.value, "<script") then Open else Script);
      (d1, s.(isScript := if StartsWith(d.value, "</script>") then false else sc))
  }

  /**
   * The third pass changes only the tag type of an entry and only the script
   * flag of the state: an entry in script mode that is not a comment becomes
   * Open when it starts the element and Script otherwise; script mode starts
   * at "<script" and ends after a non-comment "</script>".
   */
  lemma Step3Facts(d: Fields, s: Flags)
    ensures var r := Step3(d, s);
      && Retyped(d, r.0) && r.0.fileType == d.fileType
      && r.1 == s.(isScript := r.1.isScript)
      && (!InScript(d, s) ==> r.0 == d)
      && (InScript(d, s) ==> r.0.tagType == (if StartsWith(d.value, "<script") then Open else Script))
      && (r.1.isScript <==>
            (StartsWith(d.value, "<script") || s.isScript) && !(d.tagType != Comment && StartsWith(d.value, "</script>")))
  {
  }

  /** The third pass over a list. */
  function Pass3(refs: seq<Entry>, st: Store, s: Flags): (r: (Store, Flags))
    requires Covers(refs, st)
    ensures r.0.Keys == st.Keys
    decreases |refs|
  {
    if refs == [] then (st, s)
    else
      var p := Pass3(refs[..|refs| - 1], st, s);
      var e := refs[|refs| - 1];
      var q := Step3(p.0[e], p.1);
      (p.0[e := q.0], q.1)
  }

  /** Over a whole list the third pass only changes tag types, touches no entry outside it, and only the script flag of the state. */
  lemma {:induction false} Pass3Retypes(refs: seq<Entry>, st: Store, s: Flags)
    requires Covers(refs, st)
    ensures var r := Pass3(refs, st, s);
      && (forall e :: e in st ==> Retyped(st[e], r.0[e]) && r.0[e].fileType == st[e].fileType)
      && (forall e :: e in st && e !in refs ==> r.0[e] == st[e])
      && r.1 == s.(isScript := r.1.isScript)
    decreases |refs|
  {
    if refs != [] {
      var init := refs[..|refs| - 1];
      Pass3Retypes(init, st, s);
      var p := Pass3(init, st, s);
      var b := refs[|refs| - 1];
      Step3Facts(p.0[b], p.1);
      var r := Pass3(refs, st, s);
      assert r.0 == p.0[b := Step3(p.0[b], p.1).0];
      forall e | e in st
        ensures Retyped(st[e], r.0[e]) && r.0[e].fileType == st[e].fileType
      {
        if e != b {
          assert r.0[e] == p.0[e];
        }
      }
      forall e | e in st && e !in refs
        ensures r.0[e] == st[e]
      {
        assert e !in init && e != b;
      }
    }
  }

  lemma Pass3Next(refs: seq<Entry>, k: nat, st: Store, s: Flags)
    requires k < |refs| && Covers(refs, st)
    ensures Covers(refs[..k], st) && Covers(refs[..k + 1], st)
    ensures var p := Pass3(refs[..k], st, s);
      var q := Step3(p.0[refs[k]], p.1);
      Pass3(refs[..k + 1], st, s) == (p.0[refs[k] := q.0], q.1)
  {
    assert refs[..k + 1][..k] == refs[..k];
  }

  /** The third pass leaves every comment entry as it is. */
  lemma {:induction false} Pass3KeepsComments(refs: seq<Entry>, st: Store, s: Flags)
    requires Covers(refs, st)
    ensures forall e :: e in st && st[e].tagType == Comment ==> Pass3(refs, st, s).0[e] == st[e]
    decreases |refs|
  {
    if refs != [] {
      var init := refs[..|refs| - 1];
      Pass3KeepsComments(init, st, s);
      var p := Pass3(init, st, s);
      var b := refs[|refs| - 1];
      assert Pass3(refs, st, s).0 == p.0[b := Step3(p.0[b], p.1).0];
    }
  }

  /** The body of the third pass's loop on one entry. */
  method ClassifyScript(block: Entry, state: State)
    modifies block`tagType, state`isScript
    ensures (block.Get(), state.Get()) == Step3(old(block.Get()), old(state.Get()))
  {
    var stmt := block.value;
    state.isScript := StartsWith(stmt, "<script") || state.isScript;
    if !state.isScript || block.tagType == Comment {
      return;
    }
    var open := StartsWith(stmt, "<script");
    block.tagType := if open then Open else Script;
    if StartsWith(stmt, "</script>") {
      state.isScript := false;
    }
  }

  /** `Parser.ProcessLine3`: classifies script lines in place. */
  method ProcessLine3(blocks: seq<Entry>, state: State)
    modifies blocks, state
    ensures Holds(blocks, Pass3(blocks, old(Snapshot(blocks)), old(state.Get())).0)
    ensures state.Get() == Pass3(blocks, old(Snapshot(blocks)), old(state.Get())).1
  {
    ghost var st0 := Snapshot(blocks);
    ghost var s0 := state.Get();
    var idx := 0;
    while idx < |blocks|
      invariant 0 <= idx <= |blocks|
      invariant Holds(blocks, Pass3(blocks[..idx], st0, s0).0)
      invariant state.Get() == Pass3(blocks[..idx], st0, s0).1
    {
      var block := blocks[idx];
      ghost var p := Pass3(blocks[..idx], st0, s0);
      Pass3Next(blocks, idx, st0, s0);
      ClassifyScript(block, state);
      HoldsUpdate(blocks, p.0, block);
      idx := idx + 1;
    }
    assert blocks[..idx] == blocks;
  }

  // ---------------------------------------------------------------------
  // The three line passes together

  /** The fields after the second and third pass, from the fields `st` and the state `s` before them. */
  function CodeAndScript(refs: seq<Entry>, st: Store, s: Flags): (r: Store)
    requires Covers(refs, st)
    ensures r.Keys == st.Keys
  {
    var p2 := Pass2(refs, st, s);
    Pass3(refs, p2.0, p2.1).0
  }

  /** The second and third pass of `Parser.ParseLines`, in place. */
  method ClassifyEntries(nodes: seq<Entry>, state: State)
    modifies nodes, state
    ensures Holds(nodes, CodeAndScript(nodes, old(Snapshot(nodes)), old(state.Get())))
  {
    ghost var p2 := Pass2(nodes, Snapshot(nodes), state.Get());
    var n2 := ProcessLine2(nodes, state);
    HoldsSnapshot(nodes, p2.0);
    ProcessLine3(nodes, state);
  }

  /** The fields the first pass gives the entries `made`, one per kept line of `ls`. */
  function LineStore(made: seq<Entry>, ls: seq<Line>): (st: Store)
    requires |made| == |ls| && Distinct(made)
    ensures st.Keys == set e | e in made
    ensures forall i :: 0 <= i < |made| ==> st[made[i]] == LineFields(ls[i])
  {
    map i | 0 <= i < |made| :: made[i] := LineFields(ls[i])
  }

  /** Right after the first pass, the entries hold exactly the line store. */
  lemma SnapshotMade(made: seq<Entry>, ls: seq<Line>)
    requires Made(made, ls) && Distinct(made)
    ensures Snapshot(made) == LineStore(made, ls)
  {
    var a, b := Snapshot(made), LineStore(made, ls);
    forall e | e in a
      ensures b[e] == a[e]
    {
      var i :| 0 <= i < |made| && made[i] == e;
    }
  }

  /**
   * The fields of the entries `made` after the three line passes of a page
   * split into `lines`: the kept lines, classified as code from a new state,
   * then as script from the state the code pass leaves.
   */
  function LinePasses(made: seq<Entry>, lines: seq<string>): (st: Store)
    requires Distinct(made) && |made| == |ClassifyLines(lines, false).0|
    ensures st.Keys == set e | e in made
  {
    CodeAndScript(made, LineStore(made, ClassifyLines(lines, false).0), Initial)
  }

  /**
   * After the line passes, the entry for the `i`th kept line still holds that
   * line's value, inner text and everything else the first pass gave it, but
   * its file and tag type; a comment line stays a comment.
   */
  lemma LinePassesFacts(made: seq<Entry>, lines: seq<string>, i: nat)
    requires Distinct(made) && |made| == |ClassifyLines(lines, false).0| && i < |made|
    ensures var l := ClassifyLines(lines, false).0[i];
      && Retyped(LineFields(l), LinePasses(made, lines)[made[i]])
      && (l.tagType == Comment ==> LinePasses(made, lines)[made[i]].tagType == Comment)
  {
    var ls := ClassifyLines(lines, false).0;
    var st1 := LineStore(made, ls);
    var p2 := Pass2(made, st1, Initial);
    Pass2Retypes(made, st1, Initial);
    Pass3Retypes(made, p2.0, p2.1);
    Pass2KeepsComments(made, st1, Initial);
    Pass3KeepsComments(made, p2.0, p2.1);
  }
}
