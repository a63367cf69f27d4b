/**
 * The older, regex-driven page parser of the WebForms rewriting tool, after
 * its regular expression has cut the page into named matches: each match
 * becomes an entry whose text is normalised, a pass threads a `State`
 * through the entries to classify them as markup or code, and a merge pass
 * folds attribute runs into the entry before them.
 */
module LegacyParser {
  import opened Wrappers
  import opened Strings
  import opened AspEntry
  import opened AspState
  import opened AspLines
  import opened AspNodes

  // ---------------------------------------------------------------------
  // Text of a match

  /** `Parser.FormatCode`: every line trimmed, the lines joined with single spaces. */
  function FormatCode(value: string): string {
    var lines := Split(value, NewLine);
    Join(" ", seq(|lines|, i requires 0 <= i < |lines| => Trim(lines[i])))
  }

  /** `Parser.FormatValue`: code and comment matches are formatted, every other match is kept. */
  function FormatValue(value: string, groupName: string): string {
    if groupName == "code" || groupName == "comment" then FormatCode(value) else value
  }

  /**
   * Only code and comment matches change; a one-line match is only trimmed,
   * so formatting it again changes nothing more.
   */
  lemma FormatValueFacts(value: string, groupName: string)
    ensures groupName != "code" && groupName != "comment" ==> FormatValue(value, groupName) == value
    ensures !Contains(value, NewLine) ==> FormatCode(value) == Trim(value)
    ensures !Contains(value, NewLine) && (groupName == "code" || groupName == "comment") ==>
      FormatValue(value, groupName) == Trim(value)
  {
    if !Contains(value, NewLine) {
      SplitWithout(value, NewLine);
    }
  }

  // ---------------------------------------------------------------------
  // Classification

  /** The tag type `SetTagType` gives each regex group. */
  function GroupType(groupName: string): (t: TagType) {
    if groupName == "attr" then Attr
    else if groupName == "open" then Open
    else if groupName == "close" then Close
    else if groupName == "comment" then Comment
    else Content
  }

  /** `Parser.SetTagType`: the group's tag type, and the open flag of the state. */
  function SetTagType(d: Fields, s: Flags): Fields {
    d.(tagType := GroupType(d.groupName), isOpen := s.isOpen)
  }

  /** `Parser.InCodeBlock`: an attribute inside code is a code attribute when it holds a code delimiter. */
  function InCodeBlock(value: string): TagType {
    if Contains(value, "<%") || Contains(value, "%>") then CodeAttr else CodeValue
  }

  /** The render-function name, numbered with at least two digits as `ToString("D2")` does. */
  function PageLogic(n: int): string {
    "page_logic_" + (if n < 0 then "-" + FormatD2(-n) else FormatD2(n))
  }

  /** The state after a new code block starts: the next render function unless the previous entry was code. */
  function Bump(s: Flags): Flags {
    if s.prevCode then s else s.(funcCount := s.funcCount + 1)
  }

  /** The flags `CategorizeEntries` sets from an entry's group before handling it. */
  function Enter(d: Fields, s: Flags): Flags {
    var s1 := s.(prevCode := s.isCode);
    if d.groupName == "open" then s1.(isTag := true, isOpen := !Contains(d.value, ">"))
    else if d.groupName == "close" then s1.(isTag := false, isOpen := false)
    else if d.groupName == "code" then s1.(isCode := true)
    else s1
  }

  /** The first half of the "code" arm: a match inside an open tag, then a page directive. */
  function CodeMark(d: Fields, s: Flags): (Fields, Flags) {
    var a := if s.isOpen then (d.(tagType := CodeAttr, codeFunction := Some(PageLogic(Bump(s).funcCount))), Bump(s)) else (d, s);
    if Contains(d.value, "<%@") then (a.0.(tagType := Page, fileType := Html), a.1.(isCode := false)) else a
  }

  /** The second half of the "code" arm: code-behind content opens a render function and is named after it. */
  function CodeName(b: (Fields, Flags)): (Fields, Flags) {
    if b.0.fileType == CodeBehind then
      var s3 := if b.0.tagType == Content then Bump(b.1) else b.1;
      (b.0.(tagType := if b.0.tagType == Content then CodeContent else b.0.tagType,
            codeFunction := Some(PageLogic(s3.funcCount))), s3)
    else b
  }

  /** The "code" arm of `HandleEntry`. */
  function CodeArm(d: Fields, s: Flags): (Fields, Flags) {
    CodeName(CodeMark(d, s))
  }

  /** The switch of `HandleEntry` on the group name. */
  function ByGroup(d: Fields, s: Flags): (Fields, Flags) {
    if d.groupName == "attr" then
      if s.isCode then (d.(tagType := InCodeBlock(d.value), codeFunction := Some(PageLogic(s.funcCount))), s)
      else (if !s.isOpen then d.(tagType := Content) else d, s)
    else if d.groupName == "code" then CodeArm(d, s)
    else if d.groupName == "open" then
      if s.isCode then (d.(tagType := CodeOpen, codeFunction := Some(PageLogic(Bump(s).funcCount))), Bump(s)) else (d, s)
    else if d.groupName == "close" then
      if s.isCode then (d.(tagType := CodeClose, codeFunction := Some(PageLogic(s.funcCount))), s) else (d, s)
    else (d, s)
  }

  /** `Parser.HandleEntry`: the entry's new fields and the state after it. */
  function Handle(d: Fields, s: Flags): (Fields, Flags) {
    var c := Classify(d, s);
    if !c.1.isCode then c else (c.0, CodeStep(c.1, c.0.value))
  }

  /** `HandleEntry` up to the brace counting: the file and tag type set, the switch, the group name. */
  function Classify(d: Fields, s: Flags): (Fields, Flags) {
    var t := SetTagType(d.(fileType := if s.isCode then CodeBehind else Html), s);
    var g := ByGroup(t, s);
    (g.0.(groupName := GetGroupName(g.0.tagType)), g.1)
  }

  /**
   * Handling an entry changes only its group name, file type, tag type, open
   * flag and function name; the group name always names the new tag type, the
   * open flag is the state's, and the function number never goes down.
   */
  lemma HandleShape(d: Fields, s: Flags)
    ensures var r := Handle(d, s);
      && r.0 == d.(groupName := r.0.groupName, fileType := r.0.fileType, tagType := r.0.tagType,
                   isOpen := r.0.isOpen, codeFunction := r.0.codeFunction)
      && r.0.groupName == GetGroupName(r.0.tagType)
      && r.0.isOpen == s.isOpen
      && r.1.funcCount >= s.funcCount
  {
    var t := SetTagType(d.(fileType := if s.isCode then CodeBehind else Html), s);
    var g := ByGroup(t, s);
    assert g.1.funcCount >= s.funcCount;
    var c := Classify(d, s);
    assert c.0 == d.(groupName := c.0.groupName, fileType := c.0.fileType, tagType := c.0.tagType,
                     isOpen := c.0.isOpen, codeFunction := c.0.codeFunction);
  }

  /**
   * An attribute is Content outside an open tag; inside code it is CodeAttr
   * exactly when it holds a code delimiter, else CodeValue, and it is named
   * after the current render function.
   */
  lemma HandleAttr(d: Fields, s: Flags)
    requires d.groupName == "attr"
    ensures var r := Handle(d, s);
      && (!s.isCode ==> r.0.tagType == (if s.isOpen then Attr else Content) && r.0.fileType == Html)
      && (s.isCode ==>
            (r.0.tagType == CodeAttr <==> Contains(d.value, "<%") || Contains(d.value, "%>"))
            && (r.0.tagType == CodeAttr || r.0.tagType == CodeValue)
            && r.0.fileType == CodeBehind
            && r.0.codeFunction == Some(PageLogic(s.funcCount)))
  {
  }

  /**
   * A page directive becomes Html Page and ends code mode; any other code
   * match is code-behind and named after a render function, a new one when
   * it opens a block after markup.
   */
  lemma HandleCode(d: Fields, s: Flags)
    requires d.groupName == "code" && s.isCode
    ensures var r := Handle(d, s);
      && (Contains(d.value, "<%@") ==> r.0.tagType == Page && r.0.fileType == Html && !r.1.isCode)
      && (!Contains(d.value, "<%@") ==>
            r.0.fileType == CodeBehind && r.0.tagType == (if s.isOpen then CodeAttr else CodeContent)
            && r.0.codeFunction == Some(PageLogic(Bump(s).funcCount)))
  {
  }

  /**
   * In code mode an opening tag becomes CodeOpen and starts a new render
   * function only when the previous entry was not code; a closing tag becomes
   * CodeClose in the current one. Outside code both keep their markup type.
   */
  lemma HandleTags(d: Fields, s: Flags)
    requires d.groupName == "open" || d.groupName == "close"
    ensures var r := Handle(d, s);
      && (d.groupName == "open" && s.isCode ==>
            r.0.tagType == CodeOpen
            && r.0.codeFunction == Some(PageLogic(if s.prevCode then s.funcCount else s.funcCount + 1)))
      && (d.groupName == "close" && s.isCode ==>
            r.0.tagType == CodeClose && r.0.codeFunction == Some(PageLogic(s.funcCount)))
      && (!s.isCode ==> r.0.tagType == GroupType(d.groupName) && r.0.fileType == Html && r.0.codeFunction == d.codeFunction)
  {
  }

  /**
   * Entering an entry records whether the previous one was code; an opening
   * tag is open until a '>' is seen, a closing tag closes it, and a code
   * match turns code mode on.
   */
  lemma EnterFacts(d: Fields, s: Flags)
    ensures var r := Enter(d, s);
      && r.prevCode == s.isCode
      && r.funcCount == s.funcCount && r.openCode == s.openCode && r.closeCode == s.closeCode
      && (d.groupName == "open" ==> r.isTag && (r.isOpen <==> !Contains(d.value, ">")))
      && (d.groupName == "close" ==> !r.isTag && !r.isOpen)
      && (d.groupName == "code" ==> r.isCode)
      && (d.groupName != "code" ==> r.isCode == s.isCode)
  {
  }

  /** One iteration of `CategorizeEntries` on entry `e`. */
  function CatStep(p: (Store, Flags), e: Entry): (Store, Flags)
    requires e in p.0
  {
    var q := Handle(p.0[e], Enter(p.0[e], p.1));
    (p.0[e := q.0], q.1)
  }

  /** The categorising pass over a list: the fields of every entry and the final state. */
  function Categorize(refs: seq<Entry>, st: Store, s: Flags): (r: (Store, Flags))
    requires Covers(refs, st)
    ensures r.0.Keys == st.Keys
    decreases |refs|
  {
    if refs == [] then (st, s)
    else CatStep(Categorize(refs[..|refs| - 1], st, s), refs[|refs| - 1])
  }

  /**
   * Over a whole list every handled entry's group name names its tag type,
   * no entry outside the list changes, and the function number never goes down.
   */
  lemma {:induction false} CategorizeFacts(refs: seq<Entry>, st: Store, s: Flags)
    requires Covers(refs, st)
    ensures var r := Categorize(refs, st, s);
      && (forall e :: e in refs ==> r.0[e].groupName == GetGroupName(r.0[e].tagType))
      && (forall e :: e in st && e !in refs ==> r.0[e] == st[e])
      && r.1.funcCount >= s.funcCount
    decreases |refs|
  {
    if refs != [] {
      var init := refs[..|refs| - 1];
      var b := refs[|refs| - 1];
      CategorizeFacts(init, st, s);
      var p := Categorize(init, st, s);
      var q := Handle(p.0[b], Enter(p.0[b], p.1));
      HandleShape(p.0[b], Enter(p.0[b], p.1));
      EnterFacts(p.0[b], p.1);
      var r := Categorize(refs, st, s);
      assert r.0 == p.0[b := q.0];
      forall e | e in refs
        ensures r.0[e].groupName == GetGroupName(r.0[e].tagType)
      {
        if e != b {
          assert e in init;
        }
      }
      forall e | e in st && e !in refs
        ensures r.0[e] == st[e]
      {
        assert e !in init && e != b;
      }
    }
  }

  lemma CategorizeNext(refs: seq<Entry>, k: nat, st: Store, s: Flags)
    requires k < |refs| && Covers(refs, st)
    ensures Covers(refs[..k], st) && Covers(refs[..k + 1], st)
    ensures Categorize(refs[..k + 1], st, s) == CatStep(Categorize(refs[..k], st, s), refs[k])
  {
    assert refs[..k + 1][..k] == refs[..k];
  }

  /** The "attr" arm of `HandleEntry`. */
  method HandleAttrEntry(entry: Entry, state: State)
    requires entry.groupName == "attr"
    modifies entry`tagType, entry`codeFunction
    ensures (entry.Get(), state.Get()) == ByGroup(old(entry.Get()), state.Get())
  {
    if !state.isOpen {
      entry.tagType := Content;
    }
    if state.isCode {
      entry.tagType := if state.isOpen then CodeAttr else CodeContent;
      entry.tagType := InCodeBlock(entry.value);
      entry.codeFunction := Some(PageLogic(state.funcCount));
    }
  }

  /** The first half of the "code" arm of `HandleEntry`. */
  method MarkCodeEntry(entry: Entry, state: State)
    modifies entry`tagType, entry`fileType, entry`codeFunction, state`funcCount, state`isCode
    ensures (entry.Get(), state.Get()) == CodeMark(old(entry.Get()), old(state.Get()))
  {
    if state.isOpen {
      entry.tagType := CodeAttr;
      if !state.prevCode {
        state.funcCount := state.funcCount + 1;
      }
      entry.codeFunction := Some(PageLogic(state.funcCount));
    }
    if Contains(entry.value, "<%@") {
      entry.tagType := Page;
      entry.fileType := Html;
      state.isCode := false;
    }
  }

  /** The "code" arm of `HandleEntry`. */
  method HandleCodeEntry(entry: Entry, state: State)
    modifies entry`tagType, entry`fileType, entry`codeFunction, state`funcCount, state`isCode
    ensures (entry.Get(), state.Get()) == CodeArm(old(entry.Get()), old(state.Get()))
  {
    MarkCodeEntry(entry, state);
    if entry.fileType == CodeBehind {
      if entry.tagType == Content {
        entry.tagType := CodeContent;
        if !state.prevCode {
          state.funcCount := state.funcCount + 1;
        }
      }
      entry.codeFunction := Some(PageLogic(state.funcCount));
    }
  }

  /** The switch of `HandleEntry`, on an entry whose file and tag type are set. */
  method HandleGroup(entry: Entry, state: State)
    modifies entry`tagType, entry`fileType, entry`codeFunction, state`funcCount, state`isCode
    ensures (entry.Get(), state.Get()) == ByGroup(old(entry.Get()), old(state.Get()))
  {
    if entry.groupName == "attr" {
      HandleAttrEntry(entry, state);
    } else if entry.groupName == "code" {
      HandleCodeEntry(entry, state);
    } else if entry.groupName == "open" {
      if state.isCode {
        entry.tagType := CodeOpen;
        if !state.prevCode {
          state.funcCount := state.funcCount + 1;
        }
        entry.codeFunction := Some(PageLogic(state.funcCount));
      }
    } else if entry.groupName == "close" {
      if state.isCode {
        entry.tagType := CodeClose;
        entry.codeFunction := Some(PageLogic(state.funcCount));
      }
    }
  }

  /** `HandleEntry` up to the brace counting. */
  method ClassifyEntry(entry: Entry, state: State)
    modifies entry, state`funcCount, state`isCode
    ensures (entry.Get(), state.Get()) == Classify(old(entry.Get()), old(state.Get()))
  {
    entry.fileType := if state.isCode then CodeBehind else Html;
    entry.tagType := GroupType(entry.groupName);
    entry.isOpen := state.isOpen;
    HandleGroup(entry, state);
    entry.groupName := GetGroupName(entry.tagType);
  }

  /** `Parser.HandleEntry`: classifies the entry in place and updates the state. */
  method HandleEntry(entry: Entry, state: State) returns (tag: Entry)
    modifies entry, state
    ensures tag == entry
    ensures (entry.Get(), state.Get()) == Handle(old(entry.Get()), old(state.Get()))
  {
    ClassifyEntry(entry, state);
    tag := entry;
    if !state.isCode {
      return;
    }
    CountCode(entry.value, state);
  }

  /** The tail of `HandleEntry` in code mode: the braces of the text are counted, then the text is handled. */
  method CountCode(value: string, state: State)
    modifies state
    ensures state.Get() == CodeStep(old(state.Get()), value)
  {
    state.openCode := state.openCode + CountChar(value, '{');
    state.closeCode := state.closeCode + CountChar(value, '}');
    state.HandleCodeState(value);
  }

  /** The start of one iteration of `CategorizeEntries`: the state's flags follow the entry's group. */
  method EnterEntry(entry: Entry, state: State)
    modifies state
    ensures state.Get() == Enter(entry.Get(), old(state.Get()))
  {
    state.prevCode := state.isCode;
    if entry.groupName == "open" {
      state.isTag := true;
      state.isOpen := !Contains(entry.value, ">");
    } else if entry.groupName == "close" {
      state.isTag := false;
      state.isOpen := false;
    } else if entry.groupName == "code" {
      state.isCode := true;
    }
  }

  /** The body of the categorising loop on one entry. */
  method CategorizeEntry(entries: seq<Entry>, entry: Entry, state: State, ghost p: (Store, Flags))
    requires entry in entries && Holds(entries, p.0) && state.Get() == p.1
    modifies entry, state
    ensures Holds(entries, CatStep(p, entry).0) && state.Get() == CatStep(p, entry).1
  {
    EnterEntry(entry, state);
    var tag := HandleEntry(entry, state);
    HoldsUpdate(entries, p.0, entry);
  }

  /** `Parser.CategorizeEntries`: classifies every entry in place, threading a new state, and lists them again. */
  method CategorizeEntries(entries: seq<Entry>) returns (ret: seq<Entry>)
    modifies entries
    ensures ret == entries
    ensures Holds(entries, Categorize(entries, old(Snapshot(entries)), Initial).0)
  {
    ghost var st0 := Snapshot(entries);
    ret := [];
    var state := new State();
    var idx := 0;
    while idx < |entries|
      invariant 0 <= idx <= |entries|
      invariant ret == entries[..idx]
      invariant Holds(entries, Categorize(entries[..idx], st0, Initial).0)
      invariant state.Get() == Categorize(entries[..idx], st0, Initial).1
      invariant fresh(state)
    {
      var entry := entries[idx];
      ghost var p := Categorize(entries[..idx], st0, Initial);
      CategorizeNext(entries, idx, st0, Initial);
      CategorizeEntry(entries, entry, state, p);
      PrefixNext(entries, idx);
      ret := ret + [entry];
      idx := idx + 1;
    }
    assert entries[..idx] == entries;
  }

  // ---------------------------------------------------------------------
  // Merging attribute runs

  /** An entry that may be folded into the one before it. */
  predicate Joins(t: TagType) { t == Attr || t == CodeValue }

  /** An entry that attribute text may be folded into. */
  predicate Takes(t: TagType) { t == Attr || t == CodeValue || t == CodeOpen || t == CodeContent }

  /**
   * One iteration of `Parser.MergeNodes` on `node`, with the entries kept so
   * far: after code, a foldable entry becomes code content; after CodeOpen it
   * stays, otherwise its text is appended to the previous entry (after a space
   * when it is code content) and it is dropped.
   */
  function LegacyStep(p: (seq<Entry>, Store), node: Entry): (seq<Entry>, Store)
    requires node in p.1 && Covers(p.0, p.1)
  {
    if p.0 == [] then (p.0 + [node], p.1)
    else
      var prev := p.0[|p.0| - 1];
      var nd := p.1[node];
      var pt := p.1[prev].tagType;
      if !Joins(nd.tagType) || !Takes(pt) then (p.0 + [node], p.1)
      else
        var nd1 := if pt == CodeOpen || pt == CodeContent then nd.(tagType := CodeContent, groupName := GetGroupName(CodeContent)) else nd;
        var st1 := p.1[node := nd1];
        if pt == CodeOpen then (p.0 + [node], st1)
        else
          var text := if nd1.tagType == CodeContent then " " + nd1.value else nd1.value;
          (p.0, st1[prev := st1[prev].(value := st1[prev].value + text)])
  }

  /** The merge over a list: the entries kept and the fields of every entry. */
  function LegacyMerge(refs: seq<Entry>, st: Store): (r: (seq<Entry>, Store))
    requires Covers(refs, st)
    ensures r.1.Keys == st.Keys && Covers(r.0, r.1)
    decreases |refs|
  {
    if refs == [] then ([], st)
    else LegacyStep(LegacyMerge(refs[..|refs| - 1], st), refs[|refs| - 1])
  }

  /** `b` differs from `a` only by a retag to code content and by text appended to its value. */
  predicate Grown(a: Fields, b: Fields) {
    b == a.(tagType := b.tagType, groupName := b.groupName, value := b.value)
    && a.value <= b.value
    && (b.tagType != a.tagType ==> Joins(a.tagType) && b.tagType == CodeContent)
  }

  lemma GrownUpdate(st: Store, b: Entry, d: Fields)
    requires b in st && Grown(st[b], d)
    ensures forall e :: e in st ==> Grown(st[e], st[b := d][e])
  {
  }

  lemma GrownTrans(a: Fields, b: Fields, c: Fields)
    requires Grown(a, b) && Grown(b, c)
    ensures Grown(a, c)
  {
  }

  /** One iteration keeps or drops the node; it is kept whenever it is not an attribute run. */
  lemma LegacyStepKept(p: (seq<Entry>, Store), node: Entry)
    requires node in p.1 && Covers(p.0, p.1)
    ensures var r := LegacyStep(p, node);
      && (r.0 == p.0 || r.0 == p.0 + [node])
      && (p.0 == [] ==> r.0 == [node])
      && (!Joins(p.1[node].tagType) ==> r.0 == p.0 + [node])
  {
  }

  /**
   * One iteration only grows entries, and touches none but the node and the
   * last entry kept.
   */
  lemma LegacyStepStore(p: (seq<Entry>, Store), node: Entry)
    requires node in p.1 && Covers(p.0, p.1)
    ensures var r := LegacyStep(p, node);
      && r.1.Keys == p.1.Keys
      && (forall e :: e in p.1 ==> Grown(p.1[e], r.1[e]))
      && (forall e :: e in p.1 && e != node && (p.0 == [] || e != p.0[|p.0| - 1]) ==> r.1[e] == p.1[e])
  {
    LegacyStepGrows(p, node);
  }

  lemma LegacyStepGrows(p: (seq<Entry>, Store), node: Entry)
    requires node in p.1 && Covers(p.0, p.1)
    ensures var r := LegacyStep(p, node);
      r.1.Keys == p.1.Keys && forall e :: e in p.1 ==> Grown(p.1[e], r.1[e])
  {
    if p.0 != [] {
      var prev := p.0[|p.0| - 1];
      var nd := p.1[node];
      var pt := p.1[prev].tagType;
      if Joins(nd.tagType) && Takes(pt) {
        var nd1 := if pt == CodeOpen || pt == CodeContent then nd.(tagType := CodeContent, groupName := GetGroupName(CodeContent)) else nd;
        var st1 := p.1[node := nd1];
        assert Grown(nd, nd1);
        GrownUpdate(p.1, node, nd1);
        if pt != CodeOpen {
          var text := if nd1.tagType == CodeContent then " " + nd1.value else nd1.value;
          var d1 := st1[prev].(value := st1[prev].value + text);
          assert Grown(st1[prev], d1);
          GrownTrans(p.1[prev], st1[prev], d1);
        }
      }
    }
  }

  /**
   * Over a whole list no more entries are kept than listed, the first entry
   * is always kept, and every entry kept is listed.
   */
  lemma {:induction false} LegacyMergeKept(refs: seq<Entry>, st: Store)
    requires Covers(refs, st)
    ensures var r := LegacyMerge(refs, st);
      && |r.0| <= |refs|
      && (|refs| > 0 ==> |r.0| > 0 && r.0[0] == refs[0])
      && (forall i :: 0 <= i < |r.0| ==> r.0[i] in refs)
    decreases |refs|
  {
    if refs != [] {
      var init := refs[..|refs| - 1];
      var node := refs[|refs| - 1];
      LegacyMergeKept(init, st);
      var p := LegacyMerge(init, st);
      LegacyStepKept(p, node);
      var r := LegacyMerge(refs, st);
      assert r == LegacyStep(p, node);
      forall i | 0 <= i < |r.0|
        ensures r.0[i] in refs
      {
        if i < |p.0| {
          assert r.0[i] == p.0[i] && p.0[i] in init;
        }
      }
      if |init| > 0 {
        assert init[0] == refs[0];
      }
    }
  }

  /** Two maps that agree off two keys, each of which is in `refs`, agree on every key outside `refs`. */
  lemma AgreeOutside(refs: seq<Entry>, st: Store, a: Store, b: Store, x: Entry, y: Entry)
    requires x in refs && y in refs && a.Keys == st.Keys && b.Keys == st.Keys
    requires forall e :: e in st && e !in refs ==> a[e] == st[e]
    requires forall e :: e in a && e != x && e != y ==> b[e] == a[e]
    ensures forall e :: e in st && e !in refs ==> b[e] == st[e]
  {
  }

  /** Over a whole list every entry only grows, and entries outside the list do not change. */
  lemma {:induction false} LegacyMergeStore(refs: seq<Entry>, st: Store)
    requires Covers(refs, st)
    ensures var r := LegacyMerge(refs, st);
      && (forall e :: e in st ==> Grown(st[e], r.1[e]))
      && (forall e :: e in st && e !in refs ==> r.1[e] == st[e])
    decreases |refs|
  {
    if refs != [] {
      var init := refs[..|refs| - 1];
      var node := refs[|refs| - 1];
      LegacyMergeStore(init, st);
      LegacyMergeKept(init, st);
      var p := LegacyMerge(init, st);
      LegacyStepStore(p, node);
      var r := LegacyMerge(refs, st);
      assert r == LegacyStep(p, node);
      forall e | e in st
        ensures Grown(st[e], r.1[e])
      {
        GrownTrans(st[e], p.1[e], r.1[e]);
      }
      var prev := if p.0 == [] then node else p.0[|p.0| - 1];
      assert forall e :: e in p.1 && e != node && e != prev ==> r.1[e] == p.1[e];
      forall e | e in st && e !in init
        ensures e in st && e !in refs ==> p.1[e] == st[e]
      {
      }
      AgreeOutside(refs, st, p.1, r.1, node, prev);
    }
  }

  /** An entry listed that is not an attribute run is kept by the merge. */
  lemma {:induction false} LegacyMergeKeeps(refs: seq<Entry>, st: Store)
    requires Covers(refs, st)
    ensures var r := LegacyMerge(refs, st);
      forall e :: e in refs && !Joins(st[e].tagType) ==> e in r.0
    decreases |refs|
  {
    if refs != [] {
      var init := refs[..|refs| - 1];
      var node := refs[|refs| - 1];
      LegacyMergeKeeps(init, st);
      LegacyMergeStore(init, st);
      var p := LegacyMerge(init, st);
      LegacyStepKept(p, node);
      var r := LegacyMerge(refs, st);
      assert r == LegacyStep(p, node);
      assert Grown(st[node], p.1[node]);
      forall e | e in refs && !Joins(st[e].tagType)
        ensures e in r.0
      {
        if e != node {
          assert e in init;
        }
      }
    }
  }

  lemma LegacyMergeNext(refs: seq<Entry>, k: nat, st: Store)
    requires k < |refs| && Covers(refs, st)
    ensures Covers(refs[..k], st) && Covers(refs[..k + 1], st)
    ensures LegacyMerge(refs[..k + 1], st) == LegacyStep(LegacyMerge(refs[..k], st), refs[k])
  {
    assert refs[..k + 1][..k] == refs[..k];
  }

  /** The body of the merge loop on a node after the first: whether the node was folded into `prevNode` and dropped. */
  method MergeEntry(nodes: seq<Entry>, prevNode: Entry, node: Entry, ghost p: (seq<Entry>, Store)) returns (removed: bool)
    requires Covers(p.0, p.1) && node in p.1 && |p.0| > 0 && prevNode == p.0[|p.0| - 1]
    requires prevNode in nodes && node in nodes && Holds(nodes, p.1)
    modifies node`tagType, node`groupName, prevNode`value
    ensures LegacyStep(p, node).0 == (if removed then p.0 else p.0 + [node])
    ensures Holds(nodes, LegacyStep(p, node).1)
  {
    removed := false;
    if !(node.tagType == Attr || node.tagType == CodeValue) {
      assert LegacyStep(p, node) == (p.0 + [node], p.1);
      return;
    }
    if !(prevNode.tagType == Attr || prevNode.tagType == CodeValue || prevNode.tagType == CodeOpen || prevNode.tagType == CodeContent) {
      assert LegacyStep(p, node) == (p.0 + [node], p.1);
      return;
    }
    ghost var pt := prevNode.tagType;
    if prevNode.tagType == CodeOpen || prevNode.tagType == CodeContent {
      node.tagType := CodeContent;
      node.groupName := GetGroupName(node.tagType);
    }
    ghost var st1 := p.1[node := node.Get()];
    HoldsUpdate(nodes, p.1, node);
    if prevNode.tagType == CodeOpen {
      assert LegacyStep(p, node) == (p.0 + [node], st1);
      return;
    }
    assert pt != CodeOpen;
    prevNode.value := prevNode.value + (if node.tagType == CodeContent then " " + node.value else node.value);
    HoldsUpdate(nodes, st1, prevNode);
    assert LegacyStep(p, node) == (p.0, st1[prevNode := prevNode.Get()]);
    removed := true;
  }

  /** Splitting the unmerged rest of the list after the entries kept. */
  lemma ListStep<T>(a: seq<T>, rest: seq<T>)
    requires rest != []
    ensures (a + rest)[|a|] == rest[0]
    ensures (a + rest)[..|a|] + (a + rest)[|a| + 1..] == a + rest[1..]
    ensures a + rest == (a + [rest[0]]) + rest[1..]
    ensures |a| > 0 ==> (a + rest)[|a| - 1] == a[|a| - 1]
  {
    assert (a + rest)[..|a|] == a;
    assert (a + rest)[|a| + 1..] == rest[1..];
  }

  lemma SuffixNext<T>(s: seq<T>, k: nat)
    requires k < |s|
    ensures s[k..] != [] && s[k..][0] == s[k] && s[k..][1..] == s[k + 1..]
  {
  }

  /**
   * The state of the merge loop after `k` nodes: the list holds the entries
   * kept, followed by the nodes not yet visited, and `i` indexes the first of those.
   */
  ghost predicate Merging(nodes: seq<Entry>, st0: Store, k: int, list: seq<Entry>, i: int) {
    0 <= k <= |nodes| && Covers(nodes, st0) && Covers(nodes[..k], st0)
    && list == LegacyMerge(nodes[..k], st0).0 + nodes[k..]
    && i == |LegacyMerge(nodes[..k], st0).0|
    && |list| - i == |nodes| - k
  }

  /** One iteration of the merge loop, on the node at `i`. */
  method MergeAt(nodes: seq<Entry>, list: seq<Entry>, i: nat, ghost k: nat, ghost st0: Store)
    returns (list': seq<Entry>, i': nat)
    requires Merging(nodes, st0, k, list, i) && k < |nodes|
    requires Holds(nodes, LegacyMerge(nodes[..k], st0).1)
    modifies nodes
    ensures Merging(nodes, st0, k + 1, list', i') && |list'| - i' < |list| - i
    ensures Holds(nodes, LegacyMerge(nodes[..k + 1], st0).1)
  {
    ghost var p := LegacyMerge(nodes[..k], st0);
    LegacyMergeNext(nodes, k, st0);
    SuffixNext(nodes, k);
    ListStep(p.0, nodes[k..]);
    LegacyMergeKept(nodes[..k], st0);
    var node := list[i];
    list', i' := list, i + 1;
    if i > 0 {
      var prevNode := list[i - 1];
      assert prevNode == p.0[|p.0| - 1] && prevNode in nodes[..k];
      var removed := MergeEntry(nodes, prevNode, node, p);
      if removed {
        list' := list[..i] + list[i + 1..];
        i' := i;
      }
    } else {
      LegacyStepKept(p, node);
    }
  }

  /** `Parser.MergeNodes` (the regex parser's): folds attribute runs into the entry before them, removing them from the list. */
  method MergeNodes(nodes: seq<Entry>) returns (r: seq<Entry>)
    modifies nodes
    ensures r == LegacyMerge(nodes, old(Snapshot(nodes))).0
    ensures Holds(nodes, LegacyMerge(nodes, old(Snapshot(nodes))).1)
  {
    ghost var st0 := Snapshot(nodes);
    var list := nodes;
    ghost var k := 0;
    var i := 0;
    assert nodes[..0] == [] && nodes[0..] == nodes;
    while i < |list|
      invariant Merging(nodes, st0, k, list, i)
      invariant Holds(nodes, LegacyMerge(nodes[..k], st0).1)
      decreases |list| - i
    {
      list, i := MergeAt(nodes, list, i, k, st0);
      k := k + 1;
    }
    assert nodes[..k] == nodes;
    r := list;
  }
}
