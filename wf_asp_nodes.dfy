/**
 * The later passes of the WebForms page parser: content entries are
 * re-classified as tags, code entries are split into statements on ';',
 * children are merged into their parents, code entries are labelled with the
 * render function they belong to and the list is consolidated. `ParseLines`
 * and `ParseDocument` chain every pass.
 *
 * As in the line passes, each pass is specified against a function over a
 * `Store` (entry fields keyed by object), so that an entry reached more than
 * once through the list is a single entry.
 */
module AspNodes {
  import opened Wrappers
  import opened Strings
  import opened AspEntry
  import opened AspState
  import opened AspLines

  /** The exception the list indexer raises on a missing index. */
  datatype Fault = ArgumentOutOfRange

  function Repeat<T>(x: T, n: nat): (r: seq<T>)
    ensures |r| == n && forall i :: 0 <= i < n ==> r[i] == x
  {
    if n == 0 then [] else Repeat(x, n - 1) + [x]
  }

  lemma PrefixNext<T>(s: seq<T>, k: nat)
    requires k < |s|
    ensures s[..k + 1] == s[..k] + [s[k]]
  {
  }

  lemma MultisetSnoc<T>(s: seq<T>)
    requires |s| > 0
    ensures multiset(s) == multiset(s[..|s| - 1]) + multiset{s[|s| - 1]}
  {
    assert s == s[..|s| - 1] + [s[|s| - 1]];
  }

  // ---------------------------------------------------------------------
  // Phase IV: content entries re-classified by the tag pattern

  /** The tag type of a pattern group, as `ClassifyNode` assigns it. */
  function NodeTagType(group: string): TagType {
    if group == "open" then Open
    else if group == "close" then Close
    else if group == "comment" then Comment
    else Content
  }

  /** The fields of the entry made for the first match: the group name, and the inner text of the replaced entry as value. */
  function NodeFields(group: string, d: Fields): Fields {
    Blank.(groupName := group, value := d.innerText, innerText := d.innerText, tagType := NodeTagType(group))
  }

  /** The fourth pass looks only at markup content entries. */
  predicate Classifiable(d: Fields) {
    d.fileType != CodeBehind && d.tagType == Content
  }

  /**
   * A replacement entry keeps the text of the one it replaces, is markup, has
   * no children, and is Open, Close or Comment exactly for those three groups.
   */
  lemma NodeFieldsFacts(group: string, d: Fields)
    ensures var r := NodeFields(group, d);
      && r.value == r.innerText == d.innerText && r.groupName == group
      && r.fileType == Html && r.children == [] && r.codeFunction.None?
      && (r.tagType == Content <==> group != "open" && group != "close" && group != "comment")
      && (group == "comment" <==> r.tagType == Comment)
  {
  }

  /**
   * `Parser.ClassifyNode`: when the tag pattern matches the value (`group` is
   * the group of its first match), the entry is replaced by a new one.
   */
  method ClassifyNode(entry: Entry, group: Option<string>) returns (r: Entry)
    ensures group.None? ==> r == entry
    ensures group.Some? ==> fresh(r) && r.Get() == NodeFields(group.value, entry.Get())
  {
    if group.None? {
      return entry;
    }
    r := new Entry();
    r.groupName := group.value;
    r.innerText := entry.innerText;
    r.value := r.innerText;
    r.tagType := NodeTagType(r.groupName);
  }

  /** Position `i` of the fourth pass's result, given the entry that was there. */
  predicate Replaced(b: Entry, r: Entry, firstGroup: string -> Option<string>)
    reads b, r
  {
    if Classifiable(b.Get()) && firstGroup(b.value).Some? then r != b && r.Get() == NodeFields(firstGroup(b.value).value, b.Get())
    else r == b
  }

  /**
   * `Parser.ProcessLine4`: every markup content entry whose value the tag
   * pattern matches is replaced in the list by a new entry; the others stay.
   * `firstGroup` stands for the pattern: the group of its first match in a value.
   */
  method ProcessLine4(blocks: seq<Entry>, firstGroup: string -> Option<string>) returns (r: seq<Entry>)
    ensures |r| == |blocks|
    ensures forall i :: 0 <= i < |r| ==> Replaced(blocks[i], r[i], firstGroup)
    ensures forall i :: 0 <= i < |r| ==> r[i] == blocks[i] || fresh(r[i])
  {
    r := blocks;
    var idx := 0;
    while idx < |r|
      invariant 0 <= idx <= |r| == |blocks|
      invariant forall i :: 0 <= i < idx ==> Replaced(blocks[i], r[i], firstGroup)
      invariant forall i :: 0 <= i < |r| ==> r[i] == blocks[i] || fresh(r[i])
      invariant forall i :: idx <= i < |r| ==> r[i] == blocks[i]
    {
      var block := r[idx];
      if block.fileType == CodeBehind || block.tagType != Content {
        idx := idx + 1;
        continue;
      }
      block := ClassifyNode(block, firstGroup(block.value));
      r := r[idx := block];
      idx := idx + 1;
    }
  }

  // ---------------------------------------------------------------------
  // Splitting code entries into statements

  /** The delimiter the parser splits code entries on. */
  const Delimiter: string := ";"

  /** The six characters `"\r\n"`, quotes included, as they appear in code. */
  const QuotedNewLine: string := "\"\\r\\n\""

  /** One piece of a split code line: the quoted line break spelled out, then trimmed. */
  function Piece(block: string): string {
    Trim(Replace(block, QuotedNewLine, "Environment.NewLine"))
  }

  /** The statements a split line yields: each non-empty piece with ';' appended. */
  function Pieces(blocks: seq<string>): seq<string>
    decreases |blocks|
  {
    if blocks == [] then []
    else
      var p := Piece(blocks[|blocks| - 1]);
      Pieces(blocks[..|blocks| - 1]) + (if p == "" then [] else [p + Delimiter])
  }

  /** Every statement is non-empty before its ';', and there is at most one per piece. */
  lemma {:induction false} PiecesFacts(blocks: seq<string>)
    ensures |Pieces(blocks)| <= |blocks|
    ensures forall p :: p in Pieces(blocks) ==> |p| >= 2 && p[|p| - 1] == ';'
    decreases |blocks|
  {
    if blocks != [] {
      PiecesFacts(blocks[..|blocks| - 1]);
    }
  }

  /** The fields of an entry after the statements `ps` were written to it in turn: the last one wins. */
  function WithPieces(d: Fields, ps: seq<string>): Fields {
    if ps == [] then d else d.(value := ps[|ps| - 1], innerText := ps[|ps| - 1])
  }

  /**
   * `Parser.SplitCodeLine` on one code entry: how many times the entry is
   * added to the output list, and its fields afterwards. An inline expression
   * becomes markup content; a line with at most one ';' stays whole; a tag
   * becomes a code open or close tag; any other line is added once per
   * statement, all additions being the same entry.
   */
  function SplitLine(d: Fields): (nat, Fields) {
    if Contains(d.value, "<%=") then (1, d.(fileType := Html, tagType := Content))
    else if |Split(d.value, Delimiter)| <= 2 then (1, d)
    else if StartsWith(d.value, "<") then (1, d.(tagType := if StartsWith(d.value, "</") then CodeClose else CodeOpen))
    else
      var ps := Pieces(Split(d.value, Delimiter));
      (|ps|, WithPieces(d, ps))
  }

  /**
   * A split line is added once per statement and holds the last statement,
   * which ends in ';'; it disappears only when every piece is blank. Splitting
   * changes nothing but value and inner text, or the types in the other cases.
   */
  lemma SplitLineFacts(d: Fields)
    ensures var r := SplitLine(d);
      && (r.0 == 0 ==> r.1 == d && |Split(d.value, Delimiter)| > 2 && !Contains(d.value, "<%="))
      && (r.0 > 1 ==>
            r.1 == d.(value := r.1.value, innerText := r.1.value) && |r.1.value| >= 2 && r.1.value[|r.1.value| - 1] == ';')
      && r.1.children == d.children && r.1.codeFunction == d.codeFunction
  {
    var bs := Split(d.value, Delimiter);
    if !Contains(d.value, "<%=") && |bs| > 2 && !StartsWith(d.value, "<") {
      PiecesFacts(bs);
      var ps := Pieces(bs);
      if ps != [] {
        assert ps[|ps| - 1] in ps;
      }
    }
  }

  lemma PiecesNext(blocks: seq<string>, i: nat)
    requires i < |blocks|
    ensures var p := Piece(blocks[i]);
      Pieces(blocks[..i + 1]) == Pieces(blocks[..i]) + (if p == "" then [] else [p + Delimiter])
  {
    assert blocks[..i + 1][..i] == blocks[..i];
  }

  /** `Parser.SplitCodeLine`: adds a code entry to `nodes` once per statement, writing each statement to it. */
  method SplitCodeLine(nodes: seq<Entry>, entry: Entry) returns (r: seq<Entry>)
    modifies entry
    ensures r == nodes + Repeat(entry, SplitLine(old(entry.Get())).0)
    ensures entry.Get() == SplitLine(old(entry.Get())).1
  {
    var codeBlock := entry.value;
    var blocks := Split(codeBlock, Delimiter);
    if Contains(entry.value, "<%=") {
      entry.fileType := Html;
      entry.tagType := Content;
      return nodes + [entry];
    }
    if |blocks| <= 2 {
      return nodes + [entry];
    }
    if StartsWith(entry.value, "<") {
      var close := StartsWith(entry.value, "</");
      entry.tagType := if close then CodeClose else CodeOpen;
      return nodes + [entry];
    }
    r := WriteStatements(nodes, entry, blocks);
  }

  /** The statement loop of `Parser.SplitCodeLine`: each non-blank piece is written to the entry, which is added again. */
  method WriteStatements(nodes: seq<Entry>, entry: Entry, blocks: seq<string>) returns (r: seq<Entry>)
    modifies entry
    ensures r == nodes + Repeat(entry, |Pieces(blocks)|)
    ensures entry.Get() == WithPieces(old(entry.Get()), Pieces(blocks))
  {
    ghost var d0 := entry.Get();
    r := nodes;
    var i := 0;
    while i < |blocks|
      invariant 0 <= i <= |blocks|
      invariant r == nodes + Repeat(entry, |Pieces(blocks[..i])|)
      invariant entry.Get() == WithPieces(d0, Pieces(blocks[..i]))
    {
      PiecesNext(blocks, i);
      var value := TrimEnd(TrimStart(Replace(blocks[i], QuotedNewLine, "Environment.NewLine")));
      if value != "" {
        value := value + ";";
        entry.value := value;
        entry.innerText := value;
        r := r + [entry];
      }
      i := i + 1;
    }
    assert blocks[..i] == blocks;
  }

  /** One step of the split: a markup or comment entry passes through, a code entry is split. */
  function SplitStep(p: (seq<Entry>, Store), e: Entry): (seq<Entry>, Store)
    requires e in p.1
  {
    var d := p.1[e];
    if d.fileType == Html || d.tagType == Comment then (p.0 + [e], p.1)
    else (p.0 + Repeat(e, SplitLine(d).0), p.1[e := SplitLine(d).1])
  }

  /** The split over a list: the output list and the fields of every entry. */
  function SplitAll(refs: seq<Entry>, st: Store): (r: (seq<Entry>, Store))
    requires Covers(refs, st)
    ensures r.1.Keys == st.Keys
    decreases |refs|
  {
    if refs == [] then ([], st)
    else SplitStep(SplitAll(refs[..|refs| - 1], st), refs[|refs| - 1])
  }

  /** The split only outputs entries of its input, and leaves every other entry alone. */
  lemma {:induction false} SplitAllFrom(refs: seq<Entry>, st: Store)
    requires Covers(refs, st)
    ensures forall e :: e in SplitAll(refs, st).0 ==> e in refs
    ensures forall e :: e in st && e !in refs ==> SplitAll(refs, st).1[e] == st[e]
    decreases |refs|
  {
    if refs != [] {
      var init := refs[..|refs| - 1];
      SplitAllFrom(init, st);
      assert forall e :: e in init ==> e in refs;
    }
  }

  lemma SplitAllNext(refs: seq<Entry>, k: nat, st: Store)
    requires k < |refs| && Covers(refs, st)
    ensures Covers(refs[..k], st) && Covers(refs[..k + 1], st)
    ensures refs[k] in SplitAll(refs[..k], st).1
    ensures SplitAll(refs[..k + 1], st) == SplitStep(SplitAll(refs[..k], st), refs[k])
  {
    assert refs[..k + 1][..k] == refs[..k];
  }

  /** The body of the split loop on one entry. */
  method SplitEntry(nodes: seq<Entry>, tempNodes: seq<Entry>, entry: Entry, ghost p: (seq<Entry>, Store))
    returns (r: seq<Entry>)
    requires entry in nodes && tempNodes == p.0 && Holds(nodes, p.1)
    modifies entry
    ensures entry in p.1 && r == SplitStep(p, entry).0 && Holds(nodes, SplitStep(p, entry).1)
  {
    if entry.fileType == Html || entry.tagType == Comment {
      r := tempNodes + [entry];
    } else {
      r := SplitCodeLine(tempNodes, entry);
      HoldsUpdate(nodes, p.1, entry);
    }
  }

  /** `Parser.SplitCodeBlocks`: a new list in which every code entry is split into its statements. */
  method SplitCodeBlocks(nodes: seq<Entry>) returns (tempNodes: seq<Entry>)
    modifies nodes
    ensures tempNodes == SplitAll(nodes, old(Snapshot(nodes))).0
    ensures Holds(nodes, SplitAll(nodes, old(Snapshot(nodes))).1)
    ensures forall i :: 0 <= i < |tempNodes| ==> tempNodes[i] in nodes
  {
    ghost var st0 := Snapshot(nodes);
    tempNodes := [];
    var idx := 0;
    while idx < |nodes|
      invariant 0 <= idx <= |nodes|
      invariant tempNodes == SplitAll(nodes[..idx], st0).0
      invariant Holds(nodes, SplitAll(nodes[..idx], st0).1)
    {
      ghost var p := SplitAll(nodes[..idx], st0);
      SplitAllNext(nodes, idx, st0);
      tempNodes := SplitEntry(nodes, tempNodes, nodes[idx], p);
      idx := idx + 1;
    }
    assert nodes[..idx] == nodes;
    SplitAllFrom(nodes, st0);
  }

  // ---------------------------------------------------------------------
  // Merging children into their parents

  /** `Parser.HasChildren`: the tag types that may take children. */
  predicate HasChildren(t: TagType) {
    t == CodeOpen || t == Open || t == Comment
  }

  /** `Parser.GetOpenTagType`: what an open tag takes as children. */
  predicate GetOpenTagType(t: TagType) {
    t == Content || t == Script
  }

  /** `Parser.IsChild`: comments take comments, open tags take content and script, code openers take code content. */
  predicate IsChild(prev: TagType, t: TagType) {
    match prev
    case Comment => t == Comment
    case Open => GetOpenTagType(t)
    case CodeOpen => t == CodeContent
    case _ => false
  }

  /** Only a tag type that may take children takes any: the outer test of the merge is implied by the inner one. */
  lemma IsChildHasChildren(prev: TagType, t: TagType)
    ensures IsChild(prev, t) ==> HasChildren(prev)
    ensures HasChildren(prev) ==> exists c :: IsChild(prev, c)
  {
    if prev == Comment {
      assert IsChild(prev, Comment);
    } else if prev == Open {
      assert IsChild(prev, Content);
    } else if prev == CodeOpen {
      assert IsChild(prev, CodeContent);
    }
  }

  /** The merge's result: the top-level entries, the entries attached as children, and the fields of every entry. */
  datatype Merged = Merged(kept: seq<Entry>, attached: seq<Entry>, st: Store)

  /** One step of the merge: `node` becomes a child of the last kept entry when that one may take it, and is kept otherwise. */
  function Attach(p: Merged, node: Entry): Merged
    requires |p.kept| > 0 && p.kept[|p.kept| - 1] in p.st && node in p.st
  {
    var prev := p.kept[|p.kept| - 1];
    if HasChildren(p.st[prev].tagType) && IsChild(p.st[prev].tagType, p.st[node].tagType) then
      Merged(p.kept, p.attached + [node], p.st[prev := p.st[prev].(children := p.st[prev].children + [node])])
    else
      Merged(p.kept + [node], p.attached, p.st)
  }

  lemma AttachCases(p: Merged, node: Entry, dp: Fields, dn: Fields)
    requires |p.kept| > 0 && p.kept[|p.kept| - 1] in p.st && node in p.st
    requires p.st[p.kept[|p.kept| - 1]] == dp && p.st[node] == dn
    ensures HasChildren(dp.tagType) && IsChild(dp.tagType, dn.tagType) ==>
      Attach(p, node) == Merged(p.kept, p.attached + [node], p.st[p.kept[|p.kept| - 1] := dp.(children := dp.children + [node])])
    ensures !(HasChildren(dp.tagType) && IsChild(dp.tagType, dn.tagType)) ==>
      Attach(p, node) == Merged(p.kept + [node], p.attached, p.st)
  {
  }

  /** The merge over a non-empty list: the first entry is kept, the others attached in turn. */
  function Merge(refs: seq<Entry>, st: Store): (r: Merged)
    requires |refs| > 0 && Covers(refs, st)
    ensures r.st.Keys == st.Keys && |r.kept| > 0 && r.kept[0] == refs[0]
    ensures forall e :: e in r.kept ==> e in refs
    decreases |refs|
  {
    if |refs| == 1 then Merged([refs[0]], [], st)
    else
      var p := Merge(refs[..|refs| - 1], st);
      assert p.kept[|p.kept| - 1] in refs[..|refs| - 1];
      Attach(p, refs[|refs| - 1])
  }

  lemma AttachPartition(p: Merged, node: Entry)
    requires |p.kept| > 0 && p.kept[|p.kept| - 1] in p.st && node in p.st
    ensures var r := Attach(p, node);
      multiset(r.kept) + multiset(r.attached) == multiset(p.kept) + multiset(p.attached) + multiset{node}
  {
  }

  /** Every entry of the list ends up exactly once either at the top level or attached as a child. */
  lemma {:induction false} MergePartition(refs: seq<Entry>, st: Store)
    requires |refs| > 0 && Covers(refs, st)
    ensures var r := Merge(refs, st); multiset(r.kept) + multiset(r.attached) == multiset(refs)
    decreases |refs|
  {
    if |refs| > 1 {
      var init := refs[..|refs| - 1];
      MergePartition(init, st);
      var p := Merge(init, st);
      var node := refs[|refs| - 1];
      assert p.kept[|p.kept| - 1] in init;
      AttachPartition(p, node);
      assert Merge(refs, st) == Attach(p, node);
      MultisetSnoc(refs);
    } else {
      assert refs == [refs[0]];
    }
  }

  /** The merge changes no field but the children, and only appends to them. */
  lemma {:induction false} MergeAppends(refs: seq<Entry>, st: Store)
    requires |refs| > 0 && Covers(refs, st)
    ensures var r := Merge(refs, st);
      forall e :: e in st ==> r.st[e] == st[e].(children := r.st[e].children) && st[e].children <= r.st[e].children
    decreases |refs|
  {
    if |refs| > 1 {
      var init := refs[..|refs| - 1];
      MergeAppends(init, st);
      var p := Merge(init, st);
      var r := Merge(refs, st);
      assert p.kept[|p.kept| - 1] in init;
      assert r == Attach(p, refs[|refs| - 1]);
      forall e | e in st
        ensures r.st[e] == st[e].(children := r.st[e].children) && st[e].children <= r.st[e].children
      {
        assert p.st[e].children <= r.st[e].children;
      }
    }
  }

  lemma MergeNext(refs: seq<Entry>, k: nat, st: Store)
    requires 0 < k < |refs| && Covers(refs, st)
    ensures Covers(refs[..k], st) && Covers(refs[..k + 1], st)
    ensures var p := Merge(refs[..k], st);
      p.kept[|p.kept| - 1] in p.st && refs[k] in p.st && Merge(refs[..k + 1], st) == Attach(p, refs[k])
  {
    assert refs[..k + 1][..k] == refs[..k];
  }

  /** The body of the merge loop: attaches `node` to the last kept entry or keeps it. */
  method AttachNode(nodes: seq<Entry>, htmlBlocks: seq<Entry>, prevNode: Entry, node: Entry, ghost p: Merged)
    returns (r: seq<Entry>)
    requires htmlBlocks == p.kept && |p.kept| > 0 && prevNode == p.kept[|p.kept| - 1]
    requires prevNode in nodes && node in nodes && Holds(nodes, p.st)
    modifies prevNode`children
    ensures r == Attach(p, node).kept && Holds(nodes, Attach(p, node).st)
  {
    AttachCases(p, node, prevNode.Get(), node.Get());
    if HasChildren(prevNode.tagType) && IsChild(prevNode.tagType, node.tagType) {
      prevNode.children := prevNode.children + [node];
      HoldsUpdate(nodes, p.st, prevNode);
      r := htmlBlocks;
    } else {
      r := htmlBlocks + [node];
    }
  }

  /** `Parser.MergeNodes`: fails on an empty list, as indexing its first entry does. */
  method MergeNodes(nodes: seq<Entry>) returns (r: Result<seq<Entry>, Fault>)
    modifies nodes
    ensures |nodes| == 0 ==> r == Failure(ArgumentOutOfRange)
    ensures |nodes| > 0 ==> r == Success(Merge(nodes, old(Snapshot(nodes))).kept)
    ensures |nodes| > 0 ==> Holds(nodes, Merge(nodes, old(Snapshot(nodes))).st)
    ensures r.Success? ==> forall i :: 0 <= i < |r.value| ==> r.value[i] in nodes
  {
    if |nodes| == 0 {
      return Failure(ArgumentOutOfRange);
    }
    ghost var st0 := Snapshot(nodes);
    assert nodes[..1] == [nodes[0]];
    var htmlBlocks := [nodes[0]];
    var idx := 1;
    while idx < |nodes|
      invariant 1 <= idx <= |nodes|
      invariant htmlBlocks == Merge(nodes[..idx], st0).kept
      invariant Holds(nodes, Merge(nodes[..idx], st0).st)
    {
      ghost var p := Merge(nodes[..idx], st0);
      MergeNext(nodes, idx, st0);
      assert htmlBlocks[|htmlBlocks| - 1] in nodes[..idx];
      var prevNode := htmlBlocks[|htmlBlocks| - 1];
      var node := nodes[idx];
      htmlBlocks := AttachNode(nodes, htmlBlocks, prevNode, node, p);
      idx := idx + 1;
    }
    assert nodes[..idx] == nodes;
    return Success(htmlBlocks);
  }

  // ---------------------------------------------------------------------
  // Phase IV: render function names

  /** The name of the `n`th render function. */
  function FunctionName(n: nat): string {
    "render_logic_" + FormatD2(n)
  }

  /** A markup entry that is not a comment, right after a code-behind entry: the next render function starts. */
  predicate Boundary(prev: Fields, d: Fields) {
    d.fileType == Html && d.tagType != Comment && prev.fileType == CodeBehind
  }

  /** The labelling state: the fields of every entry and the current function number. */
  datatype Labelled = Labelled(st: Store, funcCount: nat)

  /** One step of the labelling: a code-behind entry is named after the current function. */
  function LabelStep(p: Labelled, prev: Entry, e: Entry): Labelled
    requires prev in p.st && e in p.st
  {
    var st1 := if p.st[e].fileType == CodeBehind then p.st[e := p.st[e].(codeFunction := Some(FunctionName(p.funcCount)))] else p.st;
    Labelled(st1, if Boundary(st1[prev], st1[e]) then p.funcCount + 1 else p.funcCount)
  }

  /** The labelling over a non-empty list; the first entry is never labelled. */
  function Label(refs: seq<Entry>, st: Store): (r: Labelled)
    requires |refs| > 0 && Covers(refs, st)
    ensures r.st.Keys == st.Keys
    decreases |refs|
  {
    if |refs| == 1 then Labelled(st, 1)
    else LabelStep(Label(refs[..|refs| - 1], st), refs[|refs| - 2], refs[|refs| - 1])
  }

  /** The number of render-function boundaries in a list, by the entries' fields. */
  function Boundaries(refs: seq<Entry>, st: Store): nat
    requires Covers(refs, st)
    decreases |refs|
  {
    if |refs| < 2 then 0
    else Boundaries(refs[..|refs| - 1], st) + (if Boundary(st[refs[|refs| - 2]], st[refs[|refs| - 1]]) then 1 else 0)
  }

  /**
   * Labelling changes nothing but the function name, and names only
   * code-behind entries; the final function number is one more than the
   * number of boundaries from code-behind to markup.
   */
  lemma {:induction false} LabelFacts(refs: seq<Entry>, st: Store)
    requires |refs| > 0 && Covers(refs, st)
    ensures var r := Label(refs, st);
      && (forall e :: e in st ==> r.st[e] == st[e].(codeFunction := r.st[e].codeFunction))
      && (forall e :: e in st && r.st[e] != st[e] ==> st[e].fileType == CodeBehind && r.st[e].codeFunction.Some?)
      && r.funcCount == 1 + Boundaries(refs, st)
    decreases |refs|
  {
    if |refs| > 1 {
      var init := refs[..|refs| - 1];
      LabelFacts(init, st);
      var p := Label(init, st);
      var prev := refs[|refs| - 2];
      var e := refs[|refs| - 1];
      assert prev == init[|init| - 1];
      var r := LabelStep(p, prev, e);
      assert Label(refs, st) == r;
      assert r.st[prev].fileType == st[prev].fileType && r.st[e].fileType == st[e].fileType && r.st[e].tagType == st[e].tagType;
      assert Boundaries(refs, st) == Boundaries(init, st) + (if Boundary(st[prev], st[e]) then 1 else 0);
    }
  }

  lemma LabelNext(refs: seq<Entry>, k: nat, st: Store)
    requires 0 < k < |refs| && Covers(refs, st)
    ensures Covers(refs[..k], st) && Covers(refs[..k + 1], st)
    ensures Label(refs[..k + 1], st) == LabelStep(Label(refs[..k], st), refs[k - 1], refs[k])
  {
    assert refs[..k + 1][..k] == refs[..k];
  }

  /** The body of the labelling loop on one entry. */
  method LabelEntry(entries: seq<Entry>, prevEntry: Entry, entry: Entry, funcCount: nat, ghost p: Labelled)
    returns (count: nat)
    requires prevEntry in entries && entry in entries && Holds(entries, p.st) && funcCount == p.funcCount
    modifies entry`codeFunction
    ensures Holds(entries, LabelStep(p, prevEntry, entry).st) && count == LabelStep(p, prevEntry, entry).funcCount
  {
    count := funcCount;
    if entry.fileType == CodeBehind {
      entry.codeFunction := Some(FunctionName(funcCount));
      HoldsUpdate(entries, p.st, entry);
    }
    if entry.fileType == Html && entry.tagType != Comment {
      if prevEntry.fileType == CodeBehind {
        count := count + 1;
      }
    }
  }

  /** `Parser.LabelCodeFunctions`: names the render function of every code-behind entry after the first. */
  method LabelCodeFunctions(entries: seq<Entry>) returns (nodes: seq<Entry>)
    requires |entries| > 0
    modifies entries
    ensures nodes == entries
    ensures Holds(entries, Label(entries, old(Snapshot(entries))).st)
  {
    ghost var st0 := Snapshot(entries);
    nodes := [entries[0]];
    var funcCount := 1;
    var idx := 1;
    while idx < |entries|
      invariant 1 <= idx <= |entries|
      invariant nodes == entries[..idx]
      invariant Holds(entries, Label(entries[..idx], st0).st) && funcCount == Label(entries[..idx], st0).funcCount
    {
      ghost var p := Label(entries[..idx], st0);
      LabelNext(entries, idx, st0);
      var prevEntry := nodes[|nodes| - 1];
      var entry := entries[idx];
      funcCount := LabelEntry(entries, prevEntry, entry, funcCount, p);
      PrefixNext(entries, idx);
      nodes := nodes + [entry];
      idx := idx + 1;
    }
    assert entries[..idx] == entries;
  }

  // ---------------------------------------------------------------------
  // Phase V: consolidation

  /** An entry that needs children and has none yet takes the entry after it. */
  predicate Absorbs(d: Fields) {
    RequiresChildren(d.value) && |d.children| == 0
  }

  /** `entries` with the entry at `i` removed, as `List.RemoveAt` does. */
  function RemoveAt(entries: seq<Entry>, i: nat): (r: seq<Entry>)
    requires i < |entries|
    ensures |r| == |entries| - 1
    ensures forall e :: e in r ==> e in entries
  {
    entries[..i] + entries[i + 1..]
  }

  /**
   * The consolidation loop from position `idx`, with the entries kept so far:
   * an entry that absorbs takes the next entry as its child, which is removed
   * from the list; absorbing past the end of the list fails.
   */
  function Absorb(entries: seq<Entry>, idx: nat, st: Store, nodes: seq<Entry>): (r: Result<(seq<Entry>, Store), Fault>)
    requires idx <= |entries| && Covers(entries, st) && Covers(nodes, st)
    ensures r.Success? ==> r.value.1.Keys == st.Keys && Covers(r.value.0, r.value.1)
    decreases |entries| - idx
  {
    if idx == |entries| then Success((nodes, st))
    else
      var e := entries[idx];
      if !Absorbs(st[e]) then Absorb(entries, idx + 1, st, nodes + [e])
      else if idx + 1 >= |entries| then Failure(ArgumentOutOfRange)
      else
        var st1 := st[e := st[e].(children := st[e].children + [entries[idx + 1]])];
        Absorb(RemoveAt(entries, idx + 1), idx + 1, st1, nodes + [e])
  }

  lemma AbsorbStep(entries: seq<Entry>, idx: nat, st: Store, nodes: seq<Entry>)
    requires idx < |entries| && Covers(entries, st) && Covers(nodes, st)
    ensures var e := entries[idx];
      && (!Absorbs(st[e]) ==> Absorb(entries, idx, st, nodes) == Absorb(entries, idx + 1, st, nodes + [e]))
      && (Absorbs(st[e]) && idx + 1 >= |entries| ==> Absorb(entries, idx, st, nodes) == Failure(ArgumentOutOfRange))
      && (Absorbs(st[e]) && idx + 1 < |entries| ==>
            Absorb(entries, idx, st, nodes) ==
            Absorb(RemoveAt(entries, idx + 1), idx + 1, st[e := st[e].(children := st[e].children + [entries[idx + 1]])], nodes + [e]))
  {
  }

  /** Without an entry that absorbs, the loop keeps every remaining entry and changes nothing. */
  lemma {:induction false} AbsorbNone(entries: seq<Entry>, idx: nat, st: Store, nodes: seq<Entry>)
    requires idx <= |entries| && Covers(entries, st) && Covers(nodes, st)
    requires forall i :: idx <= i < |entries| ==> !Absorbs(st[entries[i]])
    ensures Absorb(entries, idx, st, nodes) == Success((nodes + entries[idx..], st))
    decreases |entries| - idx
  {
    if idx < |entries| {
      AbsorbNone(entries, idx + 1, st, nodes + [entries[idx]]);
      assert entries[idx..] == [entries[idx]] + entries[idx + 1..];
      assert (nodes + [entries[idx]]) + entries[idx + 1..] == nodes + entries[idx..];
    } else {
      assert nodes + entries[idx..] == nodes;
    }
  }

  /** An absorbing last entry has nothing to take: the loop fails. */
  lemma AbsorbLast(entries: seq<Entry>, st: Store, nodes: seq<Entry>)
    requires |entries| > 0 && Covers(entries, st) && Covers(nodes, st) && Absorbs(st[entries[|entries| - 1]])
    ensures Absorb(entries, |entries| - 1, st, nodes) == Failure(ArgumentOutOfRange)
  {
  }

  /**
   * After the loop, a trailing content entry becomes a child of the entry
   * before it; with no entry before it, indexing fails.
   */
  function Finish(nodes: seq<Entry>, st: Store): Result<(seq<Entry>, Store), Fault>
    requires Covers(nodes, st)
  {
    if |nodes| == 0 then Success((nodes, st))
    else
      var last := nodes[|nodes| - 1];
      if st[last].tagType != Content then Success((nodes, st))
      else if |nodes| < 2 then Failure(ArgumentOutOfRange)
      else
        var p := nodes[|nodes| - 2];
        Success((nodes[..|nodes| - 1], st[p := st[p].(children := st[p].children + [last])]))
  }

  /** The final step fails exactly on a lone content entry, and otherwise drops at most the trailing content entry. */
  lemma FinishFacts(nodes: seq<Entry>, st: Store)
    requires Covers(nodes, st)
    ensures Finish(nodes, st).Failure? <==> |nodes| == 1 && st[nodes[0]].tagType == Content
    ensures Finish(nodes, st).Success? ==>
      var r := Finish(nodes, st).value.0;
      r <= nodes && |nodes| - 1 <= |r| && (|r| < |nodes| <==> |nodes| >= 2 && st[nodes[|nodes| - 1]].tagType == Content)
  {
  }

  /** The whole consolidation. */
  function Consolidate(entries: seq<Entry>, st: Store): Result<(seq<Entry>, Store), Fault>
    requires Covers(entries, st)
  {
    var a := Absorb(entries, 0, st, []);
    if a.Failure? then a else Finish(a.value.0, a.value.1)
  }

  /** The body of the consolidation loop when `entry` absorbs the entry after it. */
  method AbsorbNext(entries: seq<Entry>, entry: Entry, next: Entry, ghost st: Store)
    requires entry in entries && Holds(entries, st)
    modifies entry`children
    ensures Holds(entries, st[entry := st[entry].(children := st[entry].children + [next])])
  {
    entry.children := entry.children + [next];
    HoldsUpdate(entries, st, entry);
  }

  /** The end of `Parser.ConsolidateNodes`: a trailing content entry becomes a child of the one before. */
  method FinishNodes(entries: seq<Entry>, nodes: seq<Entry>, ghost st: Store) returns (r: Result<seq<Entry>, Fault>)
    requires Covers(nodes, st) && Holds(entries, st) && forall e :: e in nodes ==> e in entries
    modifies entries
    ensures r.Failure? <==> Finish(nodes, st).Failure?
    ensures r.Success? ==> r.value == Finish(nodes, st).value.0 && Holds(entries, Finish(nodes, st).value.1)
    ensures r.Success? ==> forall i :: 0 <= i < |r.value| ==> r.value[i] in entries
  {
    if |nodes| == 0 {
      return Success(nodes);
    }
    if nodes[|nodes| - 1].tagType != Content {
      return Success(nodes);
    }
    if |nodes| < 2 {
      return Failure(ArgumentOutOfRange);
    }
    var prev := nodes[|nodes| - 2];
    assert prev in nodes;
    AbsorbNext(entries, prev, nodes[|nodes| - 1], st);
    return Success(nodes[..|nodes| - 1]);
  }

  /** The body of the consolidation loop at position `idx`; `ok` is false where indexing fails. */
  method AbsorbEntry(entries: seq<Entry>, es: seq<Entry>, idx: nat, nodes: seq<Entry>, ghost st: Store)
    returns (ok: bool, es': seq<Entry>, nodes': seq<Entry>, ghost st': Store)
    requires idx < |es| && Covers(es, st) && Covers(nodes, st) && Holds(entries, st)
    requires forall e :: e in es ==> e in entries
    requires forall e :: e in nodes ==> e in entries
    modifies entries
    ensures ok ==> idx + 1 <= |es'| <= |es|
    ensures ok ==> st'.Keys == st.Keys && Covers(es', st') && Covers(nodes', st') && Holds(entries, st')
    ensures ok ==> (forall e :: e in es' ==> e in entries) && (forall e :: e in nodes' ==> e in entries)
    ensures ok ==> Absorb(es', idx + 1, st', nodes') == Absorb(es, idx, st, nodes)
    ensures !ok ==> Absorb(es, idx, st, nodes) == Failure(ArgumentOutOfRange)
  {
    var entry := es[idx];
    AbsorbStep(es, idx, st, nodes);
    assert entry in entries;
    if !(entry.NeedsChildren() && !entry.HasChildren()) {
      return true, es, nodes + [entry], st;
    }
    if idx + 1 >= |es| {
      return false, es, nodes, st;
    }
    var next := es[idx + 1];
    AbsorbNext(entries, entry, next, st);
    st' := st[entry := st[entry].(children := st[entry].children + [next])];
    es' := RemoveAt(es, idx + 1);
    nodes' := nodes + [entry];
    ok := true;
  }

  /** `Parser.ConsolidateNodes`: absorbs the entry after each childless "select", then folds a trailing content entry into the one before. */
  method ConsolidateNodes(entries: seq<Entry>) returns (r: Result<seq<Entry>, Fault>)
    modifies entries
    ensures var c := Consolidate(entries, old(Snapshot(entries)));
      && (r.Failure? <==> c.Failure?)
      && (r.Success? ==> r.value == c.value.0 && Holds(entries, c.value.1))
    ensures r.Success? ==> forall i :: 0 <= i < |r.value| ==> r.value[i] in entries
  {
    ghost var st0 := Snapshot(entries);
    ghost var st := st0;
    var nodes: seq<Entry> := [];
    var es := entries;
    var idx := 0;
    while idx < |es|
      invariant 0 <= idx <= |es|
      invariant st.Keys == st0.Keys && Covers(es, st) && Covers(nodes, st)
      invariant forall e :: e in es ==> e in entries
      invariant forall e :: e in nodes ==> e in entries
      invariant Holds(entries, st)
      invariant Absorb(es, idx, st, nodes) == Absorb(entries, 0, st0, [])
      decreases |es| - idx
    {
      var ok;
      ok, es, nodes, st := AbsorbEntry(entries, es, idx, nodes, st);
      if !ok {
        return Failure(ArgumentOutOfRange);
      }
      idx := idx + 1;
    }
    assert Absorb(entries, 0, st0, []) == Success((nodes, st));
    r := FinishNodes(entries, nodes, st);
  }

  // ---------------------------------------------------------------------
  // The whole parse

  /** The fields `st` records for the entries of `refs`, and for no other entry. */
  function Restrict(st: Store, refs: seq<Entry>): (r: Store)
    requires Covers(refs, st)
    ensures r.Keys == set e | e in refs
    ensures forall e :: e in r ==> r[e] == st[e]
  {
    map e | e in refs :: st[e]
  }

  /**
   * `n4` and its fields `st4` are what the fourth pass makes of the entries
   * `refs` with fields `st`: a markup content entry whose value the tag
   * pattern matches is replaced by a new entry with the fields of that match,
   * every other entry stays as it is.
   */
  predicate Reclassified(refs: seq<Entry>, st: Store, n4: seq<Entry>, st4: Store, firstGroup: string -> Option<string>)
    requires Covers(refs, st)
  {
    && |n4| == |refs| && Covers(n4, st4)
    && forall i :: 0 <= i < |refs| ==>
      var d := st[refs[i]];
      if Classifiable(d) && firstGroup(d.value).Some? then n4[i] !in refs && st4[n4[i]] == NodeFields(firstGroup(d.value).value, d)
      else n4[i] == refs[i] && st4[n4[i]] == d
  }

  /**
   * The last two passes on the entries `n4` with fields `st4`: the code
   * entries are split into statements, then children are merged into their
   * parents; merging fails when the split leaves no entry.
   */
  function MergeSplit(n4: seq<Entry>, st4: Store): (r: Result<Merged, Fault>)
    requires Covers(n4, st4)
    ensures r.Failure? <==> |SplitAll(n4, st4).0| == 0
    ensures r.Success? ==> |r.value.kept| > 0 && Covers(r.value.kept, r.value.st)
  {
    var sp := SplitAll(n4, st4);
    SplitAllFrom(n4, st4);
    if |sp.0| == 0 then Failure(ArgumentOutOfRange)
    else Success(Merge(sp.0, Restrict(sp.1, sp.0)))
  }

  /** Every entry the split outputs is, after merging, either at the top level or a child, exactly once. */
  lemma MergeSplitPartition(n4: seq<Entry>, st4: Store)
    requires Covers(n4, st4) && MergeSplit(n4, st4).Success?
    ensures var m := MergeSplit(n4, st4).value;
      multiset(m.kept) + multiset(m.attached) == multiset(SplitAll(n4, st4).0)
  {
    var sp := SplitAll(n4, st4);
    SplitAllFrom(n4, st4);
    MergePartition(sp.0, Restrict(sp.1, sp.0));
  }

  /**
   * The passes of `Parser.ParseDocument` after `ParseLines` on its merged
   * entries: render functions are named, then the list is consolidated.
   */
  function Finished(m: Merged): Result<(seq<Entry>, Store), Fault>
    requires |m.kept| > 0 && Covers(m.kept, m.st)
  {
    var st := Restrict(m.st, m.kept);
    Consolidate(m.kept, Label(m.kept, st).st)
  }

  /** The labelling of a parsed page counts one render function more than it has boundaries, and names only code-behind entries. */
  lemma FinishedLabels(m: Merged)
    requires |m.kept| > 0 && Covers(m.kept, m.st)
    ensures var st := Restrict(m.st, m.kept); var l := Label(m.kept, st);
      && l.funcCount == 1 + Boundaries(m.kept, st)
      && forall e :: e in st && l.st[e] != st[e] ==> st[e].fileType == CodeBehind && l.st[e].codeFunction.Some?
  {
    LabelFacts(m.kept, Restrict(m.st, m.kept));
  }

  /** The first loop of `Parser.ParseLines` from a new state, which it leaves with the comment flag cleared. */
  method MakeEntries(lines: seq<string>) returns (nodes: seq<Entry>, state: State)
    ensures fresh(state) && state.Get() == Initial
    ensures |nodes| == 0 <==> forall i :: 0 <= i < |lines| ==> Stripped(lines[i]) == ""
    ensures Distinct(nodes) && |nodes| == |ClassifyLines(lines, false).0|
    ensures Snapshot(nodes) == LineStore(nodes, ClassifyLines(lines, false).0)
    ensures forall i :: 0 <= i < |nodes| ==> fresh(nodes[i])
  {
    state := new State();
    nodes := ProcessLines(lines, state);
    ClassifyLinesCount(lines, false);
    state.isComment := false;
    SnapshotMade(nodes, ClassifyLines(lines, false).0);
  }

  /** The first three passes of `Parser.ParseLines`: new entries for the lines, classified as comment, code or script. */
  method RunLinePasses(lines: seq<string>) returns (nodes: seq<Entry>)
    ensures |nodes| == 0 <==> forall i :: 0 <= i < |lines| ==> Stripped(lines[i]) == ""
    ensures Distinct(nodes) && |nodes| == |ClassifyLines(lines, false).0|
    ensures Holds(nodes, LinePasses(nodes, lines))
    ensures forall i :: 0 <= i < |nodes| ==> fresh(nodes[i])
  {
    var state;
    nodes, state := MakeEntries(lines);
    ClassifyEntries(nodes, state);
  }

  /** The fourth pass, with what it makes stated against the entries' fields. */
  method ReclassifyNodes(nodes: seq<Entry>, firstGroup: string -> Option<string>) returns (n4: seq<Entry>)
    ensures Reclassified(nodes, Snapshot(nodes), n4, Snapshot(n4), firstGroup)
    ensures forall i :: 0 <= i < |n4| ==> n4[i] in nodes || fresh(n4[i])
  {
    n4 := ProcessLine4(nodes, firstGroup);
    forall i | 0 <= i < |nodes| && n4[i] != nodes[i]
      ensures n4[i] !in nodes
    {
      assert fresh(n4[i]);
    }
  }

  /** The last two passes of `Parser.ParseLines`: code split into statements, then children merged. */
  method SplitAndMerge(n4: seq<Entry>) returns (r: Result<seq<Entry>, Fault>)
    modifies n4
    ensures var m := MergeSplit(n4, old(Snapshot(n4)));
      && (r.Failure? <==> m.Failure?)
      && (r.Success? ==> r.value == m.value.kept && Holds(SplitAll(n4, old(Snapshot(n4))).0, m.value.st))
    ensures r.Success? ==> |r.value| > 0 && forall i :: 0 <= i < |r.value| ==> r.value[i] in n4
  {
    ghost var st4 := Snapshot(n4);
    var split := SplitCodeBlocks(n4);
    ghost var sp := SplitAll(n4, st4);
    SplitAllFrom(n4, st4);
    assert Snapshot(split) == Restrict(sp.1, split);
    r := MergeNodes(split);
  }

  /**
   * The last three passes of `Parser.ParseLines`: tags re-classified, code
   * split into statements, children merged. `n4` and `st4` are the entries
   * after the fourth pass and their fields.
   */
  method RunNodePasses(nodes: seq<Entry>, firstGroup: string -> Option<string>)
    returns (r: Result<seq<Entry>, Fault>, ghost n4: seq<Entry>, ghost st4: Store)
    modifies nodes
    ensures Reclassified(nodes, old(Snapshot(nodes)), n4, st4, firstGroup)
    ensures var m := MergeSplit(n4, st4);
      && (r.Failure? <==> m.Failure?)
      && (r.Success? ==> r.value == m.value.kept && Holds(SplitAll(n4, st4).0, m.value.st))
    ensures |nodes| == 0 ==> r == Failure(ArgumentOutOfRange)
    ensures r.Success? ==> |r.value| > 0 && forall i :: 0 <= i < |r.value| ==> r.value[i] in nodes || fresh(r.value[i])
  {
    var n := ReclassifyNodes(nodes, firstGroup);
    n4, st4 := n, Snapshot(n);
    r := SplitAndMerge(n);
    if |nodes| == 0 {
      assert r.Failure? && r.error.ArgumentOutOfRange?;
    }
  }

  /**
   * `Parser.ParseLines`: splits the page into lines and runs the passes. A
   * page without a line break yields no entries. Otherwise the entries made
   * for the lines (`made`) go through the line passes, the fourth pass makes
   * `n4` with fields `st4` of them, and the result is what splitting and
   * merging make of those; in particular a page whose lines are all blank
   * fails, as merging indexes the first entry of an empty list.
   */
  method ParseLines(input: string, firstGroup: string -> Option<string>)
    returns (r: Result<seq<Entry>, Fault>, ghost made: seq<Entry>, ghost n4: seq<Entry>, ghost st4: Store)
    ensures |Split(input, NewLine)| == 1 ==> r == Success([])
    ensures var lines := Split(input, NewLine);
      |lines| > 1 ==>
        && Distinct(made) && |made| == |ClassifyLines(lines, false).0|
        && Reclassified(made, LinePasses(made, lines), n4, st4, firstGroup)
        && var m := MergeSplit(n4, st4);
        && (r.Failure? <==> m.Failure?)
        && (r.Success? ==> r.value == m.value.kept && Holds(SplitAll(n4, st4).0, m.value.st))
    ensures |Split(input, NewLine)| > 1 && (forall i :: 0 <= i < |Split(input, NewLine)| ==> Stripped(Split(input, NewLine)[i]) == "")
      ==> r == Failure(ArgumentOutOfRange)
    ensures r.Success? ==> |Split(input, NewLine)| == 1 || |r.value| > 0
    ensures r.Success? ==> forall i :: 0 <= i < |r.value| ==> fresh(r.value[i])
  {
    var nodes: seq<Entry> := [];
    var lines := Split(input, NewLine);
    made, n4, st4 := [], [], map[];
    if |lines| == 1 {
      return Success(nodes), made, n4, st4;
    }
    nodes := RunLinePasses(lines);
    made := nodes;
    HoldsSnapshot(nodes, LinePasses(nodes, lines));
    r, n4, st4 := RunNodePasses(nodes, firstGroup);
    if r.Success? {
      forall i | 0 <= i < |r.value|
        ensures fresh(r.value[i])
      {
        assert r.value[i] in nodes || fresh(r.value[i]);
      }
    }
  }

  /**
   * `Parser.ParseDocument`: the parsed lines, with render functions named and
   * the list consolidated; no entries when there are none. `made`, `n4` and
   * `st4` are as in `ParseLines`.
   */
  method ParseDocument(input: string, firstGroup: string -> Option<string>)
    returns (r: Result<seq<Entry>, Fault>, ghost made: seq<Entry>, ghost n4: seq<Entry>, ghost st4: Store)
    ensures |Split(input, NewLine)| == 1 ==> r == Success([])
    ensures var lines := Split(input, NewLine);
      |lines| > 1 ==>
        && Distinct(made) && |made| == |ClassifyLines(lines, false).0|
        && Reclassified(made, LinePasses(made, lines), n4, st4, firstGroup)
        && var m := MergeSplit(n4, st4);
        && (m.Failure? ==> r == Failure(ArgumentOutOfRange))
        && (m.Success? ==>
              var c := Finished(m.value);
              && (r.Failure? <==> c.Failure?)
              && (r.Success? ==> r.value == c.value.0 && Holds(m.value.kept, c.value.1)))
    ensures |Split(input, NewLine)| > 1 && (forall i :: 0 <= i < |Split(input, NewLine)| ==> Stripped(Split(input, NewLine)[i]) == "")
      ==> r == Failure(ArgumentOutOfRange)
    ensures r.Success? ==> forall i :: 0 <= i < |r.value| ==> fresh(r.value[i])
  {
    r, made, n4, st4 := ParseLines(input, firstGroup);
    if r.Failure? || |r.value| == 0 {
      if r.Failure? {
        assert r.error.ArgumentOutOfRange?;
      }
      return;
    }
    ghost var m := MergeSplit(n4, st4).value;
    var nodes := r.value;
    r := LabelAndConsolidate(nodes, m);
  }

  /** The last two phases of `Parser.ParseDocument` on the merged entries `m`. */
  method LabelAndConsolidate(nodes: seq<Entry>, ghost m: Merged) returns (r: Result<seq<Entry>, Fault>)
    requires |m.kept| > 0 && Covers(m.kept, m.st) && nodes == m.kept && Holds(nodes, m.st)
    modifies nodes
    ensures var c := Finished(m);
      && (r.Failure? <==> c.Failure?)
      && (r.Success? ==> r.value == c.value.0 && Holds(nodes, c.value.1))
    ensures r.Success? ==> forall i :: 0 <= i < |r.value| ==> r.value[i] in nodes
  {
    ghost var st := Restrict(m.st, m.kept);
    assert Snapshot(nodes) == st;
    var labelled := LabelCodeFunctions(nodes);
    HoldsSnapshot(labelled, Label(m.kept, st).st);
    r := ConsolidateNodes(labelled);
  }
}
