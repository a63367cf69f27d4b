/**
 * What Document.ParseStringInternal computes, as functions on a parser state:
 * one function per rule the scan loop can take, the loop body as `Step`, the
 * whole scan as `Run`, and the invariant every state of the scan keeps.
 */
module AspParse {
  import opened Wrappers
  import opened Strings
  import opened AspFragment
  import opened AspRegex
  import opened AspTree

  /** The scan's state: the tag arena, the current tag, the cursor and the script flag. */
  datatype PState = PState(nodes: seq<Node>, current: nat, offset: nat, inScript: bool)

  /** Tag 0, the document: its name and value are the whole page. */
  function RootNode(text: string): Node
    requires |text| > 0
  {
    NewNode(Root, -1).(name := Bind(text, 0, |text|), value := Bind(text, 0, |text|))
  }

  /** The state before the first rule: only the document, which is current. */
  function Init(text: string): PState
    requires |text| > 0
  {
    PState([RootNode(text)], 0, 0, false)
  }

  // ------------------------------------------------------------ tree shape

  /** Tag 0 is the document; every other tag has an earlier tag as parent. */
  predicate Parents(nodes: seq<Node>) {
    |nodes| >= 1 && nodes[0].kind == Root && nodes[0].parent == -1 &&
    forall i | 1 <= i < |nodes| :: 0 <= nodes[i].parent < i && nodes[i].kind != Root
  }

  /** The positions in [1, k) whose parent is `p`, in order. */
  function Kids(nodes: seq<Node>, p: int, k: nat): seq<nat>
    requires k <= |nodes|
  {
    if k <= 1 then [] else Kids(nodes, p, k - 1) + (if nodes[k - 1].parent == p then [k - 1] else [])
  }

  /** Every child list holds exactly the tags whose parent it belongs to, in creation order. */
  predicate ChildLists(nodes: seq<Node>) {
    forall p | 0 <= p < |nodes| :: nodes[p].children == Kids(nodes, p, |nodes|)
  }

  /** A fragment lies inside the page, as every fragment `Set` accepts does. */
  predicate Placed(text: string, f: Fragment) { InDocument(text, f.index, f.length) }

  /** Every fragment of every attribute lies inside the page. */
  predicate AttributesPlaced(text: string, attrs: seq<Attribute>) {
    forall k | 0 <= k < |attrs| :: Placed(text, attrs[k].body) && Placed(text, attrs[k].key) && Placed(text, attrs[k].value)
  }

  /** Every tag but the document has a non-empty value, a name and attributes inside the page. */
  predicate Spans(text: string, nodes: seq<Node>) {
    forall i | 1 <= i < |nodes| ::
      Placed(text, nodes[i].value) && nodes[i].value.length > 0 && Placed(text, nodes[i].name) &&
      AttributesPlaced(text, nodes[i].attributes)
  }

  /** The values of tags 1, 2, ... follow each other from the start of the page. */
  predicate Tiled(nodes: seq<Node>) {
    (|nodes| > 1 ==> nodes[1].value.index == 0) &&
    forall i | 1 <= i < |nodes| - 1 :: nodes[i + 1].value.index == End(nodes[i].value)
  }

  /** Where the values of the tags end: the end of the newest tag's value. */
  function Reach(nodes: seq<Node>): int {
    if |nodes| <= 1 then 0 else End(nodes[|nodes| - 1].value)
  }

  /** The newest tag is the last child of `c`, or `c` itself when it has no children. */
  predicate TailAt(nodes: seq<Node>, c: int) {
    0 <= c < |nodes| &&
    (nodes[c].children == [] ==> c == |nodes| - 1) &&
    (nodes[c].children != [] ==> |nodes| >= 2 && nodes[c].children[|nodes[c].children| - 1] == |nodes| - 1)
  }

  /** From `c` up to the document every tag is an open tag still marked unclosed. */
  ghost predicate OpenChain(nodes: seq<Node>, c: int)
    decreases c + 1
  {
    0 <= c < |nodes| &&
    (c == 0 || (nodes[c].kind == Open && nodes[c].error == UnclosedOpenTag &&
                0 <= nodes[c].parent < c && OpenChain(nodes, nodes[c].parent)))
  }

  /** `b` is `c` or one of its ancestors. */
  ghost predicate OnPath(nodes: seq<Node>, c: int, b: int)
    decreases c + 1
  {
    0 <= b <= c < |nodes| && (b == c || (nodes[c].parent < c && OnPath(nodes, nodes[c].parent, b)))
  }

  /** The text of a name fragment. */
  function NameText(text: string, n: Node): string
    requires Placed(text, n.name)
  {
    text[n.name.index..End(n.name)]
  }

  /** In script mode the current tag is the open `script` element. */
  predicate ScriptMode(text: string, st: PState) {
    st.inScript ==>
      1 <= st.current < |st.nodes| && st.nodes[st.current].kind == Open &&
      Placed(text, st.nodes[st.current].name) && IsScriptTagName(NameText(text, st.nodes[st.current]))
  }

  /** What holds of every state the scan goes through. */
  ghost predicate Inv(text: string, st: PState) {
    |text| > 0 && st.offset <= |text| &&
    Parents(st.nodes) && ChildLists(st.nodes) && Spans(text, st.nodes) &&
    Tiled(st.nodes) && Reach(st.nodes) == st.offset &&
    TailAt(st.nodes, st.current) && OpenChain(st.nodes, st.current) && ScriptMode(text, st)
  }

  // ---------------------------------------------------------- frame lemmas

  lemma {:induction false} KidsFrame(a: seq<Node>, b: seq<Node>, p: int, k: nat)
    requires k <= |a| && k <= |b|
    requires forall i :: 0 <= i < k ==> a[i].parent == b[i].parent
    ensures Kids(a, p, k) == Kids(b, p, k)
  {
    if k > 1 { KidsFrame(a, b, p, k - 1); }
  }

  /** No tag before `p`, nor `p` itself, is a child of `p`. */
  lemma {:induction false} KidsNone(nodes: seq<Node>, p: int, k: nat)
    requires Parents(nodes) && k <= |nodes| && k <= p + 1
    ensures Kids(nodes, p, k) == []
  {
    if k > 1 { KidsNone(nodes, p, k - 1); }
  }

  /** The chain from `c` reads only kinds, errors and parents of tags up to `c`. */
  lemma {:induction false} ChainFrame(a: seq<Node>, b: seq<Node>, c: int)
    requires OpenChain(a, c) && c < |b|
    requires forall i :: 0 <= i <= c ==> a[i].kind == b[i].kind && a[i].error == b[i].error && a[i].parent == b[i].parent
    ensures OpenChain(b, c)
    decreases c + 1
  {
    if c != 0 { ChainFrame(a, b, a[c].parent); }
  }

  /** Attaching a new childless tag under `c` right after the newest one keeps the tree's shape. */
  lemma AttachShape(text: string, nodes: seq<Node>, c: nat, node: Node)
    requires Parents(nodes) && ChildLists(nodes) && Spans(text, nodes) && Tiled(nodes)
    requires c < |nodes| && node.parent == c && node.children == [] && node.kind != Root
    requires Placed(text, node.value) && node.value.length > 0 && Placed(text, node.name)
    requires AttributesPlaced(text, node.attributes) && node.value.index == Reach(nodes)
    ensures var r := Attach(nodes, c, node);
      Parents(r) && ChildLists(r) && Spans(text, r) && Tiled(r) && Reach(r) == End(node.value) &&
      TailAt(r, c) && TailAt(r, |nodes|)
  {
    AttachKids(nodes, c, node);
    AttachSpans(text, nodes, c, node);
  }

  /** Attaching a childless tag under `c` keeps every child list exact. */
  lemma AttachKids(nodes: seq<Node>, c: nat, node: Node)
    requires Parents(nodes) && ChildLists(nodes)
    requires c < |nodes| && node.parent == c && node.children == [] && node.kind != Root
    ensures Parents(Attach(nodes, c, node)) && ChildLists(Attach(nodes, c, node))
  {
    var r := Attach(nodes, c, node);
    assert Parents(r);
    forall p | 0 <= p < |r| ensures r[p].children == Kids(r, p, |r|) {
      AttachKidsAt(nodes, c, node, p);
    }
  }

  /** One child list after attaching a childless tag under `c`. */
  lemma AttachKidsAt(nodes: seq<Node>, c: nat, node: Node, p: nat)
    requires c < |nodes| && node.parent == c && node.children == [] && p <= |nodes|
    requires Parents(Attach(nodes, c, node))
    requires p < |nodes| ==> nodes[p].children == Kids(nodes, p, |nodes|)
    ensures Attach(nodes, c, node)[p].children == Kids(Attach(nodes, c, node), p, |nodes| + 1)
  {
    var r := Attach(nodes, c, node);
    var n := |nodes|;
    KidsFrame(nodes, r, p, n);
    if p == n {
      KidsNone(r, p, n);
    }
  }

  /** Attaching a tag whose value starts where the others end keeps the values tiled. */
  lemma AttachSpans(text: string, nodes: seq<Node>, c: nat, node: Node)
    requires Parents(nodes) && Spans(text, nodes) && Tiled(nodes) && c < |nodes|
    requires Placed(text, node.value) && node.value.length > 0 && Placed(text, node.name)
    requires AttributesPlaced(text, node.attributes) && node.value.index == Reach(nodes)
    ensures var r := Attach(nodes, c, node);
      Spans(text, r) && Tiled(r) && Reach(r) == End(node.value)
  {
  }

  /**
   * Attaching a tag under the current one keeps the invariant, with the new
   * tag or the old one current, as long as script mode still points at a
   * `script` tag.
   */
  lemma AttachInv(text: string, nodes: seq<Node>, c: nat, node: Node, cur: nat, offset: nat, inScript: bool)
    requires |text| > 0 && Parents(nodes) && ChildLists(nodes) && Spans(text, nodes) && Tiled(nodes)
    requires c < |nodes| && node.parent == c && node.children == [] && node.kind != Root
    requires Placed(text, node.value) && node.value.length > 0 && Placed(text, node.name)
    requires AttributesPlaced(text, node.attributes) && node.value.index == Reach(nodes) && offset == End(node.value)
    requires OpenChain(nodes, c)
    requires cur == c || (cur == |nodes| && node.kind == Open && node.error == UnclosedOpenTag)
    requires inScript && cur == c ==> ScriptMode(text, PState(nodes, c, offset, true))
    requires inScript && cur != c ==> IsScriptTagName(NameText(text, node))
    ensures Inv(text, PState(Attach(nodes, c, node), cur, offset, inScript))
  {
    var r := Attach(nodes, c, node);
    AttachShape(text, nodes, c, node);
    ChainFrame(nodes, r, c);
  }

  /** Changing a tag's error, or its value fragment to one with the same start, keeps the shape. */
  lemma ReplaceShape(text: string, nodes: seq<Node>, i: nat, node: Node, c: int)
    requires Parents(nodes) && ChildLists(nodes) && Spans(text, nodes) && Tiled(nodes) && TailAt(nodes, c)
    requires 1 <= i < |nodes|
    requires node == nodes[i].(error := node.error, value := node.value)
    requires Placed(text, node.value) && node.value.length > 0 && node.value.index == nodes[i].value.index
    requires i < |nodes| - 1 ==> End(node.value) == End(nodes[i].value)
    ensures var r := nodes[i := node];
      Parents(r) && ChildLists(r) && Spans(text, r) && Tiled(r) && TailAt(r, c) &&
      Reach(r) == (if i == |nodes| - 1 then End(node.value) else Reach(nodes))
  {
    var r := nodes[i := node];
    forall p | 0 <= p < |r| ensures r[p].children == Kids(r, p, |r|) {
      KidsFrame(nodes, r, p, |r|);
    }
  }

  /** Stretching the newest tag, a text child of the current tag, to `g` keeps the invariant. */
  lemma MergeInv(text: string, st: PState, p: nat, g: Fragment)
    requires Inv(text, st) && 1 <= p == |st.nodes| - 1 && p != st.current
    requires Placed(text, g) && g.index == st.nodes[p].value.index && g.length > 0
    ensures Inv(text, st.(nodes := SetValueFragment(st.nodes, p, g), offset := End(g)))
  {
    ReplaceShape(text, st.nodes, p, st.nodes[p].(value := g), st.current);
    ChainFrame(st.nodes, SetValueFragment(st.nodes, p, g), st.current);
  }

  // ------------------------------------------------------------ attributes

  /**
   * One attribute of ProcessAttributes: the body runs from the name capture
   * to the end of the value capture, one further when a quote follows; the key
   * and value are the captures; data-bound when the value text is spelled as a
   * data binding.
   */
  function MakeAttribute(text: string, n: Capture, v: Capture): (a: Attribute)
    requires 0 <= n.index && 0 <= n.length && n.index + n.length <= v.index
    requires 0 <= v.length && v.index + v.length < |text|
    ensures Placed(text, a.body) && Placed(text, a.key) && Placed(text, a.value)
  {
    var len := v.index + v.length - n.index;
    var next := text[n.index + len];
    Attribute(if next == '\'' || next == '"' then Bind(text, n.index, len + 1) else Bind(text, n.index, len),
              Bind(text, n.index, n.length), Bind(text, v.index, v.length),
              DataBound(text[v.index..v.index + v.length]))
  }

  /** The attributes ProcessAttributes makes from the first `k` capture pairs of `m`, in order. */
  function AttributesOf(text: string, m: Match, k: nat): (r: seq<Attribute>)
    requires m.index >= 0 && ValidMatch(text, m.index, m) && k <= |m.names|
    ensures |r| == k && AttributesPlaced(text, r)
  {
    if k == 0 then []
    else
      assert AttributeCaptures(m, m.names[k - 1], m.values[k - 1]);
      AttributesOf(text, m, k - 1) + [MakeAttribute(text, m.names[k - 1], m.values[k - 1])]
  }

  // ----------------------------------------------------------------- steps

  /**
   * What ProcessTextTag needs of the tags: the newest tag is the current
   * tag's last child (or the current tag itself) and its value ends at the
   * cursor.
   */
  predicate TextReady(text: string, nodes: seq<Node>, c: int, offset: nat) {
    TailAt(nodes, c) && (|nodes| > 1 ==> Placed(text, nodes[|nodes| - 1].value) && End(nodes[|nodes| - 1].value) == offset)
  }

  /**
   * The tags after ProcessTextTag for `length` characters at `offset` under
   * tag `c`: when the last child of `c` is a text tag, its value is stretched
   * to end after them; otherwise a new text tag spanning them is attached to
   * `c`.
   */
  function TextNodes(text: string, nodes: seq<Node>, c: nat, offset: nat, length: nat): seq<Node>
    requires TextReady(text, nodes, c, offset) && 0 < length && offset + length <= |text|
  {
    var ch := nodes[c].children;
    if ch != [] && nodes[ch[|ch| - 1]].kind == Text then
      var f := nodes[ch[|ch| - 1]].value;
      SetValueFragment(nodes, ch[|ch| - 1], Bind(text, f.index, offset + length - f.index))
    else
      Attach(nodes, c, Node(Text, c, [], Bind(text, offset, length), Bind(text, offset, length), [], TagError.None))
  }

  /** ProcessTextTag for `length` characters at the cursor, which moves past them. */
  function TextStep(text: string, st: PState, length: nat): (r: PState)
    requires Inv(text, st) && 0 < length && st.offset + length <= |text|
    ensures Inv(text, r) && r.offset == st.offset + length
    ensures r.current == st.current && r.inScript == st.inScript
  {
    TextInv(text, st, length);
    st.(nodes := TextNodes(text, st.nodes, st.current, st.offset, length), offset := st.offset + length)
  }

  /** Merging into the last text child, or attaching a new text tag, keeps the invariant. */
  lemma TextInv(text: string, st: PState, length: nat)
    requires Inv(text, st) && 0 < length && st.offset + length <= |text|
    ensures TextReady(text, st.nodes, st.current, st.offset)
    ensures Inv(text, st.(nodes := TextNodes(text, st.nodes, st.current, st.offset, length), offset := st.offset + length))
  {
    var ch := st.nodes[st.current].children;
    if ch != [] && st.nodes[ch[|ch| - 1]].kind == Text {
      var p := ch[|ch| - 1];
      var f := st.nodes[p].value;
      var g := Bind(text, f.index, st.offset + length - f.index);
      MergeInv(text, st, p, g);
      assert TextNodes(text, st.nodes, st.current, st.offset, length) == SetValueFragment(st.nodes, p, g);
    } else {
      var span := Bind(text, st.offset, length);
      var node := Node(Text, st.current, [], span, span, [], TagError.None);
      AttachInv(text, st.nodes, st.current, node, st.current, st.offset + length, st.inScript);
      assert TextNodes(text, st.nodes, st.current, st.offset, length) == Attach(st.nodes, st.current, node);
    }
  }

  /** The fallback: one character at the cursor taken as text. */
  function Fallback(text: string, st: PState): (r: PState)
    requires Inv(text, st) && st.offset < |text|
    ensures Inv(text, r) && r.offset == st.offset + 1
  {
    TextStep(text, st, 1)
  }

  /** A tag of `kind` whose value and name both span the match, with the given attributes, under tag `c`. */
  function LeafNode(text: string, c: nat, kind: TagType, m: Match, attrs: seq<Attribute>): Node
    requires m.index >= 0 && ValidMatch(text, m.index, m)
  {
    Node(kind, c, [], Bind(text, m.index, m.length), Bind(text, m.index, m.length), attrs, TagError.None)
  }

  /**
   * ProcessDirective, ProcessCode and ProcessComment: the leaf tag attached
   * to the current tag; the cursor moves past the match.
   */
  function LeafStep(text: string, st: PState, kind: TagType, m: Match, attrs: seq<Attribute>): (r: PState)
    requires Inv(text, st) && ValidMatch(text, st.offset, m) && kind != Root && AttributesPlaced(text, attrs)
    ensures Inv(text, r) && r.offset == MatchEnd(m) && r.current == st.current && r.inScript == st.inScript
  {
    var node := LeafNode(text, st.current, kind, m, attrs);
    AttachInv(text, st.nodes, st.current, node, st.current, MatchEnd(m), st.inScript);
    st.(nodes := Attach(st.nodes, st.current, node), offset := MatchEnd(m))
  }

  /** The text of the `tagname` capture. */
  function TagNameOf(text: string, m: Match): string
    requires 0 <= m.tagName.index && 0 <= m.tagName.length && m.tagName.index + m.tagName.length <= |text|
  {
    text[m.tagName.index..m.tagName.index + m.tagName.length]
  }

  /** An open tag match that is not self-closing and whose name needs a closing tag. */
  predicate Closes(text: string, m: Match)
    requires m.index >= 0 && ValidMatch(text, m.index, m)
  {
    !m.empty && RequiresClosing(Open, TagNameOf(text, m))
  }

  /**
   * The open tag ProcessOpenTag makes under tag `c`: it spans the match, is
   * named by the `tagname` capture, carries the match's attributes, and is
   * marked unclosed when it needs a closing tag.
   */
  function OpenNode(text: string, c: nat, m: Match): Node
    requires m.index >= 0 && ValidMatch(text, m.index, m)
  {
    Node(Open, c, [], Bind(text, m.tagName.index, m.tagName.length), Bind(text, m.index, m.length),
         AttributesOf(text, m, |m.names|), if Closes(text, m) then UnclosedOpenTag else TagError.None)
  }

  /**
   * ProcessOpenTag: the open tag is attached to the current tag; when it
   * needs closing it becomes current, and a `script` tag starts script mode.
   */
  function OpenTagStep(text: string, st: PState, m: Match): (r: PState)
    requires Inv(text, st) && !st.inScript && ValidMatch(text, st.offset, m)
    ensures Inv(text, r) && r.offset == MatchEnd(m)
  {
    var n := |st.nodes|;
    var node := OpenNode(text, st.current, m);
    var ns := Attach(st.nodes, st.current, node);
    if Closes(text, m) then
      var inScript := if IsScriptTagName(TagNameOf(text, m)) then true else st.inScript;
      AttachInv(text, st.nodes, st.current, node, n, MatchEnd(m), inScript);
      PState(ns, n, MatchEnd(m), inScript)
    else
      AttachInv(text, st.nodes, st.current, node, st.current, MatchEnd(m), st.inScript);
      st.(nodes := ns, offset := MatchEnd(m))
  }

  /**
   * The loop of ProcessCloseTag: from `c` up through the parents, the first
   * open tag whose name equals `name` ignoring case; none when the walk
   * passes the document.
   */
  function FindOpen(text: string, nodes: seq<Node>, c: int, name: string): (r: Option<nat>)
    requires Parents(nodes) && Spans(text, nodes) && -1 <= c < |nodes|
    ensures r.Some? ==> 1 <= r.value <= c && nodes[r.value].kind == Open
    decreases c + 1
  {
    if c < 0 then Option.None
    else if nodes[c].kind == Open && EqualsIgnoreCase(name, NameText(text, nodes[c])) then Some(c)
    else FindOpen(text, nodes, nodes[c].parent, name)
  }

  /** The tag a close tag closes is on the open chain, so the chain continues from its parent. */
  lemma {:induction false} FindOpenChain(text: string, nodes: seq<Node>, c: int, name: string)
    requires Parents(nodes) && Spans(text, nodes) && -1 <= c < |nodes|
    requires c >= 0 ==> OpenChain(nodes, c)
    ensures FindOpen(text, nodes, c, name).Some? ==>
      OpenChain(nodes, nodes[FindOpen(text, nodes, c, name).value].parent)
    decreases c + 1
  {
    if c > 0 && !(nodes[c].kind == Open && EqualsIgnoreCase(name, NameText(text, nodes[c]))) {
      FindOpenChain(text, nodes, nodes[c].parent, name);
    }
  }

  /** A close tag in script mode that is not `</script>` closes nothing. */
  predicate Deferred(text: string, st: PState, m: Match)
    requires 0 <= m.tagName.index && 0 <= m.tagName.length && m.tagName.index + m.tagName.length <= |text|
  {
    !IsScriptTagName(TagNameOf(text, m)) && st.inScript
  }

  /** The current tag after a close tag: the parent of the tag it closes, or `c` when it closes none. */
  function CloseCurrent(text: string, nodes: seq<Node>, c: nat, m: Match): (r: nat)
    requires Parents(nodes) && Spans(text, nodes) && c < |nodes| && m.index >= 0 && ValidMatch(text, m.index, m)
    ensures r < |nodes|
  {
    var open := FindOpen(text, nodes, c, TagNameOf(text, m));
    if open.Some? then nodes[open.value].parent as nat else c
  }

  /**
   * The tags after ProcessCloseTag under tag `c`: the closed tag, if any,
   * loses its error, and a close tag spanning the match, named by its
   * `tagname` capture, is attached to the new current tag, marked unopened
   * when nothing was closed.
   */
  function CloseNodes(text: string, nodes: seq<Node>, c: nat, m: Match): seq<Node>
    requires Parents(nodes) && Spans(text, nodes) && c < |nodes| && m.index >= 0 && ValidMatch(text, m.index, m)
  {
    var open := FindOpen(text, nodes, c, TagNameOf(text, m));
    var ns := if open.Some? then SetError(nodes, open.value, TagError.None) else nodes;
    var cur := CloseCurrent(text, nodes, c, m);
    Attach(ns, cur, Node(Close, cur, [], Bind(text, m.tagName.index, m.tagName.length), Bind(text, m.index, m.length), [],
                         if open.Some? then TagError.None else UnopenedCloseTag))
  }

  /**
   * ProcessCloseTag when the close tag is not deferred: the tags as
   * CloseNodes says, the parent of the closed tag current, and `</script>`
   * ends script mode.
   */
  function CloseTagStep(text: string, st: PState, m: Match): (r: PState)
    requires Inv(text, st) && ValidMatch(text, st.offset, m) && !Deferred(text, st, m)
    ensures Inv(text, r) && r.offset == MatchEnd(m) && !r.inScript
  {
    CloseInv(text, st, m);
    PState(CloseNodes(text, st.nodes, st.current, m), CloseCurrent(text, st.nodes, st.current, m), MatchEnd(m),
           if IsScriptTagName(TagNameOf(text, m)) then false else st.inScript)
  }

  /** The tags and the current tag after a close tag keep the invariant, with script mode over. */
  lemma CloseInv(text: string, st: PState, m: Match)
    requires Inv(text, st) && ValidMatch(text, st.offset, m)
    ensures Inv(text, PState(CloseNodes(text, st.nodes, st.current, m), CloseCurrent(text, st.nodes, st.current, m), MatchEnd(m), false))
  {
    var open := FindOpen(text, st.nodes, st.current, TagNameOf(text, m));
    FindOpenChain(text, st.nodes, st.current, TagNameOf(text, m));
    var ns := if open.Some? then SetError(st.nodes, open.value, TagError.None) else st.nodes;
    var cur := CloseCurrent(text, st.nodes, st.current, m);
    var node := Node(Close, cur, [], Bind(text, m.tagName.index, m.tagName.length), Bind(text, m.index, m.length), [],
                     if open.Some? then TagError.None else UnopenedCloseTag);
    CloseShape(text, st, open, ns, cur);
    CloseNodesAre(text, st.nodes, st.current, m, open, ns, cur, node);
    CloseAttachInv(text, ns, cur, node, MatchEnd(m));
  }

  /** CloseNodes spelled out: the close tag attached to the new current tag. */
  lemma CloseNodesAre(text: string, nodes: seq<Node>, c: nat, m: Match, open: Option<nat>, ns: seq<Node>, cur: nat, node: Node)
    requires Parents(nodes) && Spans(text, nodes) && c < |nodes| && m.index >= 0 && ValidMatch(text, m.index, m)
    requires open == FindOpen(text, nodes, c, TagNameOf(text, m))
    requires ns == if open.Some? then SetError(nodes, open.value, TagError.None) else nodes
    requires cur == CloseCurrent(text, nodes, c, m)
    requires node == Node(Close, cur, [], Bind(text, m.tagName.index, m.tagName.length), Bind(text, m.index, m.length), [],
                          if open.Some? then TagError.None else UnopenedCloseTag)
    ensures CloseNodes(text, nodes, c, m) == Attach(ns, cur, node)
  {
  }

  /** A close tag attached to the tag it leaves current keeps the invariant, outside script mode. */
  lemma CloseAttachInv(text: string, ns: seq<Node>, cur: nat, node: Node, offset: nat)
    requires |text| > 0 && Parents(ns) && ChildLists(ns) && Spans(text, ns) && Tiled(ns)
    requires cur < |ns| && node.parent == cur && node.children == [] && node.kind == Close
    requires Placed(text, node.value) && node.value.length > 0 && Placed(text, node.name)
    requires node.attributes == [] && node.value.index == Reach(ns) && offset == End(node.value)
    requires OpenChain(ns, cur)
    ensures Inv(text, PState(Attach(ns, cur, node), cur, offset, false))
  {
    AttachInv(text, ns, cur, node, cur, offset, false);
  }

  /** Clearing the error of the closed tag keeps the shape and the chain above it. */
  lemma CloseShape(text: string, st: PState, open: Option<nat>, ns: seq<Node>, cur: nat)
    requires Inv(text, st)
    requires open.Some? ==>
      1 <= open.value < |st.nodes| && cur == st.nodes[open.value].parent &&
      OpenChain(st.nodes, cur) && ns == SetError(st.nodes, open.value, TagError.None)
    requires open.None? ==> cur == st.current && ns == st.nodes
    ensures Parents(ns) && ChildLists(ns) && Spans(text, ns) && Tiled(ns) && Reach(ns) == st.offset
    ensures cur < |ns| && OpenChain(ns, cur)
  {
    if open.Some? {
      var a := open.value;
      ReplaceShape(text, st.nodes, a, st.nodes[a].(error := TagError.None), st.current);
      ChainFrame(st.nodes, ns, cur);
    }
  }

  // ------------------------------------------------------------- the scan

  /** The state before the first rule keeps the invariant. */
  lemma InitInv(text: string)
    requires |text| > 0
    ensures Inv(text, Init(text))
  {
  }

  /**
   * One pass of the loop body after the text rule, at a cursor inside the
   * page: the first rule that matches there, in the parser's priority order,
   * decides the step; a close tag deferred by script mode, or no match at all,
   * takes one character as text.
   */
  function Dispatch(text: string, rules: Matcher, st: PState): (r: PState)
    requires ValidMatcher(rules) && Inv(text, st) && st.offset < |text|
    ensures Inv(text, r) && st.offset < r.offset
  {
    var directive := rules(DirectiveRule, text, st.offset);
    if !st.inScript && directive.Some? then
      LeafStep(text, st, Directive, directive.value, AttributesOf(text, directive.value, |directive.value.names|))
    else
      CommentDispatch(text, rules, st)
  }

  /** A server comment, then an XML comment; else the markup rules. */
  function CommentDispatch(text: string, rules: Matcher, st: PState): (r: PState)
    requires ValidMatcher(rules) && Inv(text, st) && st.offset < |text|
    ensures Inv(text, r) && st.offset < r.offset
  {
    var serverComment := rules(ServerCommentRule, text, st.offset);
    var xmlComment := XmlComment(text, st.offset);
    if serverComment.Some? then LeafStep(text, st, Comment, serverComment.value, [])
    else if xmlComment.Some? then LeafStep(text, st, Comment, xmlComment.value, [])
    else MarkupDispatch(text, rules, st)
  }

  /**
   * The rules after the comments: outside script mode the code rules and the
   * open tag rule; then a close tag.
   */
  function MarkupDispatch(text: string, rules: Matcher, st: PState): (r: PState)
    requires ValidMatcher(rules) && Inv(text, st) && st.offset < |text|
    ensures Inv(text, r) && st.offset < r.offset
  {
    if st.inScript then CloseDispatch(text, st) else CodeDispatch(text, rules, st)
  }

  /** The first match of the expression, data-binding expression and code block rules, in that order. */
  function CodeMatch(text: string, rules: Matcher, o: nat): (r: Option<Match>)
    requires ValidMatcher(rules)
    ensures r.Some? ==> ValidMatch(text, o, r.value)
    ensures r.None? <==>
      rules(AspExprRule, text, o).None? && rules(DatabindExprRule, text, o).None? && rules(AspCodeRule, text, o).None?
  {
    var expr := rules(AspExprRule, text, o);
    if expr.Some? then expr
    else
      var databind := rules(DatabindExprRule, text, o);
      if databind.Some? then databind else rules(AspCodeRule, text, o)
  }

  /** An expression, a data-binding expression or a code block, in that order; else the open tag rule. */
  function CodeDispatch(text: string, rules: Matcher, st: PState): (r: PState)
    requires ValidMatcher(rules) && Inv(text, st) && st.offset < |text| && !st.inScript
    ensures Inv(text, r) && st.offset < r.offset
  {
    var code := CodeMatch(text, rules, st.offset);
    if code.Some? then LeafStep(text, st, Code, code.value, [])
    else OpenDispatch(text, rules, st)
  }

  /** An open tag; else the close tag rule. */
  function OpenDispatch(text: string, rules: Matcher, st: PState): (r: PState)
    requires ValidMatcher(rules) && Inv(text, st) && st.offset < |text| && !st.inScript
    ensures Inv(text, r) && st.offset < r.offset
  {
    var open := rules(OpenTagRule, text, st.offset);
    if open.Some? then OpenTagStep(text, st, open.value) else CloseDispatch(text, st)
  }

  /** The end tag rule, last of all: a close tag that is not deferred, else one character of text. */
  function CloseDispatch(text: string, st: PState): (r: PState)
    requires Inv(text, st) && st.offset < |text|
    ensures Inv(text, r) && st.offset < r.offset
  {
    var close := EndTag(text, st.offset);
    if close.Some? && !Deferred(text, st, close.value) then
      CloseTagStep(text, st, close.value)
    else
      Fallback(text, st)
  }

  /** The state after a close tag that is not deferred, spelled out. */
  lemma CloseTagState(text: string, st: PState, m: Match)
    requires Inv(text, st) && ValidMatch(text, st.offset, m) && !Deferred(text, st, m)
    ensures CloseTagStep(text, st, m) ==
      PState(CloseNodes(text, st.nodes, st.current, m), CloseCurrent(text, st.nodes, st.current, m), MatchEnd(m),
             st.inScript && !IsScriptTagName(TagNameOf(text, m)))
  {
  }

  /** The state after a run of text, spelled out; the scan state is ready for it. */
  lemma TextState(text: string, st: PState, length: nat)
    requires Inv(text, st) && 0 < length && st.offset + length <= |text|
    ensures TextReady(text, st.nodes, st.current, st.offset)
    ensures TextStep(text, st, length) == st.(nodes := TextNodes(text, st.nodes, st.current, st.offset, length), offset := st.offset + length)
  {
  }

  /** The state after one character of text, spelled out; the scan state is ready for it. */
  lemma FallbackState(text: string, st: PState)
    requires Inv(text, st) && st.offset < |text|
    ensures TextReady(text, st.nodes, st.current, st.offset)
    ensures Fallback(text, st) == st.(nodes := TextNodes(text, st.nodes, st.current, st.offset, 1), offset := st.offset + 1)
  {
  }

  /** The text rule at the top of the loop body: a match is taken as text. */
  function TextPhase(text: string, rules: Matcher, st: PState): (r: PState)
    requires ValidMatcher(rules) && Inv(text, st) && st.offset < |text|
    ensures Inv(text, r) && st.offset <= r.offset
    ensures r.current == st.current && r.inScript == st.inScript
    ensures rules(TextRule, text, st.offset).Some? <==> st.offset < r.offset
  {
    var t := rules(TextRule, text, st.offset);
    if t.Some? then TextStep(text, st, t.value.length) else st
  }

  /** One iteration of the do-while loop: the text rule, then, unless the page is consumed, the other rules. */
  function Step(text: string, rules: Matcher, st: PState): (r: PState)
    requires ValidMatcher(rules) && Inv(text, st) && st.offset < |text|
    ensures Inv(text, r) && st.offset < r.offset
  {
    var t := TextPhase(text, rules, st);
    if t.offset == |text| then t else Dispatch(text, rules, t)
  }

  /** The loop from a state to the end of the page. */
  function Run(text: string, rules: Matcher, st: PState): (r: PState)
    requires ValidMatcher(rules) && Inv(text, st) && st.offset < |text|
    ensures Inv(text, r) && r.offset == |text|
    decreases |text| - st.offset
  {
    var n := Step(text, rules, st);
    if n.offset == |text| then n else Run(text, rules, n)
  }

  /** What the Document constructor builds for a non-empty page. */
  function Parse(text: string, rules: Matcher): (r: PState)
    requires ValidMatcher(rules) && |text| > 0
    ensures Inv(text, r) && r.offset == |text|
  {
    InitInv(text);
    Run(text, rules, Init(text))
  }
}
