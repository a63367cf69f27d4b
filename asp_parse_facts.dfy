/**
 * What the scan of an ASP.NET page guarantees: the tags' values tile the
 * page, a close tag closes the nearest open ancestor of the same name, the
 * other steps have the effects Document's Process* methods promise, and
 * script mode hides everything but comments and `</script>`.
 */
module AspParseFacts {
  import opened Wrappers
  import opened Strings
  import opened AspFragment
  import opened AspRegex
  import opened AspTree
  import opened AspParse

  // ------------------------------------------------------------- tiling

  /** The value texts of tags 1 .. k-1, one after the other. */
  function Joined(text: string, nodes: seq<Node>, k: nat): string
    requires k <= |nodes| && Spans(text, nodes)
  {
    if k <= 1 then [] else Joined(text, nodes, k - 1) + text[nodes[k - 1].value.index..End(nodes[k - 1].value)]
  }

  /** Tiled values spell the page up to where the newest of them ends. */
  lemma {:induction false} JoinedPrefix(text: string, nodes: seq<Node>, k: nat)
    requires Spans(text, nodes) && Tiled(nodes) && 1 <= k <= |nodes|
    ensures Joined(text, nodes, k) == text[..Reach(nodes[..k])]
  {
    if k > 1 {
      JoinedPrefix(text, nodes, k - 1);
      var a := Reach(nodes[..k - 1]);
      var b := End(nodes[k - 1].value);
      assert a == nodes[k - 1].value.index;
      assert text[..b] == text[..a] + text[a..b];
    }
  }

  /**
   * Every character of the page belongs to the value of exactly one tag other
   * than the document, and the tags are created in page order: their values,
   * joined in creation order, give back the page.
   */
  lemma ParseTilesPage(text: string, rules: Matcher)
    requires ValidMatcher(rules) && |text| > 0
    ensures var r := Parse(text, rules);
      |r.nodes| >= 2 && Joined(text, r.nodes, |r.nodes|) == text
  {
    var r := Parse(text, rules);
    assert r.nodes[..|r.nodes|] == r.nodes;
    JoinedPrefix(text, r.nodes, |r.nodes|);
  }

  // ------------------------------------------------------------- closing

  /** Tag `b` is an open tag whose name equals `name` ignoring case. */
  predicate OpenNamed(text: string, nodes: seq<Node>, b: nat, name: string)
    requires b < |nodes| && (b == 0 || Placed(text, nodes[b].name)) && nodes[0].kind == Root
  {
    nodes[b].kind == Open && EqualsIgnoreCase(name, NameText(text, nodes[b]))
  }

  /**
   * The tag a close tag closes is the nearest one on the path from the current
   * tag up to the document that is an open tag of the same name; when there is
   * none, no tag on that path is one.
   */
  lemma {:induction false} FindOpenNearest(text: string, nodes: seq<Node>, c: int, name: string)
    requires Parents(nodes) && Spans(text, nodes) && 0 <= c < |nodes|
    ensures var r := FindOpen(text, nodes, c, name);
      (r.Some? ==> OnPath(nodes, c, r.value) && OpenNamed(text, nodes, r.value, name)) &&
      forall b | OnPath(nodes, c, b) && OpenNamed(text, nodes, b, name) :: r.Some? && b <= r.value
    decreases c
  {
    var r := FindOpen(text, nodes, c, name);
    var p := nodes[c].parent;
    if c == 0 {
      forall b | OnPath(nodes, c, b) && OpenNamed(text, nodes, b, name) ensures false { }
    } else if OpenNamed(text, nodes, c, name) {
      assert r == Some(c) && OnPath(nodes, c, c);
    } else {
      assert r == FindOpen(text, nodes, p, name);
      FindOpenNearest(text, nodes, p, name);
      if r.Some? {
        assert OnPath(nodes, c, r.value);
      }
    }
  }

  /**
   * ProcessCloseTag outside deferral: a close tag spanning the match is
   * appended as the last child of the new current tag; the closed tag, when
   * there is one, loses its error and its parent becomes current; otherwise
   * the close tag is marked unopened; no other tag's error changes, so open
   * tags skipped on the way keep theirs.
   */
  lemma CloseTagEffect(text: string, st: PState, m: Match)
    requires Inv(text, st) && ValidMatch(text, st.offset, m) && !Deferred(text, st, m)
    ensures var r := CloseTagStep(text, st, m);
      var open := FindOpen(text, st.nodes, st.current, TagNameOf(text, m));
      var n := |st.nodes|;
      |r.nodes| == n + 1 && r.nodes[n].kind == Close && r.nodes[n].parent == r.current &&
      r.nodes[n].value == Bind(text, st.offset, m.length) &&
      NameText(text, r.nodes[n]) == TagNameOf(text, m) &&
      LastTag(r.nodes[r.current].children) == Some(n) &&
      (open.Some? ==> r.current == st.nodes[open.value].parent && r.nodes[open.value].error == TagError.None &&
                      r.nodes[n].error == TagError.None) &&
      (open.None? ==> r.current == st.current && r.nodes[n].error == UnopenedCloseTag) &&
      (forall i | 0 <= i < n && (open.None? || i != open.value) :: r.nodes[i].error == st.nodes[i].error) &&
      (IsScriptTagName(TagNameOf(text, m)) ==> !r.inScript)
  {
    CloseTagState(text, st, m);
    CloseNodesEffect(text, st.nodes, st.current, m);
  }

  /** The tags after a close tag under tag `c`, entry by entry. */
  lemma CloseNodesEffect(text: string, nodes: seq<Node>, c: nat, m: Match)
    requires Parents(nodes) && Spans(text, nodes) && c < |nodes| && m.index >= 0 && ValidMatch(text, m.index, m)
    ensures var r := CloseNodes(text, nodes, c, m);
      var open := FindOpen(text, nodes, c, TagNameOf(text, m));
      var cur := CloseCurrent(text, nodes, c, m);
      var n := |nodes|;
      |r| == n + 1 && r[n].kind == Close && r[n].parent == cur &&
      r[n].value == Bind(text, m.index, m.length) &&
      NameText(text, r[n]) == TagNameOf(text, m) &&
      LastTag(r[cur].children) == Some(n) &&
      (open.Some? ==> cur == nodes[open.value].parent && r[open.value].error == TagError.None &&
                      r[n].error == TagError.None) &&
      (open.None? ==> cur == c && r[n].error == UnopenedCloseTag) &&
      (forall i | 0 <= i < n && (open.None? || i != open.value) :: r[i].error == nodes[i].error)
  {
    var open := FindOpen(text, nodes, c, TagNameOf(text, m));
    var ns := if open.Some? then SetError(nodes, open.value, TagError.None) else nodes;
    var cur := CloseCurrent(text, nodes, c, m);
    var node := Node(Close, cur, [], Bind(text, m.tagName.index, m.tagName.length), Bind(text, m.index, m.length), [],
                     if open.Some? then TagError.None else UnopenedCloseTag);
    assert CloseNodes(text, nodes, c, m) == Attach(ns, cur, node);
  }

  // ------------------------------------------------------------- opening

  /**
   * ProcessOpenTag: the open tag is appended as the last child of the current
   * tag, named by the `tagname` capture; a self-closing match or a name that
   * needs no closing tag leaves the current tag, the error and script mode
   * alone; otherwise the tag is marked unclosed, becomes current, and script
   * mode starts exactly when it is `script`.
   */
  lemma OpenTagEffect(text: string, st: PState, m: Match)
    requires Inv(text, st) && !st.inScript && ValidMatch(text, st.offset, m)
    ensures var r := OpenTagStep(text, st, m);
      var n := |st.nodes|;
      var closes := !m.empty && RequiresClosing(Open, TagNameOf(text, m));
      |r.nodes| == n + 1 && r.nodes[n].kind == Open && r.nodes[n].parent == st.current &&
      r.nodes[st.current].children == st.nodes[st.current].children + [n] &&
      r.nodes[n].value == Bind(text, st.offset, m.length) &&
      NameText(text, r.nodes[n]) == TagNameOf(text, m) &&
      |r.nodes[n].attributes| == |m.names| &&
      r.current == (if closes then n else st.current) &&
      r.nodes[n].error == (if closes then UnclosedOpenTag else TagError.None) &&
      r.inScript == (closes && IsScriptTagName(TagNameOf(text, m)))
  {
  }

  // ---------------------------------------------------------------- text

  /**
   * ProcessTextTag when the current tag's last child is the newest tag and a
   * text tag: no tag is made; that child is stretched to end at the new cursor
   * and no other tag's value changes.
   */
  lemma TextMerges(text: string, st: PState, length: nat)
    requires Inv(text, st) && 0 < length && st.offset + length <= |text|
    requires st.nodes[st.current].children != [] && st.nodes[|st.nodes| - 1].kind == Text
    ensures var r := TextStep(text, st, length);
      var before := st.nodes[st.current].children;
      r.nodes[st.current].children == before && LastTag(before) == Some(|st.nodes| - 1) &&
      |r.nodes| == |st.nodes| && r.nodes[|r.nodes| - 1].kind == Text && End(r.nodes[|r.nodes| - 1].value) == r.offset &&
      forall i | 0 <= i < |st.nodes| - 1 :: r.nodes[i].value == st.nodes[i].value
  {
    TextState(text, st, length);
    MergeNodes(text, st.nodes, st.current, st.offset, length);
  }

  /** The merging branch of TextNodes, on the tags alone. */
  lemma MergeNodes(text: string, nodes: seq<Node>, c: nat, offset: nat, length: nat)
    requires TextReady(text, nodes, c, offset) && 0 < length && offset + length <= |text|
    requires nodes[c].children != [] && nodes[|nodes| - 1].kind == Text
    ensures var r := TextNodes(text, nodes, c, offset, length);
      var before := nodes[c].children;
      r[c].children == before && LastTag(before) == Some(|nodes| - 1) &&
      |r| == |nodes| && r[|r| - 1].kind == Text && End(r[|r| - 1].value) == offset + length &&
      forall i | 0 <= i < |nodes| - 1 :: r[i].value == nodes[i].value
  {
    var before := nodes[c].children;
    var p := before[|before| - 1];
    assert p == |nodes| - 1;
    var f := nodes[p].value;
    assert TextNodes(text, nodes, c, offset, length) == SetValueFragment(nodes, p, Bind(text, f.index, offset + length - f.index));
  }

  /**
   * ProcessTextTag otherwise: a new text tag spanning the characters becomes
   * the current tag's last child, and no earlier tag's value changes.
   */
  lemma TextAttaches(text: string, st: PState, length: nat)
    requires Inv(text, st) && 0 < length && st.offset + length <= |text|
    requires !(st.nodes[st.current].children != [] && st.nodes[|st.nodes| - 1].kind == Text)
    ensures var r := TextStep(text, st, length);
      r.nodes[st.current].children == st.nodes[st.current].children + [|st.nodes|] &&
      |r.nodes| == |st.nodes| + 1 && r.nodes[|st.nodes|].kind == Text &&
      r.nodes[|st.nodes|].value == Bind(text, st.offset, length) && End(r.nodes[|st.nodes|].value) == r.offset &&
      forall i | 0 <= i < |st.nodes| :: r.nodes[i].value == st.nodes[i].value
  {
    TextState(text, st, length);
    AttachNodes(text, st.nodes, st.current, st.offset, length);
  }

  /** The attaching branch of TextNodes, on the tags alone. */
  lemma AttachNodes(text: string, nodes: seq<Node>, c: nat, offset: nat, length: nat)
    requires TextReady(text, nodes, c, offset) && 0 < length && offset + length <= |text|
    requires !(nodes[c].children != [] && nodes[|nodes| - 1].kind == Text)
    ensures var r := TextNodes(text, nodes, c, offset, length);
      r[c].children == nodes[c].children + [|nodes|] &&
      |r| == |nodes| + 1 && r[|nodes|].kind == Text &&
      r[|nodes|].value == Bind(text, offset, length) && End(r[|nodes|].value) == offset + length &&
      forall i | 0 <= i < |nodes| :: r[i].value == nodes[i].value
  {
    var span := Bind(text, offset, length);
    assert TextNodes(text, nodes, c, offset, length) == Attach(nodes, c, Node(Text, c, [], span, span, [], TagError.None));
  }

  // ---------------------------------------------------------- script mode

  /**
   * In script mode only comments and `</script>` are recognised: directives,
   * code blocks, open tags and every other close tag are taken one character
   * at a time as text.
   */
  lemma ScriptModeIsOpaque(text: string, rules: Matcher, st: PState)
    requires ValidMatcher(rules) && Inv(text, st) && st.offset < |text| && st.inScript
    requires rules(ServerCommentRule, text, st.offset).None? && XmlComment(text, st.offset).None?
    ensures var close := EndTag(text, st.offset);
      if close.Some? && IsScriptTagName(TagNameOf(text, close.value)) then
        Dispatch(text, rules, st) == CloseTagStep(text, st, close.value) && !Dispatch(text, rules, st).inScript
      else
        Dispatch(text, rules, st) == Fallback(text, st)
  {
  }

  /** Outside script mode a directive match wins over every other rule. */
  lemma DirectiveFirst(text: string, rules: Matcher, st: PState)
    requires ValidMatcher(rules) && Inv(text, st) && st.offset < |text| && !st.inScript
    requires rules(DirectiveRule, text, st.offset).Some?
    ensures var m := rules(DirectiveRule, text, st.offset).value;
      Dispatch(text, rules, st) == LeafStep(text, st, Directive, m, AttributesOf(text, m, |m.names|))
  {
  }

  /** When no rule matches, exactly one character is taken as text. */
  lemma NoMatchTakesOneChar(text: string, rules: Matcher, st: PState)
    requires ValidMatcher(rules) && Inv(text, st) && st.offset < |text|
    requires forall r: Rule :: r != TextRule ==> rules(r, text, st.offset).None?
    requires XmlComment(text, st.offset).None? && EndTag(text, st.offset).None?
    ensures Dispatch(text, rules, st) == Fallback(text, st)
    ensures Dispatch(text, rules, st).offset == st.offset + 1
  {
    assert rules(DirectiveRule, text, st.offset).None? && rules(ServerCommentRule, text, st.offset).None?;
    assert rules(AspExprRule, text, st.offset).None? && rules(DatabindExprRule, text, st.offset).None?;
    assert rules(AspCodeRule, text, st.offset).None? && rules(OpenTagRule, text, st.offset).None?;
  }

  // ------------------------------------------------------------ attributes

  /**
   * ProcessAttributes: the k-th attribute's key and value are the k-th name
   * and value captures; its body runs from the key to the end of the value,
   * one character further when a quote follows; it is data-bound exactly when
   * its value text is spelled as a data-binding expression.
   */
  lemma AttributeSpans(text: string, m: Match, k: nat)
    requires m.index >= 0 && ValidMatch(text, m.index, m) && k < |m.names|
    ensures var a := AttributesOf(text, m, |m.names|)[k];
      var n := m.names[k];
      var v := m.values[k];
      a.key == Bind(text, n.index, n.length) && a.value == Bind(text, v.index, v.length) &&
      a.body.index == n.index &&
      End(a.body) == (if text[v.index + v.length] in {'\'', '"'} then v.index + v.length + 1 else v.index + v.length) &&
      (a.dataBound <==> DataBound(text[v.index..v.index + v.length]))
  {
    AttributesOfPrefix(text, m, |m.names|, k);
  }

  lemma {:induction false} AttributesOfPrefix(text: string, m: Match, j: nat, k: nat)
    requires m.index >= 0 && ValidMatch(text, m.index, m) && k < j <= |m.names|
    ensures AttributesOf(text, m, j)[k] == MakeAttribute(text, m.names[k], m.values[k])
  {
    if j > k + 1 {
      AttributesOfPrefix(text, m, j - 1, k);
    }
  }
}
