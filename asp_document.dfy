/**
 * AspParser's Document: the page text, the tags built from it and the two
 * flags the scan toggles. The tags live in `nodes` (tag 0 is the document
 * itself); the constructor scans the page with ParseStringInternal, whose
 * loop and Process* methods update the tags in place and are proved to build
 * exactly what `AspParse.Parse` describes.
 */
module AspDocument {
  import opened Wrappers
  import opened Strings
  import opened AspFragment
  import opened AspRegex
  import opened AspTree
  import opened AspParse

  class Document {
    /** The page text (Document.Value). */
    const text: string
    /** The patterns that are not given as recognisers in this model. */
    const rules: Matcher
    /** Every tag of the page, the document first. */
    var nodes: seq<Node>
    var inScriptTag: bool
    var closeTagDoesNotCloseScript: bool

    /**
     * new Document(aspx): binds the document's fragment to the whole page and
     * scans it. The tags are those `Parse` describes.
     */
    constructor (aspx: string, rules: Matcher)
      requires |aspx| > 0 && ValidMatcher(rules)
      ensures text == aspx && this.rules == rules
      ensures nodes == Parse(aspx, rules).nodes && inScriptTag == Parse(aspx, rules).inScript
    {
      text := aspx;
      this.rules := rules;
      nodes := [NewNode(Root, -1)];
      inScriptTag := false;
      closeTagDoesNotCloseScript := false;
      new;
      var f, err := Set(Undefined, Some(aspx), 0, |aspx|);
      nodes := [nodes[0].(name := f, value := f)];
      ParseStringInternal();
    }

    /** The scan state made of the tags, the script flag and the loop's two locals. */
    ghost function State(current: nat, offset: nat): PState
      reads this
    {
      PState(nodes, current, offset, inScriptTag)
    }

    /** new Tag(parent, kind): a fresh tag at the end of the arena and of its parent's child list. */
    method NewTag(parent: nat, kind: TagType) returns (t: nat)
      requires parent < |nodes|
      modifies this`nodes
      ensures t == |old(nodes)| && nodes == AddNode(old(nodes), parent, kind)
    {
      t := |nodes|;
      nodes := AddNode(nodes, parent, kind);
    }

    /** tag.ValueFragment.Set(index, length), for a span of the page. */
    method SetValue(t: nat, index: int, length: int)
      requires t < |nodes| && InDocument(text, index, length)
      modifies this`nodes
      ensures nodes == SetValueFragment(old(nodes), t, Bind(text, index, length))
    {
      var f, err := Set(nodes[t].value, Some(text), index, length);
      nodes := SetValueFragment(nodes, t, f);
    }

    /** tag.NameFragment.Set(index, length), for a span of the page. */
    method SetName(t: nat, index: int, length: int)
      requires t < |nodes| && InDocument(text, index, length)
      modifies this`nodes
      ensures nodes == SetNameFragment(old(nodes), t, Bind(text, index, length))
    {
      var f, err := Set(nodes[t].name, Some(text), index, length);
      nodes := SetNameFragment(nodes, t, f);
    }

    /**
     * ProcessTextTag: stretches the current tag's trailing text child to end at
     * `index + length`, or attaches a new text tag spanning those characters.
     */
    method ProcessTextTag(current: nat, index: nat, length: nat)
      requires TextReady(text, nodes, current, index) && 0 < length && index + length <= |text|
      modifies this`nodes
      ensures nodes == TextNodes(text, old(nodes), current, index, length)
    {
      ghost var before := nodes;
      var previous := LastTag(nodes[current].children);
      if previous.Some? && nodes[previous.value].kind == Text {
        var f := nodes[previous.value].value;
        SetValue(previous.value, f.index, index + length - f.index);
        return;
      }
      var span := Bind(text, index, length);
      var t := NewTag(current, Text);
      SetValue(t, index, length);
      AttachUpdate(before, current, NewNode(Text, current), NewNode(Text, current).(value := span));
      SetName(t, index, length);
      AttachUpdate(before, current, NewNode(Text, current).(value := span), NewNode(Text, current).(value := span, name := span));
    }

    /**
     * ProcessAttributes: one attribute per aligned pair of name and value
     * captures, appended in order to the attributes of tag `t`.
     */
    method ProcessAttributes(t: nat, m: Match)
      requires t < |nodes| && m.index >= 0 && ValidMatch(text, m.index, m)
      modifies this`nodes
      ensures nodes == old(nodes)[t := old(nodes)[t].(attributes := old(nodes)[t].attributes + AttributesOf(text, m, |m.names|))]
    {
      var i := 0;
      assert old(nodes)[t].attributes + AttributesOf(text, m, 0) == old(nodes)[t].attributes;
      while i < |m.names|
        invariant 0 <= i <= |m.names|
        invariant nodes == old(nodes)[t := old(nodes)[t].(attributes := old(nodes)[t].attributes + AttributesOf(text, m, i))]
      {
        var name := m.names[i];
        var value := m.values[i];
        assert AttributeCaptures(m, name, value);
        var node := AddAttribute(nodes[t]);
        ghost var pre := nodes[t].attributes;
        var k := |node.attributes| - 1;
        var a := SetAttribute(node.attributes[k], name, value);
        assert a == MakeAttribute(text, name, value);
        assert AttributesOf(text, m, i + 1) == AttributesOf(text, m, i) + [a];
        ReplaceLast(pre, a);
        node := node.(attributes := node.attributes[k := a]);
        assert node.attributes == old(nodes)[t].attributes + AttributesOf(text, m, i + 1);
        nodes := nodes[t := node];
        i := i + 1;
      }
    }

    /** Filling in the attribute just appended. */
    static lemma ReplaceLast(pre: seq<Attribute>, a: Attribute)
      ensures (pre + [NewAttribute])[|pre| := a] == pre + [a]
    {
    }

    /**
     * The body of the ProcessAttributes loop for one capture pair, applied to
     * the attribute just constructed: sets its body, key and value fragments
     * and marks it data-bound when its value is a data-binding expression.
     */
    method SetAttribute(a: Attribute, name: Capture, value: Capture) returns (r: Attribute)
      requires 0 <= name.index && 0 <= name.length && name.index + name.length <= value.index
      requires 0 <= value.length && value.index + value.length < |text|
      ensures r == MakeAttribute(text, name, value).(dataBound := a.dataBound || MakeAttribute(text, name, value).dataBound)
    {
      var dataBound := DataBound(text[value.index..value.index + value.length]);
      var body, e1 := Set(a.body, Some(text), name.index, value.index + value.length - name.index);
      var nextChar := text[body.index + body.length];
      if nextChar == '\'' || nextChar == '"' {
        body, e1 := Set(body, Some(text), body.index, body.length + 1);
      }
      var key, e2 := Set(a.key, Some(text), name.index, name.length);
      var val, e3 := Set(a.value, Some(text), value.index, value.length);
      r := a.(body := body, key := key, value := val);
      if dataBound {
        r := ItIsDataBound(r);
      }
    }

    /**
     * ProcessDirective, ProcessCode and ProcessComment: a tag of `kind`
     * spanning the match is attached to the current tag; a directive also
     * gets the match's attributes.
     */
    method ProcessLeaf(current: nat, kind: TagType, m: Match)
      requires current < |nodes| && m.index >= 0 && ValidMatch(text, m.index, m)
      requires kind in {Directive, Code, Comment}
      modifies this`nodes
      ensures nodes == Attach(old(nodes), current,
                              LeafNode(text, current, kind, m, if kind == Directive then AttributesOf(text, m, |m.names|) else []))
    {
      ghost var before := nodes;
      var span := Bind(text, m.index, m.length);
      var t := NewTag(current, kind);
      SetValue(t, m.index, m.length);
      AttachUpdate(before, current, NewNode(kind, current), NewNode(kind, current).(value := span));
      SetName(t, m.index, m.length);
      AttachUpdate(before, current, NewNode(kind, current).(value := span), NewNode(kind, current).(value := span, name := span));
      if kind == Directive {
        ProcessAttributes(t, m);
        ghost var attrs := AttributesOf(text, m, |m.names|);
        assert [] + attrs == attrs;
        AttachUpdate(before, current, NewNode(kind, current).(value := span, name := span),
                     Node(kind, current, [], span, span, attrs, TagError.None));
      }
    }

    /**
     * ProcessOpenTag: attaches an open tag for the match and returns the new
     * current tag: the open tag itself when it is not self-closing and needs a
     * closing tag (it is then marked unclosed, and `script` starts script
     * mode), the old current tag otherwise.
     */
    method ProcessOpenTag(current: nat, m: Match) returns (next: nat)
      requires current < |nodes| && m.index >= 0 && ValidMatch(text, m.index, m)
      modifies this`nodes, this`inScriptTag
      ensures nodes == Attach(old(nodes), current, OpenNode(text, current, m))
      ensures next == if Closes(text, m) then |old(nodes)| else current
      ensures inScriptTag == (old(inScriptTag) || (Closes(text, m) && IsScriptTagName(TagNameOf(text, m))))
    {
      ghost var before := nodes;
      var span := Bind(text, m.index, m.length);
      var nameSpan := Bind(text, m.tagName.index, m.tagName.length);
      ghost var attrs := AttributesOf(text, m, |m.names|);
      var t := NewTag(current, Open);
      SetValue(t, m.index, m.length);
      AttachUpdate(before, current, NewNode(Open, current), NewNode(Open, current).(value := span));
      SetName(t, m.tagName.index, m.tagName.length);
      AttachUpdate(before, current, NewNode(Open, current).(value := span), NewNode(Open, current).(value := span, name := nameSpan));
      ProcessAttributes(t, m);
      assert [] + attrs == attrs;
      AttachUpdate(before, current, NewNode(Open, current).(value := span, name := nameSpan),
                   Node(Open, current, [], nameSpan, span, attrs, TagError.None));
      var name := text[m.tagName.index..m.tagName.index + m.tagName.length];
      assert name == TagNameOf(text, m);
      if m.empty {
        return current;
      }
      if !RequiresClosing(Open, name) {
        return current;
      }
      nodes := SetError(nodes, t, UnclosedOpenTag);
      AttachUpdate(before, current, Node(Open, current, [], nameSpan, span, attrs, TagError.None),
                   Node(Open, current, [], nameSpan, span, attrs, UnclosedOpenTag));
      if IsScriptTagName(name) {
        inScriptTag := true;
      }
      return t;
    }

    /**
     * ProcessCloseTag. In script mode a close tag other than `</script>` only
     * raises closeTagDoesNotCloseScript. Otherwise the walk up from the current
     * tag finds the open tag it closes, if any; that tag's error is cleared and
     * its parent becomes current; a close tag is attached to the current tag,
     * marked unopened when nothing was closed; `</script>` ends script mode.
     */
    method ProcessCloseTag(current: nat, m: Match) returns (next: nat)
      requires Parents(nodes) && Spans(text, nodes) && current < |nodes| && m.index >= 0 && ValidMatch(text, m.index, m)
      modifies this
      ensures old(inScriptTag) && !IsScriptTagName(TagNameOf(text, m)) ==>
        nodes == old(nodes) && next == current && inScriptTag && closeTagDoesNotCloseScript
      ensures !(old(inScriptTag) && !IsScriptTagName(TagNameOf(text, m))) ==>
        nodes == CloseNodes(text, old(nodes), current, m) && next == CloseCurrent(text, old(nodes), current, m) &&
        inScriptTag == (old(inScriptTag) && !IsScriptTagName(TagNameOf(text, m))) &&
        closeTagDoesNotCloseScript == old(closeTagDoesNotCloseScript)
    {
      var name := text[m.tagName.index..m.tagName.index + m.tagName.length];
      assert name == TagNameOf(text, m);
      if IsScriptTagName(name) {
        inScriptTag := false;
      } else if inScriptTag {
        closeTagDoesNotCloseScript := true;
        return current;
      }
      var openTag := FindOpenTag(current, name);
      next := current;
      if openTag >= 0 {
        nodes := SetError(nodes, openTag, TagError.None);
        next := nodes[openTag].parent;
      }
      AttachCloseTag(next, m, if openTag >= 0 then TagError.None else UnopenedCloseTag);
    }

    /** The walk of ProcessCloseTag up from `current` to the open tag named `name`; -1 when there is none. */
    method FindOpenTag(current: nat, name: string) returns (openTag: int)
      requires Parents(nodes) && Spans(text, nodes) && current < |nodes|
      ensures openTag == match FindOpen(text, nodes, current, name) case Some(k) => k case None => -1
    {
      openTag := current;
      while openTag >= 0
        invariant -1 <= openTag < |nodes|
        invariant FindOpen(text, nodes, openTag, name) == FindOpen(text, nodes, current, name)
        decreases openTag + 1
      {
        if nodes[openTag].kind == Open && EqualsIgnoreCase(name, text[nodes[openTag].name.index..End(nodes[openTag].name)]) {
          return;
        }
        openTag := nodes[openTag].parent;
      }
    }

    /** The close tag of ProcessCloseTag: spans the match, named by its `tagname` capture, attached under `next`. */
    method AttachCloseTag(next: nat, m: Match, error: TagError)
      requires next < |nodes| && m.index >= 0 && ValidMatch(text, m.index, m)
      modifies this`nodes
      ensures nodes == Attach(old(nodes), next, Node(Close, next, [], Bind(text, m.tagName.index, m.tagName.length),
                                                     Bind(text, m.index, m.length), [], error))
    {
      ghost var ns := nodes;
      var span := Bind(text, m.index, m.length);
      var nameSpan := Bind(text, m.tagName.index, m.tagName.length);
      var t := NewTag(next, Close);
      SetValue(t, m.index, m.length);
      AttachUpdate(ns, next, NewNode(Close, next), NewNode(Close, next).(value := span));
      SetName(t, m.tagName.index, m.tagName.length);
      AttachUpdate(ns, next, NewNode(Close, next).(value := span), NewNode(Close, next).(value := span, name := nameSpan));
      nodes := SetError(nodes, t, error);
      AttachUpdate(ns, next, NewNode(Close, next).(value := span, name := nameSpan), Node(Close, next, [], nameSpan, span, [], error));
    }

    /**
     * The rules after the text rule at a cursor inside the page, tried in the
     * parser's order until one matches; that match is processed. Returns the
     * new current tag and the match, none when no rule matched. Whenever the
     * step is one character of text (nothing matched, or the close tag was
     * deferred), nothing has changed yet.
     */
    method TryRules(ghost st: PState, current: nat, offset: nat) returns (current': nat, found: Option<Match>)
      requires st == State(current, offset) && ValidMatcher(rules) && Inv(text, st) && offset < |text|
      requires !closeTagDoesNotCloseScript
      modifies this
      ensures found.Some? ==> found.value.index == offset && ValidMatch(text, offset, found.value)
      ensures found.None? || closeTagDoesNotCloseScript ==>
        nodes == old(nodes) && current' == current && inScriptTag == old(inScriptTag) &&
        Dispatch(text, rules, st) == Fallback(text, st)
      ensures found.Some? && !closeTagDoesNotCloseScript ==>
        State(current', MatchEnd(found.value)) == Dispatch(text, rules, st)
    {
      current' := current;
      if !inScriptTag {
        found := rules(DirectiveRule, text, offset);
        if found.Some? {
          ProcessLeaf(current, Directive, found.value);
          return;
        }
      }
      current', found := TryCommentRules(st, current, offset);
    }

    /** The server comment and XML comment rules, then the markup rules. */
    method TryCommentRules(ghost st: PState, current: nat, offset: nat) returns (current': nat, found: Option<Match>)
      requires st == State(current, offset) && ValidMatcher(rules) && Inv(text, st) && offset < |text|
      requires !closeTagDoesNotCloseScript
      modifies this
      ensures found.Some? ==> found.value.index == offset && ValidMatch(text, offset, found.value)
      ensures found.None? || closeTagDoesNotCloseScript ==>
        nodes == old(nodes) && current' == current && inScriptTag == old(inScriptTag) &&
        CommentDispatch(text, rules, st) == Fallback(text, st)
      ensures found.Some? && !closeTagDoesNotCloseScript ==>
        State(current', MatchEnd(found.value)) == CommentDispatch(text, rules, st)
    {
      current' := current;
      found := rules(ServerCommentRule, text, offset);
      if found.Some? {
        ProcessLeaf(current, Comment, found.value);
        return;
      }
      found := XmlComment(text, offset);
      if found.Some? {
        ProcessLeaf(current, Comment, found.value);
        return;
      }
      current', found := TryMarkupRules(st, current, offset);
    }

    /** The rules after the comments: outside script mode the code and open tag rules, then the end tag rule. */
    method TryMarkupRules(ghost st: PState, current: nat, offset: nat) returns (current': nat, found: Option<Match>)
      requires st == State(current, offset) && ValidMatcher(rules) && Inv(text, st) && offset < |text|
      requires !closeTagDoesNotCloseScript
      modifies this
      ensures found.Some? ==> found.value.index == offset && ValidMatch(text, offset, found.value)
      ensures found.None? || closeTagDoesNotCloseScript ==>
        nodes == old(nodes) && current' == current && inScriptTag == old(inScriptTag) &&
        MarkupDispatch(text, rules, st) == Fallback(text, st)
      ensures found.Some? && !closeTagDoesNotCloseScript ==>
        State(current', MatchEnd(found.value)) == MarkupDispatch(text, rules, st)
    {
      if !inScriptTag {
        current', found := TryCodeRules(st, current, offset);
      } else {
        current', found := TryCloseRule(st, current, offset);
      }
    }

    /** The expression, data-binding expression and code block rules, then the open tag rule. */
    method TryCodeRules(ghost st: PState, current: nat, offset: nat) returns (current': nat, found: Option<Match>)
      requires st == State(current, offset) && ValidMatcher(rules) && Inv(text, st) && offset < |text|
      requires !closeTagDoesNotCloseScript && !inScriptTag
      modifies this
      ensures found.Some? ==> found.value.index == offset && ValidMatch(text, offset, found.value)
      ensures found.None? || closeTagDoesNotCloseScript ==>
        nodes == old(nodes) && current' == current && inScriptTag == old(inScriptTag) &&
        CodeDispatch(text, rules, st) == Fallback(text, st)
      ensures found.Some? && !closeTagDoesNotCloseScript ==>
        State(current', MatchEnd(found.value)) == CodeDispatch(text, rules, st)
    {
      current' := current;
      found := FindCode(offset);
      if found.Some? {
        CodeLeaf(st, current, found.value);
        return;
      }
      current', found := TryOpenRule(st, current, offset);
    }

    /** A code match processed as ProcessCode does: the scan state becomes `LeafStep`'s. */
    method CodeLeaf(ghost st: PState, current: nat, m: Match)
      requires st == State(current, st.offset) && Inv(text, st) && st.offset < |text|
      requires m.index == st.offset && ValidMatch(text, st.offset, m)
      modifies this`nodes
      ensures State(current, MatchEnd(m)) == LeafStep(text, st, Code, m, [])
    {
      ProcessLeaf(current, Code, m);
    }

    /** The expression, data-binding expression and code block rules, tried in turn until one matches. */
    method FindCode(offset: nat) returns (found: Option<Match>)
      requires ValidMatcher(rules)
      ensures found == CodeMatch(text, rules, offset)
    {
      found := rules(AspExprRule, text, offset);
      if found.None? {
        found := rules(DatabindExprRule, text, offset);
      }
      if found.None? {
        found := rules(AspCodeRule, text, offset);
      }
    }

    /** The open tag rule, then the end tag rule. */
    method TryOpenRule(ghost st: PState, current: nat, offset: nat) returns (current': nat, found: Option<Match>)
      requires st == State(current, offset) && ValidMatcher(rules) && Inv(text, st) && offset < |text|
      requires !closeTagDoesNotCloseScript && !inScriptTag
      modifies this
      ensures found.Some? ==> found.value.index == offset && ValidMatch(text, offset, found.value)
      ensures found.None? || closeTagDoesNotCloseScript ==>
        nodes == old(nodes) && current' == current && inScriptTag == old(inScriptTag) &&
        OpenDispatch(text, rules, st) == Fallback(text, st)
      ensures found.Some? && !closeTagDoesNotCloseScript ==>
        State(current', MatchEnd(found.value)) == OpenDispatch(text, rules, st)
    {
      found := rules(OpenTagRule, text, offset);
      if found.Some? {
        current' := ProcessOpenTag(current, found.value);
        return;
      }
      current', found := TryCloseRule(st, current, offset);
    }

    /** The end tag rule, last in the loop body. */
    method TryCloseRule(ghost st: PState, current: nat, offset: nat) returns (current': nat, found: Option<Match>)
      requires st == State(current, offset) && Inv(text, st) && offset < |text|
      requires !closeTagDoesNotCloseScript
      modifies this
      ensures found.Some? ==> found.value.index == offset && ValidMatch(text, offset, found.value)
      ensures found.None? || closeTagDoesNotCloseScript ==>
        nodes == old(nodes) && current' == current && inScriptTag == old(inScriptTag) &&
        CloseDispatch(text, st) == Fallback(text, st)
      ensures found.Some? && !closeTagDoesNotCloseScript ==>
        State(current', MatchEnd(found.value)) == CloseDispatch(text, st)
    {
      current' := current;
      found := EndTag(text, offset);
      if found.Some? {
        if !Deferred(text, st, found.value) {
          CloseTagState(text, st, found.value);
        }
        current' := ProcessCloseTag(current, found.value);
      }
    }

    /**
     * One pass of the loop body after the text rule: the rules, then the
     * cursor moves past the match, or by one character taken as text when
     * nothing matched or a close tag was deferred.
     */
    method ApplyRules(ghost st: PState, current: nat, offset: nat) returns (current': nat, offset': nat)
      requires st == State(current, offset) && ValidMatcher(rules) && Inv(text, st) && offset < |text|
      modifies this
      ensures State(current', offset') == Dispatch(text, rules, st)
    {
      closeTagDoesNotCloseScript := false;
      FallbackState(text, st);
      var found;
      current', found := TryRules(st, current, offset);
      if found.None? || closeTagDoesNotCloseScript {
        ProcessTextTag(current', offset, 1);
        offset' := offset + 1;
      } else {
        offset' := MatchEnd(found.value);
      }
    }

    /** One pass of the do-while loop: the text rule, then the others unless the page is consumed. */
    method Pass(ghost st: PState, current: nat, offset: nat) returns (current': nat, offset': nat)
      requires st == State(current, offset) && ValidMatcher(rules) && Inv(text, st) && offset < |text|
      modifies this
      ensures State(current', offset') == Step(text, rules, st)
    {
      current', offset' := current, offset;
      var found := rules(TextRule, text, offset);
      if found.Some? {
        assert TextReady(text, nodes, current, offset);
        ProcessTextTag(current, found.value.index, found.value.length);
        offset' := MatchEnd(found.value);
      }
      assert State(current', offset') == TextPhase(text, rules, st);
      if offset' != |text| {
        current', offset' := ApplyRules(State(current', offset'), current', offset');
      }
    }

    /**
     * ParseStringInternal: the do-while loop over the page, one pass at a
     * time until the cursor reaches the end.
     */
    method ParseStringInternal()
      requires ValidMatcher(rules) && |text| > 0 && nodes == Init(text).nodes && !inScriptTag
      modifies this
      ensures nodes == Parse(text, rules).nodes && inScriptTag == Parse(text, rules).inScript
    {
      var offset: nat := 0;
      var current: nat := 0;
      InitInv(text);
      while offset != |text|
        invariant offset <= |text| && Inv(text, State(current, offset))
        invariant offset < |text| ==> Run(text, rules, State(current, offset)) == Parse(text, rules)
        invariant offset == |text| ==> State(current, offset) == Parse(text, rules)
        decreases |text| - offset
      {
        current, offset := Pass(State(current, offset), current, offset);
      }
    }
  }

  /**
   * new Document(aspx) with its failure: an empty page cannot be bound, because
   * `Set(0, 0)` finds index 0 past the last character.
   */
  method NewDocument(aspx: string, rules: Matcher) returns (r: Result<Document, FragmentError>)
    requires ValidMatcher(rules)
    ensures aspx == [] ==> r == Failure(IndexPastEnd)
    ensures aspx != [] ==>
      r.Success? && fresh(r.value) && r.value.text == aspx && r.value.nodes == Parse(aspx, rules).nodes
  {
    if aspx == [] {
      var f, err := Set(Undefined, Some(aspx), 0, 0);
      return Failure(err.value);
    }
    var d := new Document(aspx, rules);
    return Success(d);
  }
}
