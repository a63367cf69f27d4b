/**
 * The pattern matches the ASP.NET page parser relies on. The end tag, the
 * markup comment and the attribute data-binding test are given as recognisers
 * proved against a declarative reading of their patterns; the remaining
 * patterns (text, directive, server comment, expression, data-binding
 * expression, code block and open tag) are a parameter constrained by
 * `ValidMatcher`.
 */
module AspRegex {
  import opened Wrappers
  import opened Strings

  /** A capture of a named group: a span of the searched text. */
  datatype Capture = Capture(index: int, length: int)

  /**
   * A successful match: its span, the `tagname` capture, whether the `empty`
   * group took part, and the `attrname` / `attrval` captures in order.
   */
  datatype Match = Match(index: int, length: int, tagName: Capture, empty: bool,
                         names: seq<Capture>, values: seq<Capture>)

  function MatchEnd(m: Match): int { m.index + m.length }

  /**
   * The patterns whose definitions are outside the model: TextRegex,
   * DirectiveRegex, CommentRegex (server comments), AspExprRegex,
   * DatabindExprRegex, AspCodeRegex and TagRegex.
   */
  datatype Rule = TextRule | DirectiveRule | ServerCommentRule | AspExprRule | DatabindExprRule | AspCodeRule | OpenTagRule

  /** `Regex.Match(text, offset)` for each rule that is a parameter of the model. */
  type Matcher = (Rule, string, nat) -> Option<Match>

  /** An attribute's name capture precedes its value capture, which ends before the match does. */
  predicate AttributeCaptures(m: Match, n: Capture, v: Capture) {
    m.index <= n.index && 0 <= n.length && n.index + n.length <= v.index &&
    0 <= v.length && v.index + v.length < MatchEnd(m)
  }

  /**
   * What every pattern anchored with `\G` guarantees: a match found at offset
   * `o` starts there, is non-empty and lies in the text; its captures lie
   * inside it, with one value capture per name capture.
   */
  predicate ValidMatch(s: string, o: nat, m: Match) {
    m.index == o && m.length > 0 && MatchEnd(m) <= |s| &&
    m.index <= m.tagName.index && 0 <= m.tagName.length &&
    m.tagName.index + m.tagName.length <= MatchEnd(m) && m.tagName.index < MatchEnd(m) &&
    |m.names| == |m.values| &&
    forall i :: 0 <= i < |m.names| ==> AttributeCaptures(m, m.names[i], m.values[i])
  }

  ghost predicate ValidMatcher(rules: Matcher) {
    forall r, s, o :: rules(r, s, o).Some? ==> ValidMatch(s, o, rules(r, s, o).value)
  }

  /** A match without named groups. */
  function Plain(o: nat, length: nat): Match {
    Match(o, length, Capture(o, 0), false, [], [])
  }

  // ---------------------------------------------------------------- end tag

  /** `[\w:\.]`. */
  predicate IsNameChar(c: char) { IsWordChar(c) || c == ':' || c == '.' }

  function NameRunEnd(s: string, i: nat): (r: nat)
    requires i <= |s|
    ensures i <= r <= |s|
    ensures forall j :: i <= j < r ==> IsNameChar(s[j])
    ensures r == |s| || !IsNameChar(s[r])
    decreases |s| - i
  {
    if i < |s| && IsNameChar(s[i]) then NameRunEnd(s, i + 1) else i
  }

  function SpaceRunEnd(s: string, i: nat): (r: nat)
    requires i <= |s|
    ensures i <= r <= |s|
    ensures forall j :: i <= j < r ==> IsSpace(s[j])
    ensures r == |s| || !IsSpace(s[r])
    decreases |s| - i
  {
    if i < |s| && IsSpace(s[i]) then SpaceRunEnd(s, i + 1) else i
  }

  /** EndTagRegex `\G</(?<tagname>[\w:\.]+)\s*>`. */
  function EndTag(s: string, o: nat): (r: Option<Match>)
    ensures r.Some? ==> ValidMatch(s, o, r.value)
  {
    if o + 2 <= |s| && s[o] == '<' && s[o + 1] == '/' then
      var n := NameRunEnd(s, o + 2);
      var w := SpaceRunEnd(s, n);
      if n > o + 2 && w < |s| && s[w] == '>' then
        Some(Match(o, w + 1 - o, Capture(o + 2, n - o - 2), false, [], []))
      else None
    else None
  }

  /** The text at `o` spells `</`, a non-empty name, white space and `>`. */
  predicate EndTagShape(s: string, o: nat, name: string, ws: string) {
    OccursAt(s, "</" + name + ws + ">", o) && |name| > 0 &&
    (forall j :: 0 <= j < |name| ==> IsNameChar(name[j])) && AllSpace(ws)
  }

  /** Every end-tag match has the shape of the pattern, and its `tagname` is the name. */
  lemma EndTagSound(s: string, o: nat)
    requires EndTag(s, o).Some?
    ensures var m := EndTag(s, o).value;
      var name := s[o + 2..o + 2 + m.tagName.length];
      var ws := s[o + 2 + m.tagName.length..MatchEnd(m) - 1];
      m.index == o && m.tagName.index == o + 2 && EndTagShape(s, o, name, ws) &&
      m.length == 3 + |name| + |ws|
  {
    var n := NameRunEnd(s, o + 2);
    var w := SpaceRunEnd(s, n);
    EndTagGlue(s, o, n, w);
    SpaceSlice(s, n, w);
    var name := s[o + 2..n];
    forall j | 0 <= j < |name| ensures IsNameChar(name[j]) {
      assert name[j] == s[o + 2 + j];
    }
  }

  /** `</`, the name, the white space and `>` glued back give the text of the match. */
  lemma EndTagGlue(s: string, o: nat, n: nat, w: nat)
    requires o + 2 <= n <= w < |s|
    requires s[o] == '<' && s[o + 1] == '/' && s[w] == '>'
    ensures s[o..w + 1] == "</" + s[o + 2..n] + s[n..w] + ">"
  {
    SliceConcat(s, o, o + 2, n);
    SliceConcat(s, o, n, w);
    SliceConcat(s, o, w, w + 1);
    assert s[o..o + 2] == "</";
    assert s[w..w + 1] == ">";
  }

  /** Text of the pattern's shape is matched, and in one way only. */
  lemma EndTagComplete(s: string, o: nat, name: string, ws: string)
    requires EndTagShape(s, o, name, ws)
    ensures EndTag(s, o) == Some(Match(o, 3 + |name| + |ws|, Capture(o + 2, |name|), false, [], []))
  {
    var t := "</" + name + ws + ">";
    var k := o + 2 + |name|;
    assert s[o..o + |t|] == t;
    forall j | o + 2 <= j < k ensures IsNameChar(s[j]) { assert s[j] == t[j - o] == name[j - o - 2]; }
    forall j | k <= j < k + |ws| ensures IsSpace(s[j]) { assert s[j] == t[j - o] == ws[j - k]; }
    assert s[k + |ws|] == t[|t| - 1] == '>';
    assert !IsNameChar(s[k]) by {
      if |ws| > 0 { assert IsSpace(s[k]); } else { assert s[k] == '>'; }
    }
    assert NameRunEnd(s, o + 2) == k;
    assert SpaceRunEnd(s, k) == k + |ws|;
  }

  // --------------------------------------------------------------- comments

  /** The first `-` at or after `p`, or -1. */
  function NextDash(s: string, p: nat): (r: int)
    requires p <= |s|
    ensures r == -1 || (p <= r < |s| && s[r] == '-')
    ensures forall j :: p <= j < (if r == -1 then |s| else r) ==> s[j] != '-'
    decreases |s| - p
  {
    if p == |s| then -1 else if s[p] == '-' then p else NextDash(s, p + 1)
  }

  /** `tail` is spelt at `p`, character by character. */
  predicate SpeltAt(s: string, tail: string, p: int) {
    0 <= p && p + |tail| <= |s| && forall k :: 0 <= k < |tail| ==> s[p + k] == tail[k]
  }

  /**
   * `(([^-]*)-)*?` followed by `tail`, from position `p`: each repetition runs
   * to and past the next `-`; the lazy loop stops at the first position where
   * `tail` follows. Gives the end of the match.
   */
  function BlocksThen(s: string, p: nat, tail: string): (r: Option<int>)
    requires p <= |s|
    ensures r.Some? ==> p <= r.value
    decreases |s| - p
  {
    if SpeltAt(s, tail, p) then Some(p + |tail|)
    else
      var q := NextDash(s, p);
      if q == -1 then None else BlocksThen(s, q + 1, tail)
  }

  /** Position `j` holds a `-` that `tail` follows. */
  predicate DashThenAt(s: string, tail: string, j: int) {
    0 <= j < |s| && s[j] == '-' && SpeltAt(s, tail, j + 1)
  }

  /** The first position at or after `i` holding a `-` that `tail` follows, or -1. */
  function FirstDashThen(s: string, i: nat, tail: string): (r: int)
    requires i <= |s|
    ensures r == -1 || (i <= r && DashThenAt(s, tail, r))
    decreases |s| - i
  {
    if i == |s| then -1
    else if DashThenAt(s, tail, i) then i
    else FirstDashThen(s, i + 1, tail)
  }

  /** No `-` before the next one can start a closer: the search may skip to it. */
  lemma {:induction false} SkipToDash(s: string, p: nat, tail: string)
    requires p <= |s|
    ensures var q := NextDash(s, p);
      FirstDashThen(s, p, tail) == FirstDashThen(s, if q == -1 then |s| else q, tail)
    decreases |s| - p
  {
    if p < |s| && s[p] != '-' {
      assert !DashThenAt(s, tail, p);
      SkipToDash(s, p + 1, tail);
    }
  }

  /**
   * Behind a `-`, the lazy block loop ends exactly at the first `-` that
   * `tail` follows.
   */
  lemma {:induction false} BlocksThenFirst(s: string, p: nat, tail: string)
    requires 1 <= p <= |s| && s[p - 1] == '-'
    ensures BlocksThen(s, p, tail) == CloserEnd(FirstDashThen(s, p - 1, tail), tail)
    decreases |s| - p
  {
    if SpeltAt(s, tail, p) {
      assert DashThenAt(s, tail, p - 1);
    } else {
      assert FirstDashThen(s, p - 1, tail) == FirstDashThen(s, p, tail);
      SkipToDash(s, p, tail);
      var q := NextDash(s, p);
      if q != -1 {
        BlocksThenFirst(s, q + 1, tail);
      }
    }
  }

  /** Where a comment ends whose closing `-` is at `d` (-1: none). */
  function CloserEnd(d: int, tail: string): (r: Option<int>)
    ensures r.Some? <==> d != -1
    ensures r.Some? ==> r.value == d + 1 + |tail|
  {
    if d == -1 then None else Some(d + 1 + |tail|)
  }

  /** Where the lazy loop stops, `tail` has just been read, inside the text. */
  lemma {:induction false} BlocksThenEnds(s: string, p: nat, tail: string)
    requires p <= |s|
    ensures var r := BlocksThen(s, p, tail);
      r.Some? ==> p + |tail| <= r.value <= |s|
    decreases |s| - p
  {
    if !SpeltAt(s, tail, p) {
      var q := NextDash(s, p);
      if q != -1 {
        BlocksThenEnds(s, q + 1, tail);
      }
    }
  }

  /** The comment pattern `\G<open(([^-]*)-)*?tail` at `o`, for an opener ending in `-`. */
  function CommentAt(s: string, o: nat, open: string, tail: string): (r: Option<Match>)
    requires |open| > 0 && open[|open| - 1] == '-'
    ensures r.Some? ==> ValidMatch(s, o, r.value)
  {
    if OccursAt(s, open, o) then
      BlocksThenEnds(s, o + |open|, tail);
      match BlocksThen(s, o + |open|, tail)
      case Some(e) => Some(Plain(o, e - o))
      case None => None
    else None
  }

  /** The XML comment pattern `\G<!--(([^-]*)-)*?->` of the document parser. */
  function XmlComment(s: string, o: nat): (r: Option<Match>)
    ensures r.Some? ==> ValidMatch(s, o, r.value)
  {
    CommentAt(s, o, "<!--", "->")
  }

  /**
   * A comment runs from its opener to just past the first closer that starts
   * at or after the opener's last `-`: `<!---->`, `<!--->` and
   * `<!-- a -- b -->` all end at their first `-->`.
   */
  lemma CommentEndsAtFirstClose(s: string, o: nat, open: string, tail: string)
    requires |open| > 0 && open[|open| - 1] == '-'
    requires OccursAt(s, open, o)
    ensures FirstDashThen(s, o + |open| - 1, tail) == -1 ==> CommentAt(s, o, open, tail) == None
    ensures FirstDashThen(s, o + |open| - 1, tail) != -1 ==>
      CommentAt(s, o, open, tail) == Some(Plain(o, FirstDashThen(s, o + |open| - 1, tail) + 1 + |tail| - o))
  {
    OpenerEndsInDash(s, o, open);
    BlocksThenFirst(s, o + |open|, tail);
    CommentAtBlocks(s, o, open, tail);
  }

  /** The opener's last `-` is in the text, just before the blocks. */
  lemma OpenerEndsInDash(s: string, o: nat, open: string)
    requires |open| > 0 && open[|open| - 1] == '-'
    requires OccursAt(s, open, o)
    ensures 1 <= o + |open| <= |s| && s[o + |open| - 1] == '-'
  {
    assert s[o + |open| - 1] == s[o..o + |open|][|open| - 1];
  }

  /** Behind the opener, the comment ends where the block loop does. */
  lemma CommentAtBlocks(s: string, o: nat, open: string, tail: string)
    requires |open| > 0 && open[|open| - 1] == '-'
    requires OccursAt(s, open, o)
    ensures BlocksThen(s, o + |open|, tail).None? ==> CommentAt(s, o, open, tail) == None
    ensures BlocksThen(s, o + |open|, tail).Some? ==>
      CommentAt(s, o, open, tail) == Some(Plain(o, BlocksThen(s, o + |open|, tail).value - o))
  {
  }

  // ------------------------------------------------ data-binding attribute values

  /** The end of `v[..k]` once trailing white space is removed. */
  function TrimmedEnd(v: string, k: nat): (e: nat)
    requires k <= |v|
    ensures e <= k
    ensures forall j :: e <= j < k ==> IsSpace(v[j])
    ensures e == 0 || !IsSpace(v[e - 1])
  {
    if k > 0 && IsSpace(v[k - 1]) then TrimmedEnd(v, k - 1) else k
  }

  /**
   * DataBindRegex `\G\s*<%\s*?#(?<encode>:)?(?<code>.*?)?%>\s*\z` applied to
   * a whole attribute value: white space, `<%`, white space, `#`, anything,
   * then `%>` and white space to the end.
   */
  predicate DataBound(v: string) {
    var i := SpaceRunEnd(v, 0);
    i + 2 <= |v| && v[i] == '<' && v[i + 1] == '%' &&
    var j := SpaceRunEnd(v, i + 2);
    j < |v| && v[j] == '#' &&
    var e := TrimmedEnd(v, |v|);
    j + 3 <= e && v[e - 2] == '%' && v[e - 1] == '>'
  }

  /** A value spelled by the pattern is recognised as data-bound. */
  lemma DataBoundComplete(w1: string, w2: string, code: string, w3: string)
    requires AllSpace(w1) && AllSpace(w2) && AllSpace(w3)
    ensures DataBound(w1 + "<%" + w2 + "#" + code + "%>" + w3)
  {
    var v := w1 + "<%" + w2 + "#" + code + "%>" + w3;
    var i := |w1|;
    var j := i + 2 + |w2|;
    var e := |v| - |w3|;
    forall k | 0 <= k < i ensures IsSpace(v[k]) { assert v[k] == w1[k]; }
    assert v[i] == '<' && v[i + 1] == '%';
    assert SpaceRunEnd(v, 0) == i;
    forall k | i + 2 <= k < j ensures IsSpace(v[k]) { assert v[k] == w2[k - i - 2]; }
    assert v[j] == '#';
    assert SpaceRunEnd(v, i + 2) == j;
    forall k | e <= k < |v| ensures IsSpace(v[k]) { assert v[k] == w3[k - e]; }
    assert v[e - 2] == '%' && v[e - 1] == '>';
    assert TrimmedEnd(v, |v|) == e;
  }

  /** Cutting a string at six ascending positions and gluing the pieces back gives the string. */
  lemma SixCuts(v: string, a: nat, b: nat, c: nat, d: nat, e: nat, f: nat)
    requires a <= b <= c <= d <= e <= f <= |v|
    ensures v == v[..a] + v[a..b] + v[b..c] + v[c..d] + v[d..e] + v[e..f] + v[f..]
  {
    SliceConcat(v, 0, a, b);
    SliceConcat(v, 0, b, c);
    SliceConcat(v, 0, c, d);
    SliceConcat(v, 0, d, e);
    SliceConcat(v, 0, e, f);
    SliceConcat(v, 0, f, |v|);
    assert v[..a] == v[0..a];
    assert v[f..] == v[f..|v|];
  }

  /**
   * `v` is white space up to `i`, `<%` at `i`, white space up to `j`, `#` at
   * `j`, then code, `%>` ending at `e`, and white space to the end.
   */
  predicate SpelledAsDataBinding(v: string, i: int, j: int, e: int) {
    0 <= i && i + 2 <= j && j + 3 <= e <= |v| &&
    AllSpace(v[..i]) && AllSpace(v[i + 2..j]) && AllSpace(v[e..]) &&
    v == v[..i] + "<%" + v[i + 2..j] + "#" + v[j + 1..e - 2] + "%>" + v[e..]
  }

  /** A slice whose every character is white space is all white space. */
  lemma SpaceSlice(v: string, a: nat, b: nat)
    requires a <= b <= |v|
    requires forall k :: a <= k < b ==> IsSpace(v[k])
    ensures AllSpace(v[a..b])
  {
    forall k | 0 <= k < b - a ensures IsSpace(v[a..b][k]) {
      assert v[a..b][k] == v[a + k];
    }
  }

  /** The positional facts of a data binding give its spelling. */
  lemma SpelledAt(v: string, i: nat, j: nat, e: nat)
    requires i + 2 <= j && j + 3 <= e <= |v|
    requires forall k :: 0 <= k < i ==> IsSpace(v[k])
    requires forall k :: i + 2 <= k < j ==> IsSpace(v[k])
    requires forall k :: e <= k < |v| ==> IsSpace(v[k])
    requires v[i] == '<' && v[i + 1] == '%' && v[j] == '#' && v[e - 2] == '%' && v[e - 1] == '>'
    ensures SpelledAsDataBinding(v, i, j, e)
  {
    SpaceSlice(v, 0, i);
    SpaceSlice(v, i + 2, j);
    SpaceSlice(v, e, |v|);
    assert v[..i] == v[0..i];
    assert v[e..] == v[e..|v|];
    DelimitersGlue(v, i, j, e);
  }

  /** The pieces between the delimiters, glued back with the delimiters, give the value. */
  lemma DelimitersGlue(v: string, i: nat, j: nat, e: nat)
    requires i + 2 <= j && j + 3 <= e <= |v|
    requires v[i] == '<' && v[i + 1] == '%' && v[j] == '#' && v[e - 2] == '%' && v[e - 1] == '>'
    ensures v == v[..i] + "<%" + v[i + 2..j] + "#" + v[j + 1..e - 2] + "%>" + v[e..]
  {
    assert v[i..i + 2] == "<%";
    assert v[j..j + 1] == "#";
    assert v[e - 2..e] == "%>";
    SixCuts(v, i, i + 2, j, j + 1, e - 2, e);
  }

  /** A value recognised as data-bound is spelled by the pattern. */
  lemma DataBoundSound(v: string)
    requires DataBound(v)
    ensures SpelledAsDataBinding(v, SpaceRunEnd(v, 0), SpaceRunEnd(v, SpaceRunEnd(v, 0) + 2), TrimmedEnd(v, |v|))
  {
    var i := SpaceRunEnd(v, 0);
    var j := SpaceRunEnd(v, i + 2);
    var e := TrimmedEnd(v, |v|);
    SpelledAt(v, i, j, e);
  }
}
