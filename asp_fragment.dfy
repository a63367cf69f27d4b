/**
 * A fragment of an ASP.NET page: a span of the page text together with the
 * one-based line and column at which it starts (AspParser DocumentFragment).
 */
module AspFragment {
  import opened Wrappers
  import opened Strings

  /** The four fields of a fragment; -1 everywhere until the fragment is first set. */
  datatype Fragment = Fragment(index: int, length: int, lineNo: int, columnNo: int)

  /** The state a fragment is created in. */
  const Undefined: Fragment := Fragment(-1, -1, -1, -1)

  /** Why setting or reading a fragment raises. */
  datatype FragmentError =
    | IndexNegative        // "Index must be greater or equal to zero"
    | IndexPastEnd         // "Index cannot exceed document length"
    | LengthNegative       // "Length must be greater or equal to zero"
    | SpanPastEnd          // "Index plus length cannot exceed document length"
    | IndexOutOfRange      // the line-counting loop indexes an empty string
    | NotDefined           // "Index and length not defined."
    | SubstringOutOfRange  // Substring called with a span outside the text

  predicate Defined(f: Fragment) { f.index != -1 && f.length != -1 }

  function End(f: Fragment): int { f.index + f.length }

  /** Position of the last line feed strictly before `i`, or -1 when there is none. */
  function LastNewline(text: string, i: nat): (r: int)
    requires i <= |text|
    ensures -1 <= r < i
    ensures r >= 0 ==> text[r] == '\n'
    ensures forall j :: r < j < i ==> text[j] != '\n'
  {
    if i == 0 then -1 else if text[i - 1] == '\n' then i - 1 else LastNewline(text, i - 1)
  }

  /** One-based line on which position `i` lies: one more than the line feeds before it. */
  function LineOf(text: string, i: nat): int
    requires i <= |text|
  {
    if i == 0 then 1 else LineOf(text, i - 1) + (if text[i - 1] == '\n' then 1 else 0)
  }

  /** One-based column of position `i` within its line. */
  function ColumnOf(text: string, i: nat): int
    requires i <= |text|
  {
    i - LastNewline(text, i)
  }

  /** A span of the document that `Set` accepts. */
  predicate InDocument(text: string, index: int, length: int) {
    0 <= index < |text| && 0 <= length && index + length <= |text|
  }

  /** The fragment `Set(index, length)` leaves behind on a fragment of document `text`. */
  function Bind(text: string, index: int, length: int): (f: Fragment)
    requires InDocument(text, index, length)
  {
    Fragment(index, length, LineOf(text, index), ColumnOf(text, index))
  }

  /** A fragment whose fields are those `Set` computes for its own span. */
  predicate Bound(text: string, f: Fragment) {
    InDocument(text, f.index, f.length) && f == Bind(text, f.index, f.length)
  }

  lemma {:induction false} CountCharSnoc(s: string, x: char, c: char)
    ensures CountChar(s + [x], c) == CountChar(s, c) + (if x == c then 1 else 0)
  {
    if s == [] {
      assert s + [x] == [x];
    } else {
      assert (s + [x])[1..] == s[1..] + [x];
      CountCharSnoc(s[1..], x, c);
    }
  }

  /**
   * Moving one character forward: a line feed starts line n + 1 at column 1;
   * any other character keeps the line and advances the column by one.
   */
  lemma LineColumnStep(text: string, i: nat)
    requires i < |text|
    ensures LineOf(text, i + 1) == LineOf(text, i) + (if text[i] == '\n' then 1 else 0)
    ensures ColumnOf(text, i + 1) == (if text[i] == '\n' then 1 else ColumnOf(text, i) + 1)
  {
  }

  /** The line of a position is one more than the number of line feeds before it. */
  lemma {:induction false} LineCountsNewlines(text: string, i: nat)
    requires i <= |text|
    ensures LineOf(text, i) == 1 + CountChar(text[..i], '\n')
  {
    if i > 0 {
      LineCountsNewlines(text, i - 1);
      assert text[..i] == text[..i - 1] + [text[i - 1]];
      CountCharSnoc(text[..i - 1], text[i - 1], '\n');
    }
  }

  /** The first line starts at line 1, column 1, and every column is at least 1. */
  lemma {:induction false} LineColumnBounds(text: string, i: nat)
    requires i <= |text|
    ensures 1 <= ColumnOf(text, i) <= i + 1
    ensures 1 <= LineOf(text, i) <= i + 1
    ensures i == 0 ==> LineOf(text, i) == 1 && ColumnOf(text, i) == 1
  {
    if i > 0 {
      LineColumnBounds(text, i - 1);
      LineColumnStep(text, i - 1);
    }
  }

  /**
   * DocumentFragment.Set: validates the span, then counts the line feeds before
   * `index`. `root` is the text of the owning document, or None when the
   * fragment has no document. On an error the fragment keeps whatever the
   * source had already written before raising.
   */
  method Set(f: Fragment, root: Option<string>, index: int, length: int)
    returns (g: Fragment, err: Option<FragmentError>)
    ensures index < 0 ==> err == Some(IndexNegative) && g == f
    ensures index >= 0 && root.Some? && index > |root.value| - 1 ==> err == Some(IndexPastEnd) && g == f
    ensures index >= 0 && !(root.Some? && index > |root.value| - 1) && length < 0 ==>
      err == Some(LengthNegative) && g == f
    ensures index >= 0 && root.Some? && index <= |root.value| - 1 && length >= 0 && index + length > |root.value| ==>
      err == Some(SpanPastEnd) && g == f
    ensures err.None? <==>
      (root.Some? && InDocument(root.value, index, length)) || (root.None? && index == 0 && length >= 0)
    ensures root.Some? && err.None? ==> g == Bind(root.value, index, length)
    ensures root.None? && err.None? ==> g == Fragment(0, length, 1, 1)
    ensures root.None? && index > 0 && length >= 0 ==>
      err == Some(IndexOutOfRange) && g == Fragment(index, length, 1, f.columnNo)
  {
    if index < 0 { return f, Some(IndexNegative); }
    if root.Some? && index > |root.value| - 1 { return f, Some(IndexPastEnd); }
    if length < 0 { return f, Some(LengthNegative); }
    if root.Some? && index + length > |root.value| { return f, Some(SpanPastEnd); }
    g := f.(index := index, length := length, lineNo := 1);
    var aspx := if root.Some? then root.value[..index] else "";
    var lastLineEnd := -1;
    var i := 0;
    while i < index
      invariant 0 <= i <= index
      invariant root.Some? ==> |aspx| == index && aspx == root.value[..index]
      invariant root.Some? ==> g.lineNo == LineOf(root.value, i) && lastLineEnd == LastNewline(root.value, i)
      invariant root.None? ==> i == 0 && lastLineEnd == -1 && g == Fragment(index, length, 1, f.columnNo)
      invariant g.index == index && g.length == length
    {
      if i >= |aspx| { return g, Some(IndexOutOfRange); }
      LineColumnStep(root.value, i);
      if aspx[i] == '\n' {
        g := g.(lineNo := g.lineNo + 1);
        lastLineEnd := i;
      }
      i := i + 1;
    }
    g := g.(columnNo := index - lastLineEnd);
    err := None;
    if root.Some? { LineColumnBounds(root.value, 0); }
  }

  /** DocumentFragment.Text: the spanned text, or the reason reading it raises. */
  function FragmentText(f: Fragment, root: Option<string>): (r: Result<string, FragmentError>)
    ensures !Defined(f) ==> r == Failure(NotDefined)
    ensures Defined(f) && root.None? ==> r == Success("")
    ensures root.Some? && Bound(root.value, f) ==> r == Success(root.value[f.index..End(f)])
  {
    if !Defined(f) then Failure(NotDefined)
    else if root.None? then Success("")
    else if 0 <= f.index && 0 <= f.length && End(f) <= |root.value| then Success(root.value[f.index..End(f)])
    else Failure(SubstringOutOfRange)
  }
}
