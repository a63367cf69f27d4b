/**
 * `CleanJs.GetFunction`: after the header of a JavaScript function, the body
 * is scanned character by character, counting braces outside strings and
 * comments, until the braces balance or the text runs out.
 */
module CleanJs {
  import opened Wrappers
  import opened Strings
  import Util

  /** Where the header pattern matched in the script text, and what it matched. */
  datatype HeaderMatch = HeaderMatch(index: nat, value: string)

  /** The scanner's variables between two characters. */
  datatype Scan = Scan(
    brackets: int,
    i: nat,
    delimiter: Option<char>,
    isEscape: bool,
    isComment: bool,
    isMultilineComment: bool)

  /** The characters that open and close a string or a regular expression. */
  const Delimiters: string := "`'\""

  /** The scan starts inside the header's brace, at depth 1. */
  const Init: Scan := Scan(1, 0, None, false, false, false)

  /** A block comment is a comment, and a comment never starts at the first character. */
  predicate Coherent(s: Scan) {
    (s.isMultilineComment ==> s.isComment) && (s.isComment ==> s.i > 0)
  }

  /** The delimiter after `c`: it closes a string of its own kind and opens one when none is open. */
  function Toggle(delimiter: Option<char>, c: char): Option<char> {
    if delimiter == Some(c) then None else if delimiter.None? then Some(c) else delimiter
  }

  /** The flags after `c` is looked at, in the order the scanner tries its cases. */
  function Flags(text: string, s: Scan, c: char): Scan
    requires s.i < |text| && Coherent(s)
  {
    if c == '\\' then s.(isEscape := true)
    else if s.i > 0 && !s.isComment && (c == '*' || c == '/') && text[s.i - 1] == '/' then
      s.(isComment := true, isMultilineComment := c == '*')
    else if c == '\n' && s.isComment && !s.isMultilineComment then s.(isComment := false)
    else if s.isMultilineComment && c == '/' && text[s.i - 1] == '*' then
      s.(isComment := false, isMultilineComment := false)
    else if c in Delimiters then s.(delimiter := Toggle(s.delimiter, c))
    else s
  }

  /** A character that is looked at: its flags, then a brace counted outside strings and comments. */
  function Interpret(text: string, s: Scan, c: char): Scan
    requires s.i < |text| && Coherent(s)
  {
    var f := Flags(text, s, c);
    if f.delimiter.None? && !f.isComment then
      f.(brackets := if c == '{' then f.brackets + 1 else if c == '}' then f.brackets - 1 else f.brackets)
    else f
  }

  /**
   * One iteration of the scan loop: the character is looked at unless it is
   * escaped outside a comment, and an escape lasts for one character.
   */
  function Step(text: string, s: Scan): (r: Scan)
    requires s.i < |text| && Coherent(s)
    ensures Coherent(r) && r.i == s.i + 1
  {
    var t := if s.isComment || !s.isEscape then Interpret(text, s, text[s.i]) else s;
    t.(i := s.i + 1, isEscape := if s.isEscape then false else t.isEscape)
  }

  /** The scan loop from `s` on, up to depth 0 or the end of the text. */
  function ScanFrom(text: string, s: Scan): (r: Scan)
    requires s.i <= |text| && Coherent(s)
    ensures s.i <= r.i <= |text|
    decreases |text| - s.i
  {
    if s.brackets > 0 && s.i < |text| then ScanFrom(text, Step(text, s)) else s
  }

  /** How many characters of the body belong to the function. */
  function Extent(text: string): nat {
    ScanFrom(text, Init).i
  }

  /** A step moves the depth by at most one. */
  lemma StepDepth(text: string, s: Scan)
    requires s.i < |text| && Coherent(s)
    ensures s.brackets - 1 <= Step(text, s).brackets <= s.brackets + 1
  {
  }

  /**
   * The scan stops exactly when the depth is 0 or the text is used up, never
   * past the end, and never with a negative depth.
   */
  lemma {:induction false} ScanFromStops(text: string, s: Scan)
    requires s.i <= |text| && Coherent(s) && s.brackets >= 0
    ensures var r := ScanFrom(text, s);
      && s.i <= r.i <= |text| && r.brackets >= 0
      && (r.brackets == 0 || r.i == |text|)
      && (s.brackets == 0 ==> r == s)
    decreases |text| - s.i
  {
    if s.brackets > 0 && s.i < |text| {
      StepDepth(text, s);
      ScanFromStops(text, Step(text, s));
    }
  }

  /** The function's text ends where the braces first balance, or at the end of the script. */
  lemma ExtentBounds(text: string)
    ensures Extent(text) <= |text|
    ensures ScanFrom(text, Init).brackets == 0 || Extent(text) == |text|
  {
    ScanFromStops(text, Init);
  }

  /**
   * The depth moves only on a brace that is looked at and lands outside any
   * string or comment: up by one on '{', down by one on '}'.
   */
  lemma BracesCounted(text: string, s: Scan)
    requires s.i < |text| && Coherent(s)
    ensures var r := Step(text, s);
      var c := text[s.i];
      && (r.brackets != s.brackets ==>
            && (s.isComment || !s.isEscape)
            && r.delimiter.None? && !r.isComment
            && (c == '{' || c == '}'))
      && ((s.isComment || !s.isEscape) && r.delimiter.None? && !r.isComment ==>
            r.brackets == s.brackets + (if c == '{' then 1 else if c == '}' then -1 else 0))
  {
  }

  /**
   * Outside a comment an escaped character is not looked at; a backslash
   * there escapes the next character; and no escape outlasts one character.
   */
  lemma EscapeFacts(text: string, s: Scan)
    requires s.i < |text| && Coherent(s)
    ensures var r := Step(text, s);
      && (s.isEscape && !s.isComment ==> r == s.(i := s.i + 1, isEscape := false))
      && (!s.isEscape && text[s.i] == '\\' ==> r.isEscape)
      && (s.isEscape ==> !r.isEscape)
      && (text[s.i] != '\\' ==> !r.isEscape)
  {
  }

  /**
   * A quote, apostrophe or backtick that is looked at toggles the string
   * delimiter, inside comments too; no other character changes it.
   */
  lemma DelimiterFacts(text: string, s: Scan)
    requires s.i < |text| && Coherent(s)
    ensures var r := Step(text, s);
      var c := text[s.i];
      && ((s.isComment || !s.isEscape) && c in Delimiters ==> r.delimiter == Toggle(s.delimiter, c))
      && (c !in Delimiters || (s.isEscape && !s.isComment) ==> r.delimiter == s.delimiter)
  {
  }

  /**
   * A slash after a slash opens a line comment and a star after a slash a
   * block comment, even inside a string; a newline closes a line comment and
   * a slash after a star closes a block comment.
   */
  lemma CommentFacts(text: string, s: Scan)
    requires s.i < |text| && Coherent(s)
    ensures var r := Step(text, s);
      var c := text[s.i];
      && (!s.isComment && !s.isEscape && s.i > 0 && text[s.i - 1] == '/' && (c == '/' || c == '*') ==>
            r.isComment && (r.isMultilineComment <==> c == '*'))
      && (s.isComment && !s.isMultilineComment && c == '\n' ==> !r.isComment)
      && (s.isMultilineComment && c == '/' && text[s.i - 1] == '*' ==> !r.isComment && !r.isMultilineComment)
      && (s.isComment && c != '\n' && c != '/' ==> r.isComment && r.isMultilineComment == s.isMultilineComment)
  {
  }

  /** Text the scanner reads as plain braces: no escapes, slashes or string delimiters. */
  predicate Plain(text: string) {
    forall k :: 0 <= k < |text| ==> text[k] != '\\' && text[k] != '/' && text[k] !in Delimiters
  }

  /** The nesting depth after a prefix of the body, counting every brace. */
  function Depth(prefix: string): int {
    1 + CountChar(prefix, '{') - CountChar(prefix, '}')
  }

  lemma DepthNext(text: string, k: nat)
    requires k < |text|
    ensures Depth(text[..k + 1]) == Depth(text[..k]) + (if text[k] == '{' then 1 else if text[k] == '}' then -1 else 0)
  {
    assert text[..k + 1] == text[..k] + [text[k]];
    CountCharAppend(text[..k], [text[k]], '{');
    CountCharAppend(text[..k], [text[k]], '}');
  }

  /**
   * On plain text the scanner agrees with plain brace counting: it stops at
   * the shortest prefix whose braces balance, or at the end.
   */
  lemma {:induction false} PlainScan(text: string, s: Scan)
    requires Plain(text) && s.i <= |text|
    requires s.delimiter.None? && !s.isEscape && !s.isComment && !s.isMultilineComment
    requires s.brackets == Depth(text[..s.i])
    ensures var r := ScanFrom(text, s);
      && r.brackets == Depth(text[..r.i])
      && forall k :: s.i <= k < r.i ==> Depth(text[..k]) > 0
    decreases |text| - s.i
  {
    if s.brackets > 0 && s.i < |text| {
      DepthNext(text, s.i);
      PlainScan(text, Step(text, s));
    }
  }

  /** For plain text the extent is where the braces of the body first balance. */
  lemma PlainExtent(text: string)
    requires Plain(text)
    ensures var n := Extent(text);
      && (Depth(text[..n]) == 0 || n == |text|)
      && forall k :: 0 <= k < n ==> Depth(text[..k]) > 0
  {
    assert text[..0] == "";
    PlainScan(text, Init);
    ExtentBounds(text);
  }

  /** An apostrophe in a line comment opens a string that outlives the comment, so the closing brace is missed. */
  lemma QuoteInComment()
    ensures Extent("//'\n}") == 5
    ensures ScanFrom("//'\n}", Init).brackets == 1
  {
    var text := "//'\n}";
    var s1 := Step(text, Init);
    var s2 := Step(text, s1);
    var s3 := Step(text, s2);
    var s4 := Step(text, s3);
    var s5 := Step(text, s4);
    assert s2.isComment && s3.delimiter == Some('\'') && !s4.isComment;
    assert s5.brackets == 1 && s5.i == 5;
  }

  /**
   * The star that opens a block comment also serves to close it: slash,
   * star, slash is read as a whole comment.
   */
  lemma StarShared()
    ensures Extent("/*/}") == 4
    ensures ScanFrom("/*/}", Init).brackets == 0
  {
    var text := "/*/}";
    var s1 := Step(text, Init);
    var s2 := Step(text, s1);
    var s3 := Step(text, s2);
    var s4 := Step(text, s3);
    assert s2.isMultilineComment && !s3.isComment;
    assert s4.brackets == 0 && s4.i == 4;
  }

  /** The text after the header, where scanning starts: the whole script when no header matched. */
  function Body(jstext: string, start: Option<HeaderMatch>): string
    requires start.Some? ==> start.value.index + |start.value.value| <= |jstext|
  {
    if start.None? then jstext else jstext[start.value.index + |start.value.value|..]
  }

  /** The header text, empty when no header matched. */
  function Header(start: Option<HeaderMatch>): string {
    if start.None? then "" else start.value.value
  }

  /** What `GetFunction` returns: the header, then the body up to where its braces balance. */
  function Function(jstext: string, start: Option<HeaderMatch>): (r: string)
    requires start.Some? ==> start.value.index + |start.value.value| <= |jstext|
    requires start.Some? ==> jstext[start.value.index..start.value.index + |start.value.value|] == start.value.value
    ensures start.Some? ==> start.value.index + |r| <= |jstext| && r == jstext[start.value.index..start.value.index + |r|]
    ensures start.None? ==> r <= jstext
  {
    var body := Body(jstext, start);
    ExtentBounds(body);
    assert start.Some? ==>
      var m := start.value;
      jstext[m.index..m.index + |m.value| + Extent(body)] == jstext[m.index..m.index + |m.value|] + body[..Extent(body)];
    Header(start) + body[..Extent(body)]
  }

  /** The body of `GetFunction`'s loop: one character of the function's body. */
  method ScanChar(text: string, brackets: int, i: nat, currentDelimiter: Option<char>,
                  isEscape: bool, isComment: bool, isMultilineComment: bool)
    returns (brackets': int, i': nat, currentDelimiter': Option<char>,
             isEscape': bool, isComment': bool, isMultilineComment': bool)
    requires i < |text| && Coherent(Scan(brackets, i, currentDelimiter, isEscape, isComment, isMultilineComment))
    ensures Scan(brackets', i', currentDelimiter', isEscape', isComment', isMultilineComment')
         == Step(text, Scan(brackets, i, currentDelimiter, isEscape, isComment, isMultilineComment))
  {
    brackets', i', currentDelimiter' := brackets, i, currentDelimiter;
    isEscape', isComment', isMultilineComment' := isEscape, isComment, isMultilineComment;
    var c := text[i];
    var wasEscape := isEscape;
    if isComment || !isEscape {
      if c == '\\' {
        isEscape' := true;
      } else if i > 0 && !isComment && (c == '*' || c == '/') && text[i - 1] == '/' {
        isComment' := true;
        isMultilineComment' := c == '*';
      } else if c == '\n' && isComment && !isMultilineComment {
        isComment' := false;
      } else if isMultilineComment && c == '/' && text[i - 1] == '*' {
        isComment' := false;
        isMultilineComment' := false;
      } else if c in Delimiters {
        currentDelimiter' := if currentDelimiter == Some(c) then None
          else if currentDelimiter.None? then Some(c) else currentDelimiter;
      }
      if currentDelimiter'.None? && !isComment' {
        if c == '{' {
          brackets' := brackets' + 1;
        }
        if c == '}' {
          brackets' := brackets' - 1;
        }
      }
    }
    i' := i + 1;
    if wasEscape {
      isEscape' := false;
    }
  }

  /**
   * `CleanJs.GetFunction`, with the header search's outcome passed in as
   * `start`; a failed search with a non-blank name is logged.
   */
  method GetFunction(src: Util.Source, jstext: string, functionname: string, start: Option<HeaderMatch>)
    returns (r: string)
    requires start.Some? ==> start.value.index + |start.value.value| <= |jstext|
    requires start.Some? ==> jstext[start.value.index..start.value.index + |start.value.value|] == start.value.value
    modifies src`error
    ensures r == Function(jstext, start)
    ensures src.error == old(src.error)
      + (if start.None? && Trim(functionname) != ""
         then "Function not found: " + functionname + " for " + src.filename + "\n" else "")
  {
    if start.None? && Trim(functionname) != "" {
      src.error := src.error + "Function not found: " + functionname + " for " + src.filename + "\n";
    }
    r := ScanFunction(Header(start), Body(jstext, start));
  }

  /** `GetFunction`'s scan loop: the header, then the body up to where its braces balance. */
  method ScanFunction(header: string, text: string) returns (sb: string)
    ensures sb == header + text[..Extent(text)]
  {
    sb := header;
    var brackets := 1;
    var i := 0;
    var currentDelimiter: Option<char> := None;
    var isEscape := false;
    var isComment := false;
    var isMultilineComment := false;
    while brackets > 0 && i < |text|
      invariant i <= |text|
      invariant var s := Scan(brackets, i, currentDelimiter, isEscape, isComment, isMultilineComment);
        Coherent(s) && ScanFrom(text, s) == ScanFrom(text, Init)
      invariant sb == header + text[..i]
      decreases |text| - i
    {
      ghost var s := Scan(brackets, i, currentDelimiter, isEscape, isComment, isMultilineComment);
      sb := sb + [text[i]];
      assert text[..i + 1] == text[..i] + [text[i]];
      brackets, i, currentDelimiter, isEscape, isComment, isMultilineComment :=
        ScanChar(text, brackets, i, currentDelimiter, isEscape, isComment, isMultilineComment);
      assert Scan(brackets, i, currentDelimiter, isEscape, isComment, isMultilineComment) == Step(text, s);
    }
  }
}
