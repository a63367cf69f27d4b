/**
 * The string and line-list helpers of `Util.cs`, and the shared page state
 * (`Source`) that `ReplaceFirst` and `addToElement` log to and rewrite.
 */
module Util {
  import opened Wrappers
  import Str = Strings

  /** The static `Source` holder: the page text, its file name, the error log and the changed flag. */
  class Source {
    var source: string
    var filename: string
    var error: string
    var changed: bool

    constructor(source: string, filename: string)
      ensures this.source == source && this.filename == filename
      ensures error == "" && !changed
    {
      this.source := source;
      this.filename := filename;
      error := "";
      changed := false;
    }
  }

  // ---------------------------------------------------------------------
  // IsExcluded

  /** `FirstOrDefault(e => e.Equals(search))`: the first exclusion equal to `search`, if any. */
  function FirstEqual(exclusions: seq<string>, search: string): (r: Option<string>)
    ensures r.Some? <==> search in exclusions
    ensures r.Some? ==> r.value == search
  {
    if exclusions == [] then None
    else if exclusions[0] == search then Some(exclusions[0])
    else FirstEqual(exclusions[1..], search)
  }

  /**
   * `Util.IsExcluded`: the file name with every `root\` removed is listed; an
   * empty name never counts, because the match found is then empty.
   */
  function IsExcluded(exclusions: seq<string>, rootPath: string, filename: string): (r: bool)
    ensures var search := Str.Replace(filename, rootPath + "\\", "");
      r <==> search != "" && search in exclusions
  {
    var search := Str.Replace(filename, rootPath + "\\", "");
    var result := FirstEqual(exclusions, search);
    result.Some? && result.value != ""
  }

  /** A path under the root is excluded exactly when its relative name is listed. */
  lemma IsExcludedRelative(exclusions: seq<string>, rootPath: string, name: string)
    requires !Str.Contains(name, rootPath + "\\")
    ensures IsExcluded(exclusions, rootPath, rootPath + "\\" + name) <==> name != "" && name in exclusions
  {
    var pat := rootPath + "\\";
    var s := pat + name;
    assert s[..|pat|] == pat && s[|pat|..] == name;
    Str.ReplaceWithout(name, pat, "");
    assert Str.Replace(s, pat, "") == "" + Str.Replace(name, pat, "");
    assert Str.Replace(s, pat, "") == name;
  }

  // ---------------------------------------------------------------------
  // PageContains, CleanBlock, CountChar, CheckIf

  /** `Util.PageContains`: some line of the page contains the text. */
  method PageContains(page: seq<string>, search: string) returns (r: bool)
    ensures r <==> exists i :: 0 <= i < |page| && Str.Contains(page[i], search)
  {
    for k := 0 to |page|
      invariant forall i :: 0 <= i < k ==> !Str.Contains(page[i], search)
    {
      if !Str.Contains(page[k], search) {
        continue;
      }
      return true;
    }
    return false;
  }

  /** A line holding one of the symbols. */
  predicate HasSymbol(line: string, symbols: seq<char>) {
    exists j :: 0 <= j < |symbols| && symbols[j] in line
  }

  /** The index of the first line holding a symbol, or the number of lines when there is none. */
  function FirstWithSymbol(block: seq<string>, symbols: seq<char>): (k: nat)
    ensures k <= |block|
    ensures forall i :: 0 <= i < k ==> !HasSymbol(block[i], symbols)
    ensures k < |block| ==> HasSymbol(block[k], symbols)
  {
    if block == [] then 0
    else if HasSymbol(block[0], symbols) then 0
    else 1 + FirstWithSymbol(block[1..], symbols)
  }

  /**
   * `Util.CleanBlock`: copies the lines before the first one holding a
   * symbol onto `newBlock`, and answers whether no line holds one.
   */
  method CleanBlock(block: seq<string>, symbols: seq<char>, newBlock: seq<string>)
    returns (r: bool, newBlock': seq<string>)
    ensures newBlock' == newBlock + block[..FirstWithSymbol(block, symbols)]
    ensures r <==> forall i :: 0 <= i < |block| ==> !HasSymbol(block[i], symbols)
  {
    newBlock' := newBlock;
    for k := 0 to |block|
      invariant k <= FirstWithSymbol(block, symbols)
      invariant newBlock' == newBlock + block[..k]
    {
      var line := block[k];
      for j := 0 to |symbols|
        invariant forall m :: 0 <= m < j ==> symbols[m] !in line
      {
        if symbols[j] in line {
          return false, newBlock';
        }
      }
      newBlock' := newBlock' + [line];
      assert block[..k + 1] == block[..k] + [line];
    }
    return true, newBlock';
  }

  /** The number of occurrences of `symbol` over the trimmed lines of a block. */
  function CharTotal(block: seq<string>, symbol: char): nat {
    if block == [] then 0
    else CharTotal(block[..|block| - 1], symbol) + Str.CountChar(Str.Trim(block[|block| - 1]), symbol)
  }

  /** Counting over two blocks adds up. */
  lemma {:induction false} CharTotalAppend(a: seq<string>, b: seq<string>, symbol: char)
    ensures CharTotal(a + b, symbol) == CharTotal(a, symbol) + CharTotal(b, symbol)
    decreases |b|
  {
    if b == [] {
      assert a + b == a;
    } else {
      assert (a + b)[..|a + b| - 1] == a + b[..|b| - 1];
      CharTotalAppend(a, b[..|b| - 1], symbol);
    }
  }

  /** Trimming never drops a symbol that is not white space, so braces are counted over the raw lines. */
  lemma {:induction false} CharTotalRaw(block: seq<string>, symbol: char)
    requires !Str.IsSpace(symbol)
    ensures CharTotal(block, symbol) == Str.CountChar(Concat(block), symbol)
    decreases |block|
  {
    if block != [] {
      var init := block[..|block| - 1];
      CharTotalRaw(init, symbol);
      Str.CountCharTrim(block[|block| - 1], symbol);
      assert Concat(block) == Concat(init) + block[|block| - 1];
      Str.CountCharAppend(Concat(init), block[|block| - 1], symbol);
    }
  }

  /** All the lines of a block run together. */
  function Concat(block: seq<string>): string {
    if block == [] then "" else Concat(block[..|block| - 1]) + block[|block| - 1]
  }

  /** `Util.CountChar`: the occurrences of `symbol` over every trimmed line of the block. */
  method CountChar(block: seq<string>, symbol: char) returns (ret: int)
    ensures ret == CharTotal(block, symbol)
  {
    ret := 0;
    for k := 0 to |block|
      invariant ret == CharTotal(block[..k], symbol)
    {
      var code := Str.Trim(block[k]);
      ghost var before := ret;
      for j := 0 to |code|
        invariant ret == before + Str.CountChar(code[..j], symbol)
      {
        Str.CountCharAppend(code[..j], [code[j]], symbol);
        assert code[..j + 1] == code[..j] + [code[j]];
        if code[j] == symbol {
          ret := ret + 1;
        }
      }
      assert code[..|code|] == code;
      assert block[..k + 1][..k] == block[..k];
    }
    assert block[..|block|] == block;
  }

  /** Some line of the block starts with `p` once its leading white space is removed. */
  predicate AnyStartsWith(block: seq<string>, p: string) {
    exists i :: 0 <= i < |block| && Str.StartsWith(Str.TrimStart(block[i]), p)
  }

  /** `Util.CheckIf`: a block fails only when a line starts with "else" and none starts with "if". */
  method CheckIf(block: seq<string>) returns (ret: bool)
    ensures ret <==> !AnyStartsWith(block, "else") || AnyStartsWith(block, "if")
  {
    ret := true;
    var hasIf := false;
    var hasElse := false;
    for k := 0 to |block|
      invariant !hasIf
      invariant forall i :: 0 <= i < k ==> !Str.StartsWith(Str.TrimStart(block[i]), "if")
    {
      var code := Str.TrimStart(block[k]);
      if !Str.StartsWith(code, "if") {
        continue;
      }
      hasIf := true;
      break;
    }
    for k := 0 to |block|
      invariant !hasElse
      invariant forall i :: 0 <= i < k ==> !Str.StartsWith(Str.TrimStart(block[i]), "else")
    {
      var code := Str.TrimStart(block[k]);
      if !Str.StartsWith(code, "else") {
        continue;
      }
      hasElse := true;
      break;
    }
    assert hasIf <==> AnyStartsWith(block, "if");
    assert hasElse <==> AnyStartsWith(block, "else");
    if hasElse {
      ret := hasIf == hasElse;
    } else {
      ret := true;
    }
  }

  // ---------------------------------------------------------------------
  // RemoveAt

  /** The sequence without its element at `index`. */
  function Without<T>(s: seq<T>, index: nat): (r: seq<T>)
    requires index < |s|
  {
    s[..index] + s[index + 1..]
  }

  /** Removing one element: one shorter, the same elements bar that one, and undoing an insertion there. */
  lemma WithoutFacts<T>(s: seq<T>, index: nat, x: T)
    requires index < |s|
    ensures |Without(s, index)| == |s| - 1
    ensures multiset(Without(s, index)) + multiset{s[index]} == multiset(s)
    ensures forall i :: 0 <= i < index ==> Without(s, index)[i] == s[i]
    ensures forall i :: index <= i < |s| - 1 ==> Without(s, index)[i] == s[i + 1]
    ensures Without(s[..index] + [x] + s[index..], index) == s
  {
    assert s == s[..index] + [s[index]] + s[index + 1..];
    var t := s[..index] + [x] + s[index..];
    assert t[..index] == s[..index] && t[index + 1..] == s[index..];
    assert s[..index] + s[index..] == s;
  }

  /** `Array.Copy(src, srcIndex, dst, dstIndex, length)`. */
  method Copy(src: array<string>, srcIndex: nat, dst: array<string>, dstIndex: nat, length: nat)
    requires src != dst
    requires srcIndex + length <= src.Length && dstIndex + length <= dst.Length
    modifies dst
    ensures dst[..] == old(dst[..dstIndex]) + src[srcIndex..srcIndex + length] + old(dst[dstIndex + length..])
  {
    for k := 0 to length
      invariant dst[..] == old(dst[..dstIndex]) + src[srcIndex..srcIndex + k] + old(dst[dstIndex + k..])
    {
      dst[dstIndex + k] := src[srcIndex + k];
      assert src[srcIndex..srcIndex + k + 1] == src[srcIndex..srcIndex + k] + [src[srcIndex + k]];
    }
  }

  /** `Util.RemoveAt`: a new array, one shorter, without the element at `index`. */
  method RemoveAt(source: array<string>, index: int) returns (dest: array<string>)
    requires 0 <= index < source.Length
    ensures dest.Length == source.Length - 1
    ensures dest[..] == Without(source[..], index)
  {
    dest := new string[source.Length - 1](_ => "");
    if index > 0 {
      Copy(source, 0, dest, 0, index);
    }
    if index < source.Length - 1 {
      Copy(source, index + 1, dest, index, source.Length - index - 1);
    }
    assert source[..][..index] == source[0..index];
    assert source[..][index + 1..] == source[index + 1..source.Length];
  }

  // ---------------------------------------------------------------------
  // ReplaceFirst

  /** `search` occurs in `text` at `i`, ignoring case. */
  predicate MatchesAt(text: string, search: string, i: int) {
    0 <= i && i + |search| <= |text| && Str.Lower(text[i..i + |search|]) == Str.Lower(search)
  }

  /** `text.ToLower().IndexOf(search.ToLower())`: an empty search is found at 0. */
  function MatchIgnoreCase(text: string, search: string): int {
    if search == [] then 0 else Str.IndexOf(Str.Lower(text), Str.Lower(search))
  }

  /** The position found is the first case-insensitive occurrence, and -1 means there is none. */
  lemma MatchIgnoreCaseFacts(text: string, search: string)
    ensures var pos := MatchIgnoreCase(text, search);
      && (pos == -1 <==> forall i :: !MatchesAt(text, search, i))
      && (pos != -1 ==> MatchesAt(text, search, pos) && forall i :: 0 <= i < pos ==> !MatchesAt(text, search, i))
  {
    var pos := MatchIgnoreCase(text, search);
    if search != [] {
      var lt, ls := Str.Lower(text), Str.Lower(search);
      forall i | 0 <= i && i + |search| <= |text|
        ensures MatchesAt(text, search, i) <==> Str.OccursAt(lt, ls, i)
      {
        Str.LowerSlice(text, i, i + |search|);
      }
      if pos != -1 {
        assert Str.OccursAt(lt, ls, pos);
      }
    } else {
      assert text[0..0] == [];
      assert MatchesAt(text, search, 0);
    }
  }

  /** The text of `Util.ReplaceFirst`: `replace` spliced over the first match, or the text unchanged. */
  function Spliced(text: string, search: string, replace: string): string {
    var pos := MatchIgnoreCase(text, search);
    if pos < 0 then text
    else if pos + |search| <= |text| then text[..pos] + replace + text[pos + |search|..]
    else text
  }

  /**
   * Without a match the text is unchanged; with one, the text before it and
   * after it is kept and `replace` sits where it was.
   */
  lemma SplicedFacts(text: string, search: string, replace: string)
    ensures var pos := MatchIgnoreCase(text, search);
      var r := Spliced(text, search, replace);
      && ((forall i :: !MatchesAt(text, search, i)) ==> r == text)
      && (pos >= 0 ==>
            && |r| == |text| - |search| + |replace|
            && r[..pos] == text[..pos]
            && r[pos..pos + |replace|] == replace
            && r[pos + |replace|..] == text[pos + |search|..])
  {
    MatchIgnoreCaseFacts(text, search);
  }

  /** Splicing back the text that was matched leaves the text as it was. */
  lemma SplicedSelf(text: string, search: string)
    requires MatchIgnoreCase(text, search) >= 0
    ensures var pos := MatchIgnoreCase(text, search);
      Spliced(text, search, text[pos..pos + |search|]) == text
  {
    MatchIgnoreCaseFacts(text, search);
    var pos := MatchIgnoreCase(text, search);
    assert text[..pos] + text[pos..pos + |search|] + text[pos + |search|..] == text;
  }

  /** `Util.ReplaceFirst`: the spliced text; a miss is logged against the page's file name. */
  method ReplaceFirst(src: Source, text: string, search: string, replace: string) returns (r: string)
    modifies src`error
    ensures r == Spliced(text, search, replace)
    ensures src.error == old(src.error) + (if MatchIgnoreCase(text, search) < 0 then "error finding: " + search + " in " + src.filename + "\n" else "")
  {
    var pos := MatchIgnoreCase(text, search);
    if pos < 0 {
      src.error := src.error + "error finding: " + search + " in " + src.filename + "\n";
      return text;
    }
    MatchIgnoreCaseFacts(text, search);
    return text[..pos] + replace + text[pos + |search|..];
  }

  // ---------------------------------------------------------------------
  // addToElement

  /** The line is the marked element: its lower-cased text contains the marker. */
  predicate Marked(line: string, element: string) { Str.Contains(Str.Lower(line), element) }

  /** The index of the first marked line, or the number of lines when there is none. */
  function FirstMarked(lines: seq<string>, element: string): (k: nat)
    ensures k <= |lines|
    ensures forall i :: 0 <= i < k ==> !Marked(lines[i], element)
    ensures k < |lines| ==> Marked(lines[k], element)
  {
    if lines == [] then 0
    else if Marked(lines[0], element) then 0
    else 1 + FirstMarked(lines[1..], element)
  }

  /** The lines with `outerHtml` inserted right before the first marked one, if there is one. */
  function InsertBefore(lines: seq<string>, outerHtml: string, element: string): Option<seq<string>> {
    var k := FirstMarked(lines, element);
    if k == |lines| then None else Some(lines[..k] + [outerHtml] + lines[k..])
  }

  /**
   * The insertion gives exactly one more line, the new one right before the
   * first marked line and every other line in place; removing it again gives
   * the original lines back.
   */
  lemma InsertBeforeFacts(lines: seq<string>, outerHtml: string, element: string)
    ensures var r := InsertBefore(lines, outerHtml, element);
      var k := FirstMarked(lines, element);
      && (r.None? <==> forall i :: 0 <= i < |lines| ==> !Marked(lines[i], element))
      && (r.Some? ==>
            && |r.value| == |lines| + 1
            && r.value[k] == outerHtml
            && Marked(r.value[k + 1], element)
            && (forall i :: 0 <= i < k ==> r.value[i] == lines[i])
            && (forall i :: k < i <= |lines| ==> r.value[i] == lines[i - 1])
            && Without(r.value, k) == lines)
  {
    var r := InsertBefore(lines, outerHtml, element);
    var k := FirstMarked(lines, element);
    if r.Some? {
      WithoutFacts(lines, k, outerHtml);
    }
  }

  /** `Array.IndexOf(a, null)`: the first empty slot, or -1. */
  method IndexOfNull(a: array<Option<string>>) returns (index: int)
    ensures -1 <= index < a.Length
    ensures index >= 0 ==> a[index].None? && forall i :: 0 <= i < index ==> a[i].Some?
    ensures index == -1 ==> forall i :: 0 <= i < a.Length ==> a[i].Some?
  {
    for k := 0 to a.Length
      invariant forall i :: 0 <= i < k ==> a[i].Some?
    {
      if a[k].None? {
        return k;
      }
    }
    return -1;
  }

  /** `string.Join` over an array with empty slots, which join as empty strings. */
  function JoinSlots(sep: string, slots: seq<Option<string>>): string {
    Str.Join(sep, seq(|slots|, i requires 0 <= i < |slots| => if slots[i].Some? then slots[i].value else ""))
  }

  /** An array of `len` slots whose first ones hold `done` and whose others are empty. */
  ghost function Slots(done: seq<string>, len: nat): seq<Option<string>>
    requires |done| <= len
  {
    seq(len, i requires 0 <= i < len => if i < |done| then Some(done[i]) else None)
  }

  /** The lines as they are to be written: `outerHtml` before line `m`, when `m` is a line. */
  ghost function Arranged(lines: seq<string>, outerHtml: string, m: nat): seq<string>
    requires m <= |lines|
  {
    if m < |lines| then lines[..m] + [outerHtml] + lines[m..] else lines
  }

  /** After line `k` the slots written grow by that line, preceded by `outerHtml` at line `m`. */
  lemma ArrangedNext(lines: seq<string>, outerHtml: string, m: nat, k: nat)
    requires m <= |lines| && k < |lines|
    ensures var a := Arranged(lines, outerHtml, m);
      var f := if k <= m then k else k + 1;
      var f' := if k + 1 <= m then k + 1 else k + 2;
      f' <= |a| && a[..f'] == a[..f] + (if k == m then [outerHtml, lines[k]] else [lines[k]])
  {
  }

  /** The body of `addToElement`'s loop on one line: it fills the next one or two slots. */
  method PlaceLine(newArray: array<Option<string>>, line: string, outerHtml: string, element: string,
                   notAdded: bool, ghost done: seq<string>) returns (notAdded': bool)
    requires |done| + (if notAdded then 2 else 1) <= newArray.Length
    requires newArray[..] == Slots(done, newArray.Length)
    modifies newArray
    ensures notAdded' == (notAdded && !Marked(line, element))
    ensures newArray[..] == Slots(done + (if notAdded' == notAdded then [line] else [outerHtml, line]), newArray.Length)
  {
    notAdded' := notAdded;
    var index := IndexOfNull(newArray);
    assert index == |done| by {
      assert newArray[|done|] == Slots(done, newArray.Length)[|done|];
      forall i | 0 <= i < |done| ensures newArray[i].Some? {
        assert newArray[i] == Slots(done, newArray.Length)[i];
      }
    }
    if Str.Contains(Str.Lower(line), element) && notAdded {
      notAdded' := false;
      newArray[index] := Some(outerHtml);
      newArray[index + 1] := Some(line);
    } else {
      newArray[index] := Some(line);
    }
  }

  /**
   * `Util.addToElement`: inserts `outerHtml` as a line right before the first
   * line of the page whose lower-cased text contains `element`, and marks the
   * page changed; with no such line the page is left alone and the miss logged.
   */
  method AddToElement(src: Source, outerHtml: string, filename: string, element: string) returns (r: bool)
    modifies src
    ensures var lines := Str.Split(old(src.source), "\n");
      r == InsertBefore(lines, outerHtml, element).Some?
    ensures var lines := Str.Split(old(src.source), "\n");
      r ==> src.source == Str.Join("\n", InsertBefore(lines, outerHtml, element).value)
            && src.changed && src.error == old(src.error) && src.filename == old(src.filename)
    ensures !r ==> src.source == old(src.source) && src.changed == old(src.changed) && src.filename == old(src.filename)
                   && src.error == old(src.error) + "Could not find <" + element + "> for " + filename
  {
    var arrayOfLines := Str.Split(src.source, "\n");
    var newArray := new Option<string>[|arrayOfLines| + 1](_ => None);
    var notAdded := true;
    ghost var m := FirstMarked(arrayOfLines, element);
    ghost var target := Arranged(arrayOfLines, outerHtml, m);
    ghost var filled := 0;
    assert newArray[..] == Slots(target[..0], newArray.Length);
    for k := 0 to |arrayOfLines|
      invariant notAdded <==> k <= m
      invariant filled == (if k <= m then k else k + 1) && filled <= |target|
      invariant newArray[..] == Slots(target[..filled], newArray.Length)
      invariant unchanged(src)
    {
      ArrangedNext(arrayOfLines, outerHtml, m, k);
      notAdded := PlaceLine(newArray, arrayOfLines[k], outerHtml, element, notAdded, target[..filled]);
      filled := if k + 1 <= m then k + 1 else k + 2;
    }
    if notAdded {
      src.error := src.error + "Could not find <" + element + "> for " + filename;
      return false;
    }
    assert target[..filled] == target;
    ghost var slots := newArray[..];
    ghost var strings := seq(|slots|, i requires 0 <= i < |slots| => if slots[i].Some? then slots[i].value else "");
    assert strings == target;
    src.source := JoinSlots("\n", newArray[..]);
    src.changed := true;
    return true;
  }
}
