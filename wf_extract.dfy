/**
 * `ExtractCode.ParseCode` (the Roslyn-era extractor) over the lines of a
 * page: server-side code blocks are cut out of the page into numbered
 * `Render_Logic_NN` blocks, and a call to each is written into the page.
 */
module ExtractCode {
  import opened Wrappers
  import opened Strings

  /** The name of the `n`-th extracted block. */
  function BlockName(n: nat): string { "Render_Logic_" + FormatD2(n) }

  /** Different block numbers give different names. */
  lemma BlockNameInjective(a: nat, b: nat)
    requires BlockName(a) == BlockName(b)
    ensures a == b
  {
    assert BlockName(a)[13..] == FormatD2(a);
    assert BlockName(b)[13..] == FormatD2(b);
    FormatD2Injective(a, b);
  }

  /** The blocks found so far, as the hash table holds them: block `i` (from 1) under `BlockName(i)`. */
  function BlockMap(found: seq<seq<string>>): map<string, seq<string>> {
    if found == [] then map[]
    else BlockMap(found[..|found| - 1])[BlockName(|found|) := found[|found| - 1]]
  }

  /** The table holds exactly the names 1 to the number of blocks, each with its block. */
  lemma {:induction false} BlockMapFacts(found: seq<seq<string>>)
    ensures forall i :: 1 <= i <= |found| ==> BlockName(i) in BlockMap(found) && BlockMap(found)[BlockName(i)] == found[i - 1]
    ensures forall key :: key in BlockMap(found) ==> exists i :: 1 <= i <= |found| && key == BlockName(i)
    decreases |found|
  {
    if found != [] {
      var init := found[..|found| - 1];
      BlockMapFacts(init);
      forall i | 1 <= i < |found|
        ensures BlockName(i) != BlockName(|found|)
      {
        if BlockName(i) == BlockName(|found|) {
          BlockNameInjective(i, |found|);
        }
      }
    }
  }

  /** The name of the next block is not in the table yet, so adding it never fails. */
  lemma BlockMapFresh(found: seq<seq<string>>)
    ensures BlockName(|found| + 1) !in BlockMap(found)
  {
    BlockMapFacts(found);
    if BlockName(|found| + 1) in BlockMap(found) {
      var i :| 1 <= i <= |found| && BlockName(|found| + 1) == BlockName(i);
      BlockNameInjective(i, |found| + 1);
    }
  }

  /**
   * `ExtractCode.ParseLine`: whether the line is copied to the page and
   * skipped, the comment flag after it, and the page after it.
   */
  function ParseLine(line: string, openTag: bool, output: seq<string>): (bool, bool, seq<string>) {
    var openTag1 := if Contains(line, "<%--") then true else openTag;
    var ret := Contains(line, "<%@") || line == "";
    var openTag2 := if Contains(line, "--%>") then false else openTag1;
    var check := ret || Contains(line, "--%>") || openTag2;
    (check, openTag2, if check then output + [line] else output)
  }

  /**
   * `<%--` opens a comment and `--%>` closes it; directives, empty lines,
   * comment lines and the closing line are copied once and skipped, and
   * nothing else is copied.
   */
  lemma ParseLineFacts(line: string, openTag: bool, output: seq<string>)
    ensures var r := ParseLine(line, openTag, output);
      && (Contains(line, "--%>") ==> r.0 && !r.1)
      && (!Contains(line, "--%>") ==> (r.1 <==> openTag || Contains(line, "<%--")))
      && (Contains(line, "<%@") || line == "" ==> r.0)
      && (r.1 ==> r.0)
      && (!r.0 <==> !Contains(line, "<%@") && line != "" && !Contains(line, "--%>") && !r.1)
      && r.2 == (if r.0 then output + [line] else output)
  {
  }

  /** The code of a line: the line without its `<%` and `%>` marks, trimmed. */
  function Content(line: string): string {
    Trim(Replace(Replace(line, "<%", ""), "%>", ""))
  }

  /**
   * `ExtractCode.ProcessLine`: whether a block just ended, the block, the
   * code flag and the page after the line.
   */
  function ProcessLine(line: string, block: seq<string>, isCode: bool, output: seq<string>)
    : (r: (bool, seq<string>, bool, seq<string>))
    ensures r.0 ==> |r.3| >= 1 && r.3[|r.3| - 1] == line
  {
    var output1 := if Contains(line, "<%") then output + [line] else output;
    var isCode1 := isCode || Contains(line, "<%");
    if !isCode1 then (false, block, isCode1, output1)
    else
      var content := Content(line);
      var block1 := if content != "" then block + [content] else block;
      if !Contains(line, "%>") then (false, block1, isCode1, output1)
      else (true, block1, false, output1 + [line])
  }

  /**
   * A line with `<%` is copied and starts code; in code the line's non-empty
   * content joins the block; a code line with `%>` is copied and ends the block.
   */
  lemma ProcessLineFacts(line: string, block: seq<string>, isCode: bool, output: seq<string>)
    ensures var r := ProcessLine(line, block, isCode, output);
      var inCode := isCode || Contains(line, "<%");
      var copied := if Contains(line, "<%") then output + [line] else output;
      && (r.0 <==> inCode && Contains(line, "%>"))
      && (r.2 <==> inCode && !Contains(line, "%>"))
      && (!inCode ==> r.1 == block && r.3 == output)
      && (inCode ==> r.1 == block + (if Content(line) != "" then [Content(line)] else []))
      && (inCode ==> r.3 == (if Contains(line, "%>") then copied + [line] else copied))
  {
  }

  /** The variables of `ParseCode`'s loop; `found` lists the blocks kept, in order. */
  datatype Extraction = Extraction(openTag: bool, isCode: bool, block: seq<string>, aspx: seq<string>, found: seq<seq<string>>)

  const Start: Extraction := Extraction(false, false, [], [], [])

  /** One iteration of `ParseCode`'s loop. */
  function Step(x: Extraction, line: string): Extraction {
    var p := ParseLine(line, x.openTag, x.aspx);
    if p.0 then x.(openTag := p.1, aspx := p.2)
    else Finish(x, p.1, ProcessLine(line, x.block, x.isCode, p.2))
  }

  /**
   * The rest of an iteration once `ProcessLine` has run: a block that ended
   * with two lines or more is kept and its call inserted before the page's
   * last line; a shorter one is dropped.
   */
  function Finish(x: Extraction, openTag: bool, q: (bool, seq<string>, bool, seq<string>)): Extraction
    requires q.0 ==> |q.3| >= 1
  {
    var y := x.(openTag := openTag, block := q.1, isCode := q.2, aspx := q.3);
    if !q.0 then y
    else if |q.1| <= 1 then y.(block := [])
    else
      var call := " " + BlockName(|x.found| + 1) + "();";
      y.(block := [], found := x.found + [q.1], aspx := q.3[..|q.3| - 1] + [call] + [q.3[|q.3| - 1]])
  }

  /** The loop over the first lines. */
  function ExtractAll(lines: seq<string>): Extraction
    decreases |lines|
  {
    if lines == [] then Start else Step(ExtractAll(lines[..|lines| - 1]), lines[|lines| - 1])
  }

  lemma ExtractAllNext(lines: seq<string>, k: nat)
    requires k < |lines|
    ensures ExtractAll(lines[..k + 1]) == Step(ExtractAll(lines[..k]), lines[k])
  {
    assert lines[..k + 1][..k] == lines[..k];
  }

  /** What the loop keeps true: outside code no block is open, and every block line is non-empty code. */
  predicate Sound(x: Extraction) {
    && (!x.isCode ==> x.block == [])
    && (forall j :: 0 <= j < |x.block| ==> x.block[j] != "")
    && (forall i :: 0 <= i < |x.found| ==> |x.found[i]| >= 2)
    && (forall i, j :: 0 <= i < |x.found| && 0 <= j < |x.found[i]| ==> x.found[i][j] != "")
  }

  /**
   * Every iteration keeps the loop sound and only adds to the page and the
   * blocks; a block is kept only when it has at least two lines, and then
   * its call is written right before the line that closed it.
   */
  lemma StepFacts(x: Extraction, line: string)
    requires Sound(x)
    ensures var y := Step(x, line);
      && Sound(y)
      && x.aspx <= y.aspx
      && x.found <= y.found && |y.found| <= |x.found| + 1
      && (|y.found| == |x.found| + 1 ==>
            |y.aspx| >= 2 && y.aspx[|y.aspx| - 1] == line
            && y.aspx[|y.aspx| - 2] == " " + BlockName(|y.found|) + "();")
  {
    var p := ParseLine(line, x.openTag, x.aspx);
    ParseLineFacts(line, x.openTag, x.aspx);
    if !p.0 {
      ProcessedStep(x, line, p.1);
    }
  }

  /** `StepFacts` for a line that is not skipped: `ProcessLine`, then `Finish`. */
  lemma ProcessedStep(x: Extraction, line: string, openTag: bool)
    requires Sound(x)
    ensures var z := Finish(x, openTag, ProcessLine(line, x.block, x.isCode, x.aspx));
      && Sound(z)
      && x.aspx <= z.aspx
      && x.found <= z.found && |z.found| <= |x.found| + 1
      && (|z.found| == |x.found| + 1 ==>
            |z.aspx| >= 2 && z.aspx[|z.aspx| - 1] == line
            && z.aspx[|z.aspx| - 2] == " " + BlockName(|z.found|) + "();")
  {
    var q := ProcessLine(line, x.block, x.isCode, x.aspx);
    ProcessLineFacts(line, x.block, x.isCode, x.aspx);
    if q.0 {
      assert q.3[..|q.3| - 1] == (if Contains(line, "<%") then x.aspx + [line] else x.aspx);
    }
    ProcessedSound(x, line, openTag, x.aspx, q);
  }

  /** The part of `StepFacts` for a line that is not skipped. */
  lemma ProcessedSound(x: Extraction, line: string, openTag: bool, page: seq<string>, q: (bool, seq<string>, bool, seq<string>))
    requires Sound(x) && x.aspx == page
    requires q.0 ==> |q.3| >= 1 && q.3[|q.3| - 1] == line && page <= q.3[..|q.3| - 1]
    requires q.2 ==> !q.0
    requires !q.2 && !q.0 ==> !x.isCode && q.1 == x.block
    requires forall j :: 0 <= j < |q.1| ==> q.1[j] != ""
    requires page <= q.3
    ensures var z := Finish(x, openTag, q);
      && Sound(z)
      && x.aspx <= z.aspx
      && x.found <= z.found && |z.found| <= |x.found| + 1
      && (|z.found| == |x.found| + 1 ==>
            |z.aspx| >= 2 && z.aspx[|z.aspx| - 1] == line
            && z.aspx[|z.aspx| - 2] == " " + BlockName(|z.found|) + "();")
  {
    if q.0 && |q.1| > 1 {
      assert (x.found + [q.1])[|x.found|] == q.1;
      assert q.3[..|q.3| - 1] <= q.3;
    }
  }

  /** Over the whole page the loop stays sound and the page only grows. */
  lemma {:induction false} ExtractAllSound(lines: seq<string>)
    ensures Sound(ExtractAll(lines))
    decreases |lines|
  {
    if lines != [] {
      ExtractAllSound(lines[..|lines| - 1]);
      StepFacts(ExtractAll(lines[..|lines| - 1]), lines[|lines| - 1]);
    }
  }

  /**
   * A line `<% x %>` outside code, and not skipped, is written to the page
   * twice and never makes a block.
   */
  lemma OneLineTwice(x: Extraction, line: string)
    requires Sound(x) && !x.isCode
    requires !ParseLine(line, x.openTag, x.aspx).0
    requires Contains(line, "<%") && Contains(line, "%>")
    ensures var y := Step(x, line);
      y.aspx == x.aspx + [line, line] && y.found == x.found && y.block == [] && !y.isCode
  {
    ProcessLineFacts(line, x.block, x.isCode, x.aspx);
  }

  /**
   * The table `ParseCode` returns: every block under its name, and the page
   * under the file's name. `Hashtable.Add` throws ArgumentException when the
   * file's name is already a block name; its message is the failure here.
   */
  function Extracted(lines: seq<string>, fileName: string): Result<map<string, seq<string>>, string> {
    var x := ExtractAll(lines);
    var blocks := BlockMap(x.found);
    if fileName in blocks then Failure("Item has already been added. Key in dictionary: '" + fileName + "'  Key being added: '" + fileName + "'")
    else Success(blocks[fileName := x.aspx])
  }

  /** The table can only fail to build when the file is itself named like one of the blocks. */
  lemma ExtractedFails(lines: seq<string>, fileName: string)
    ensures Extracted(lines, fileName).Failure? <==>
      exists i :: 1 <= i <= |ExtractAll(lines).found| && fileName == BlockName(i)
  {
    BlockMapFacts(ExtractAll(lines).found);
  }

  /**
   * The blocks are `Render_Logic_01` onwards, each of at least two lines, and
   * the page sits under the file's name, with nothing else in the table.
   */
  lemma ExtractedTable(lines: seq<string>, fileName: string)
    requires Extracted(lines, fileName).Success?
    ensures var x := ExtractAll(lines);
      var t := Extracted(lines, fileName).value;
      && t[fileName] == x.aspx
      && |t| == |x.found| + 1
      && forall i :: 1 <= i <= |x.found| ==> BlockName(i) in t && t[BlockName(i)] == x.found[i - 1] && |x.found[i - 1]| >= 2
  {
    var x := ExtractAll(lines);
    var blocks := BlockMap(x.found);
    var t := Extracted(lines, fileName).value;
    assert fileName !in blocks && t == blocks[fileName := x.aspx];
    BlockMapSize(x.found);
    assert |t| == |blocks| + 1;
    BlockMapFacts(x.found);
    ExtractAllSound(lines);
    forall i | 1 <= i <= |x.found|
      ensures BlockName(i) in t && t[BlockName(i)] == x.found[i - 1] && |x.found[i - 1]| >= 2
    {
      assert BlockName(i) in blocks && BlockName(i) != fileName;
    }
  }

  /** The table holds one entry per block. */
  lemma {:induction false} BlockMapSize(found: seq<seq<string>>)
    ensures |BlockMap(found)| == |found|
    decreases |found|
  {
    if found != [] {
      BlockMapSize(found[..|found| - 1]);
      BlockMapFresh(found[..|found| - 1]);
    }
  }

  /** The body of `ParseCode`'s loop on one line, with the table of the blocks found so far. */
  method ParseCodeLine(x: Extraction, blocks: map<string, seq<string>>, blockCnt: int, line: string)
    returns (y: Extraction, blocks': map<string, seq<string>>, blockCnt': int)
    requires blockCnt == |x.found| && blocks == BlockMap(x.found)
    ensures y == Step(x, line) && blockCnt' == |y.found| && blocks' == BlockMap(y.found)
  {
    y, blocks', blockCnt' := x, blocks, blockCnt;
    var skip := ParseLine(line, x.openTag, x.aspx);
    y := y.(openTag := skip.1, aspx := skip.2);
    if skip.0 {
      return;
    }
    var ended := ProcessLine(line, x.block, x.isCode, y.aspx);
    y := y.(block := ended.1, isCode := ended.2, aspx := ended.3);
    if ended.0 {
      if |y.block| <= 1 {
        y := y.(block := []);
        return;
      }
      blockCnt' := blockCnt' + 1;
      var blockStr := BlockName(blockCnt');
      blocks' := blocks'[blockStr := y.block];
      y := y.(found := y.found + [y.block], aspx := y.aspx[..|y.aspx| - 1] + [" " + blockStr + "();"] + y.aspx[|y.aspx| - 1..]);
      y := y.(block := []);
    }
  }

  /** `ExtractCode.ParseCode` over the page's lines. */
  method ParseCode(lines: seq<string>, fileName: string) returns (r: Result<map<string, seq<string>>, string>)
    ensures r == Extracted(lines, fileName)
  {
    var blocks: map<string, seq<string>> := map[];
    var blockCnt := 0;
    var x := Start;
    for k := 0 to |lines|
      invariant x == ExtractAll(lines[..k])
      invariant blockCnt == |x.found| && blocks == BlockMap(x.found)
    {
      ExtractAllNext(lines, k);
      BlockMapFresh(x.found);
      x, blocks, blockCnt := ParseCodeLine(x, blocks, blockCnt, lines[k]);
    }
    assert lines[..|lines|] == lines;
    if fileName in blocks {
      return Failure("Item has already been added. Key in dictionary: '" + fileName + "'  Key being added: '" + fileName + "'");
    }
    blocks := blocks[fileName := x.aspx];
    return Success(blocks);
  }
}
