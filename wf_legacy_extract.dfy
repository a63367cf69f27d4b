/**
 * `Legacy.ExtractCode.ParseCode` over the lines of a page: code blocks that
 * pass `ValidateCode` are cut out into numbered `Render_Logic_NN` blocks and
 * replaced by a call; rejected blocks are written back as one `<% … %>` block.
 */
module LegacyExtract {
  import opened Wrappers
  import opened Strings
  import opened ExtractCode
  import Util

  /**
   * `Legacy.ExtractCode.ParseLine`: whether the line is skipped (the caller
   * copies it), and the comment flag after it. Blank lines are never skipped.
   */
  function ParseLine(line: string, openTag: bool): (bool, bool) {
    if AllSpace(line) then (false, openTag)
    else
      var openTag1 := if Contains(line, "<%--") then true else openTag;
      var ret := Contains(line, "<%@") || line == "";
      var openTag2 := if Contains(line, "--%>") then false else openTag1;
      (ret || Contains(line, "--%>") || openTag2, openTag2)
  }

  /**
   * A blank line is never skipped and leaves the comment flag alone;
   * otherwise `<%--` opens a comment and `--%>` closes it, and directives,
   * closing lines and comment lines are skipped.
   */
  lemma ParseLineFacts(line: string, openTag: bool)
    ensures var r := ParseLine(line, openTag);
      && (AllSpace(line) ==> !r.0 && r.1 == openTag)
      && (!AllSpace(line) ==>
            && (Contains(line, "--%>") ==> r.0 && !r.1)
            && (!Contains(line, "--%>") ==> (r.1 <==> openTag || Contains(line, "<%--")))
            && (r.0 <==> Contains(line, "<%@") || Contains(line, "--%>") || r.1))
  {
    assert AllSpace("");
  }

  /**
   * `Legacy.ExtractCode.ProcessLine`: whether a block just ended, the block,
   * the code flag and the page after the line.
   */
  function ProcessLine(line: string, block: seq<string>, isCode: bool, output: seq<string>)
    : (bool, seq<string>, bool, seq<string>)
  {
    if AllSpace(line) then (false, block, isCode, output)
    else if Contains(line, "<%") && Contains(line, "%>") then (false, block, isCode, output + [line])
    else
      var isCode1 := isCode || Contains(line, "<%");
      if !isCode1 then (false, block, isCode1, output + [line])
      else
        var content := Content(line);
        var block1 := if content != "" then block + [content] else block;
        if !Contains(line, "%>") then (false, block1, isCode1, output)
        else (true, block1, false, output)
  }

  /**
   * Blank lines change nothing; a line holding both marks is copied as it
   * is; a line outside code is copied; a code line is not copied, its
   * non-empty content joins the block, and `%>` ends the block.
   */
  lemma ProcessLineFacts(line: string, block: seq<string>, isCode: bool, output: seq<string>)
    ensures var r := ProcessLine(line, block, isCode, output);
      var both := Contains(line, "<%") && Contains(line, "%>");
      var inCode := isCode || Contains(line, "<%");
      && (AllSpace(line) ==> r == (false, block, isCode, output))
      && (!AllSpace(line) && both ==> r == (false, block, isCode, output + [line]))
      && (!AllSpace(line) && !both && !inCode ==> r == (false, block, false, output + [line]))
      && (!AllSpace(line) && !both && inCode ==>
            && r.3 == output
            && r.1 == block + (if Content(line) != "" then [Content(line)] else [])
            && (r.0 <==> Contains(line, "%>")) && r.2 == !r.0)
      && (r.0 ==> r.3 == output && !r.2)
  {
  }

  /** `Util.CheckIf` as a predicate: no "else" line, or some "if" line. */
  predicate IfBalanced(block: seq<string>) {
    !Util.AnyStartsWith(block, "else") || Util.AnyStartsWith(block, "if")
  }

  /** The conditions under which `ValidateCode` keeps a block as a render function. */
  predicate Accepted(block: seq<string>)
    requires |block| > 0
  {
    && Util.CharTotal(block, '{') == Util.CharTotal(block, '}')
    && IfBalanced(block)
    && '{' !in block[0] && '}' !in block[0] && !Contains(block[0], "readonly")
    && '{' !in block[|block| - 1] && '}' !in block[|block| - 1]
  }

  /** A balanced block whose last line holds a brace: it is neither accepted nor written back. */
  predicate CarriedOver(block: seq<string>)
    requires |block| > 0
  {
    Util.CharTotal(block, '{') == Util.CharTotal(block, '}')
    && ('{' in block[|block| - 1] || '}' in block[|block| - 1])
  }

  /** `Legacy.ExtractCode.ValidateCode`: the verdict, the caller's block and the page after it. */
  function Validate(block: seq<string>, aspx: seq<string>): (bool, seq<string>, seq<string>)
    requires |block| > 0
  {
    var rejected := (false, [], aspx + ["<%"] + block + ["%>"]);
    if Util.CharTotal(block, '{') != Util.CharTotal(block, '}') then rejected
    else
      var check := IfBalanced(block) && '{' !in block[0] && '}' !in block[0] && !Contains(block[0], "readonly");
      if '{' in block[|block| - 1] || '}' in block[|block| - 1] then (false, block, aspx)
      else if check then (true, block, aspx)
      else rejected
  }

  /**
   * A block is accepted exactly when it passes every check, and then nothing
   * is written; a balanced block whose last line holds a brace is kept for
   * the next block with nothing written; any other block is written back
   * between `<%` and `%>` and the caller's block emptied.
   */
  lemma ValidateFacts(block: seq<string>, aspx: seq<string>)
    requires |block| > 0
    ensures var r := Validate(block, aspx);
      && (r.0 <==> Accepted(block))
      && (r.0 ==> r.1 == block && r.2 == aspx)
      && (!r.0 && CarriedOver(block) ==> r.1 == block && r.2 == aspx)
      && (!r.0 && !CarriedOver(block) ==> r.1 == [] && r.2 == aspx + ["<%"] + block + ["%>"])
  {
  }

  /** `Legacy.ExtractCode.ValidateCode`, with the caller's block and page passed in and out. */
  method ValidateCode(block: seq<string>, aspx: seq<string>) returns (check: bool, block': seq<string>, aspx': seq<string>)
    requires |block| > 0
    ensures (check, block', aspx') == Validate(block, aspx)
  {
    block', aspx' := block, aspx;
    var open := Util.CountChar(block, '{');
    var close := Util.CountChar(block, '}');
    check := open == close;
    if check {
      check := Util.CheckIf(block);
      if '{' in block[0] {
        check := false;
      }
      if '}' in block[0] {
        check := false;
      }
      if Contains(block[0], "readonly") {
        check := false;
      }
      if '{' in block[|block| - 1] {
        return false, block', aspx';
      }
      if '}' in block[|block| - 1] {
        return false, block', aspx';
      }
      if check {
        return true, block', aspx';
      }
    }
    aspx' := aspx' + ["<%"];
    for k := 0 to |block|
      invariant aspx' == aspx + ["<%"] + block[..k]
    {
      aspx' := aspx' + [block[k]];
      assert block[..k + 1] == block[..k] + [block[k]];
    }
    assert block[..|block|] == block;
    aspx' := aspx' + ["%>"];
    block' := [];
  }

  /** One iteration of `ParseCode`'s loop. */
  function Step(x: Extraction, line: string): Extraction {
    var p := ParseLine(line, x.openTag);
    if p.0 then x.(openTag := p.1, aspx := x.aspx + [line])
    else Finish(x.(openTag := p.1), ProcessLine(line, x.block, x.isCode, x.aspx))
  }

  /**
   * The rest of an iteration once `ProcessLine` has run: a block that ended
   * is validated, and when accepted it is numbered and its call appended.
   */
  function Finish(x: Extraction, q: (bool, seq<string>, bool, seq<string>)): Extraction {
    var y := x.(block := q.1, isCode := q.2, aspx := q.3);
    if !q.0 || |q.1| == 0 then y
    else
      var v := Validate(q.1, q.3);
      if !v.0 then y.(block := v.1, aspx := v.2)
      else y.(block := [], found := x.found + [q.1], aspx := v.2 + ["<% " + BlockName(|x.found| + 1) + "(); %>"])
  }

  /** The loop over the first lines. */
  function ExtractAll(lines: seq<string>): Extraction
    decreases |lines|
  {
    if lines == [] then Start else Step(ExtractAll(lines[..|lines| - 1]), lines[|lines| - 1])
  }

  lemma ExtractAllNext(lines: seq<string>, k: nat)
    requires k < |lines|
    ensures ExtractAll(lines[..k + 1]) == Step(ExtractAll(lines[..k]), lines[k])
  {
    assert lines[..k + 1][..k] == lines[..k];
  }

  /** Every block kept passed `ValidateCode`. */
  predicate AllAccepted(found: seq<seq<string>>) {
    forall i :: 0 <= i < |found| ==> |found[i]| > 0 && Accepted(found[i])
  }

  /**
   * An iteration only adds to the page and to the blocks kept; a block is
   * kept only when it passes every check, and then the page ends with its call.
   */
  lemma FinishFacts(x: Extraction, q: (bool, seq<string>, bool, seq<string>))
    requires AllAccepted(x.found) && x.aspx <= q.3
    ensures var y := Finish(x, q);
      && AllAccepted(y.found)
      && x.aspx <= y.aspx
      && x.found <= y.found && |y.found| <= |x.found| + 1
      && (|y.found| == |x.found| + 1 ==> y.aspx[|y.aspx| - 1] == "<% " + BlockName(|y.found|) + "(); %>")
  {
    if q.0 && |q.1| > 0 {
      ValidateFacts(q.1, q.3);
      var y := Finish(x, q);
      if |y.found| == |x.found| + 1 {
        assert y.found[|x.found|] == q.1;
      }
    }
  }

  lemma StepFacts(x: Extraction, line: string)
    requires AllAccepted(x.found)
    ensures var y := Step(x, line);
      && AllAccepted(y.found)
      && x.aspx <= y.aspx
      && x.found <= y.found && |y.found| <= |x.found| + 1
      && (|y.found| == |x.found| + 1 ==> y.aspx[|y.aspx| - 1] == "<% " + BlockName(|y.found|) + "(); %>")
  {
    var p := ParseLine(line, x.openTag);
    if !p.0 {
      var q := ProcessLine(line, x.block, x.isCode, x.aspx);
      ProcessLineFacts(line, x.block, x.isCode, x.aspx);
      FinishFacts(x.(openTag := p.1), q);
    }
  }

  /** Over the whole page every block kept passed `ValidateCode`. */
  lemma {:induction false} ExtractAllAccepted(lines: seq<string>)
    ensures AllAccepted(ExtractAll(lines).found)
    decreases |lines|
  {
    if lines != [] {
      ExtractAllAccepted(lines[..|lines| - 1]);
      StepFacts(ExtractAll(lines[..|lines| - 1]), lines[|lines| - 1]);
    }
  }

  /**
   * A balanced block whose last line holds a brace survives its closing line
   * and is continued by the next code block, with nothing written to the page.
   */
  lemma CarryOver(x: Extraction, line: string)
    requires !ParseLine(line, x.openTag).0
    requires var q := ProcessLine(line, x.block, x.isCode, x.aspx);
      q.0 && |q.1| > 0 && CarriedOver(q.1)
    ensures var y := Step(x, line);
      var q := ProcessLine(line, x.block, x.isCode, x.aspx);
      y.block == q.1 && y.aspx == x.aspx && y.found == x.found && !y.isCode
  {
    ProcessLineFacts(line, x.block, x.isCode, x.aspx);
  }

  /**
   * The table `ParseCode` returns: every block under its name, and the page
   * under the file's name. `Hashtable.Add` throws ArgumentException when the
   * file's name is already a block name; its message is the failure here.
   */
  function Extracted(lines: seq<string>, fileName: string): Result<map<string, seq<string>>, string> {
    var x := ExtractAll(lines);
    var blocks := BlockMap(x.found);
    if fileName in blocks then Failure("Item has already been added. Key in dictionary: '" + fileName + "'  Key being added: '" + fileName + "'")
    else Success(blocks[fileName := x.aspx])
  }

  /**
   * The blocks are `Render_Logic_01` onwards, each one that passed every
   * check, and the page sits under the file's name.
   */
  lemma ExtractedTable(lines: seq<string>, fileName: string)
    requires Extracted(lines, fileName).Success?
    ensures var x := ExtractAll(lines);
      var t := Extracted(lines, fileName).value;
      && t[fileName] == x.aspx
      && |t| == |x.found| + 1
      && (forall i :: 1 <= i <= |x.found| ==> BlockName(i) in t && t[BlockName(i)] == x.found[i - 1])
      && AllAccepted(x.found)
  {
    var x := ExtractAll(lines);
    var blocks := BlockMap(x.found);
    var t := Extracted(lines, fileName).value;
    assert fileName !in blocks && t == blocks[fileName := x.aspx];
    BlockMapSize(x.found);
    assert |t| == |blocks| + 1;
    BlockMapFacts(x.found);
    ExtractAllAccepted(lines);
    forall i | 1 <= i <= |x.found|
      ensures BlockName(i) in t && t[BlockName(i)] == x.found[i - 1]
    {
      assert BlockName(i) in blocks && BlockName(i) != fileName;
    }
  }

  /** The body of `ParseCode`'s loop on one line, with the table of the blocks found so far. */
  method ParseCodeLine(x: Extraction, blocks: map<string, seq<string>>, blockCnt: int, line: string)
    returns (y: Extraction, blocks': map<string, seq<string>>, blockCnt': int)
    requires blockCnt == |x.found| && blocks == BlockMap(x.found)
    ensures y == Step(x, line) && blockCnt' == |y.found| && blocks' == BlockMap(y.found)
  {
    y, blocks', blockCnt' := x, blocks, blockCnt;
    var skip := ParseLine(line, x.openTag);
    y := y.(openTag := skip.1);
    if skip.0 {
      y := y.(aspx := y.aspx + [line]);
      return;
    }
    var ended := ProcessLine(line, x.block, x.isCode, x.aspx);
    y := y.(block := ended.1, isCode := ended.2, aspx := ended.3);
    if ended.0 {
      if |y.block| == 0 {
        return;
      }
      var ok, block, aspx := ValidateCode(y.block, y.aspx);
      if !ok {
        y := y.(block := block, aspx := aspx);
        return;
      }
      BlockMapFresh(x.found);
      blockCnt' := blockCnt' + 1;
      var blockStr := BlockName(blockCnt');
      blocks' := blocks'[blockStr := y.block];
      y := y.(found := y.found + [y.block], aspx := aspx + ["<% " + blockStr + "(); %>"]);
      y := y.(block := []);
    }
  }

  /** `Legacy.ExtractCode.ParseCode` over the page's lines. */
  method ParseCode(lines: seq<string>, fileName: string) returns (r: Result<map<string, seq<string>>, string>)
    ensures r == Extracted(lines, fileName)
  {
    var blocks: map<string, seq<string>> := map[];
    var blockCnt := 0;
    var x := Start;
    for k := 0 to |lines|
      invariant x == ExtractAll(lines[..k])
      invariant blockCnt == |x.found| && blocks == BlockMap(x.found)
    {
      ExtractAllNext(lines, k);
      x, blocks, blockCnt := ParseCodeLine(x, blocks, blockCnt, lines[k]);
    }
    assert lines[..|lines|] == lines;
    if fileName in blocks {
      return Failure("Item has already been added. Key in dictionary: '" + fileName + "'  Key being added: '" + fileName + "'");
    }
    blocks := blocks[fileName := x.aspx];
    return Success(blocks);
  }
}
