/**
 * The classification state the line passes thread from entry to entry: tag and
 * code flags, the brace counters of the open code block and the number of the
 * render function being filled.
 */
module AspState {
  import opened Strings

  /** Every field of a state, as a value. */
  datatype Flags = Flags(
    isTag: bool,
    isOpen: bool,
    isCode: bool,
    prevCode: bool,
    openCode: int,
    closeCode: int,
    funcCount: int,
    isComment: bool,
    isScript: bool)

  /** The state after a code value has been seen: a value holding `%>` with balanced braces closes the block. */
  function Handled(s: Flags, value: string): (r: Flags)
    ensures r.funcCount >= s.funcCount
    ensures r != s <==> Contains(value, "%>") && s.openCode == s.closeCode
    ensures r != s ==> r.openCode == 0 && r.closeCode == 0 && !r.isCode
    ensures r.isTag == s.isTag && r.isOpen == s.isOpen && r.prevCode == s.prevCode
    ensures r.isComment == s.isComment && r.isScript == s.isScript
  {
    if !Contains(value, "%>") || s.openCode != s.closeCode then s
    else s.(openCode := 0, closeCode := 0, isCode := false, funcCount := s.funcCount + 1)
  }

  /** The state after a run of code values. */
  function HandledAll(s: Flags, values: seq<string>): Flags
    decreases |values|
  {
    if values == [] then s else HandledAll(Handled(s, values[0]), values[1..])
  }

  /** The render-function number never goes down, and rises by at most one per value. */
  lemma {:induction false} FuncCountMonotone(s: Flags, values: seq<string>)
    ensures s.funcCount <= HandledAll(s, values).funcCount <= s.funcCount + |values|
    decreases |values|
  {
    if values != [] {
      FuncCountMonotone(Handled(s, values[0]), values[1..]);
    }
  }

  /** Counting the braces of a code entry's text, then handling the text. */
  function CodeStep(s: Flags, text: string): (r: Flags)
    ensures r.funcCount >= s.funcCount
    ensures r.funcCount == s.funcCount + 1 <==>
      Contains(text, "%>") && s.openCode + CountChar(text, '{') == s.closeCode + CountChar(text, '}')
  {
    Handled(s.(openCode := s.openCode + CountChar(text, '{'), closeCode := s.closeCode + CountChar(text, '}')), text)
  }

  /** The flags of a new `State`. */
  const Initial: Flags := Flags(false, false, false, false, 0, 0, 1, false, false)

  class State {
    var isTag: bool
    var isOpen: bool
    var isCode: bool
    var prevCode: bool
    var openCode: int
    var closeCode: int
    var funcCount: int
    /** Used by the line classifier although the state class does not declare it. */
    var isComment: bool
    /** Used by the line classifier although the state class does not declare it. */
    var isScript: bool

    function Get(): Flags
      reads this
    {
      Flags(isTag, isOpen, isCode, prevCode, openCode, closeCode, funcCount, isComment, isScript)
    }

    constructor()
      ensures Get() == Initial
    {
      isTag, isOpen, isCode, prevCode := false, false, false, false;
      openCode, closeCode, funcCount := 0, 0, 1;
      isComment, isScript := false, false;
    }

    /** Closes the code block: counters to zero, code mode off, next render function. */
    method Reset()
      modifies this
      ensures Get() == old(Get()).(openCode := 0, closeCode := 0, isCode := false, funcCount := old(funcCount) + 1)
    {
      openCode, closeCode, isCode := 0, 0, false;
      funcCount := funcCount + 1;
    }

    method HandleCodeState(value: string)
      modifies this
      ensures Get() == Handled(old(Get()), value)
    {
      if !Contains(value, "%>") {
        return;
      }
      if openCode != closeCode {
        return;
      }
      Reset();
    }
  }
}
