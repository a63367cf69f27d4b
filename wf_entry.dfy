/**
 * The line entries of the WebForms rewriting tool: the tag-type and file-type
 * enumerations, the `Entry` object the passes classify in place, and its
 * classification maps.
 */
module AspEntry {
  import opened Wrappers
  import opened Strings

  /**
   * The tag types. `Script` is used by the line classifier and by the group
   * names although the enumeration itself does not declare it; it is added here.
   */
  datatype TagType =
    | Comment | Content | Open | Close | Attr | Value | DocType | Page
    | CodeComment | CodeContent | CodeOpen | CodeClose | CodeAttr | CodeValue
    | Script

  /** Which output an entry belongs to: the page markup or the code-behind class. */
  datatype AspFile = Html | CodeBehind

  /** The six tag types that have a code counterpart. */
  predicate HasCodeForm(t: TagType) {
    t == Attr || t == Value || t == Close || t == Open || t == Comment || t == Content
  }

  predicate IsCodeType(t: TagType) {
    t == CodeAttr || t == CodeValue || t == CodeClose || t == CodeOpen || t == CodeComment || t == CodeContent
  }

  /** The markup counterpart of a code tag type; every other type is its own counterpart. */
  function Plain(t: TagType): (r: TagType)
    ensures !IsCodeType(r)
  {
    match t
    case CodeAttr => Attr
    case CodeValue => Value
    case CodeClose => Close
    case CodeOpen => Open
    case CodeComment => Comment
    case CodeContent => Content
    case _ => t
  }

  /** `Entry.GetTagType`: inside code, the six markup types become their code counterparts. */
  function GetTagType(t: TagType, isCode: bool): (r: TagType)
    ensures Plain(r) == Plain(t)
    ensures isCode && HasCodeForm(t) ==> IsCodeType(r)
    ensures !(isCode && HasCodeForm(t)) ==> r == t
  {
    match t
    case Attr => if isCode then CodeAttr else Attr
    case Value => if isCode then CodeValue else Value
    case Close => if isCode then CodeClose else Close
    case Open => if isCode then CodeOpen else Open
    case Comment => if isCode then CodeComment else Comment
    case Content => if isCode then CodeContent else Content
    case _ => t
  }

  /** Applying `GetTagType` twice with the same flag changes nothing more: code types fall through. */
  lemma GetTagTypeIdempotent(t: TagType, isCode: bool)
    ensures GetTagType(GetTagType(t, isCode), isCode) == GetTagType(t, isCode)
  {
    var r := GetTagType(t, isCode);
    if isCode && HasCodeForm(t) {
      assert IsCodeType(r) && !HasCodeForm(r);
    }
  }

  /** `Entry.GetGroupName`: the fixed group name of each tag type. */
  function GetGroupName(t: TagType): (r: string)
    ensures TagTypeOfGroup(r) == Some(t)
  {
    match t
    case Content => "content"
    case Comment => "comment"
    case Open => "tagOpen"
    case Close => "tagClose"
    case Attr => "tagAttr"
    case Value => "tagValue"
    case Script => "script"
    case DocType => "docType"
    case Page => "page"
    case CodeComment => "codeComment"
    case CodeOpen => "codeOpen"
    case CodeClose => "codeClose"
    case CodeAttr => "codeAttr"
    case CodeValue => "codeValue"
    case CodeContent => "codeContent"
  }

  /** The tag type a group name stands for, if any: the inverse of `GetGroupName`. */
  function TagTypeOfGroup(name: string): Option<TagType> {
    if name == "content" then Some(Content)
    else if name == "comment" then Some(Comment)
    else if name == "tagOpen" then Some(Open)
    else if name == "tagClose" then Some(Close)
    else if name == "tagAttr" then Some(Attr)
    else if name == "tagValue" then Some(Value)
    else if name == "script" then Some(Script)
    else if name == "docType" then Some(DocType)
    else if name == "page" then Some(Page)
    else if name == "codeComment" then Some(CodeComment)
    else if name == "codeOpen" then Some(CodeOpen)
    else if name == "codeClose" then Some(CodeClose)
    else if name == "codeAttr" then Some(CodeAttr)
    else if name == "codeValue" then Some(CodeValue)
    else if name == "codeContent" then Some(CodeContent)
    else None
  }

  /** Distinct tag types have distinct group names. */
  lemma GroupNameInjective(a: TagType, b: TagType)
    requires GetGroupName(a) == GetGroupName(b)
    ensures a == b
  {
    assert Some(a) == TagTypeOfGroup(GetGroupName(a)) == TagTypeOfGroup(GetGroupName(b)) == Some(b);
  }

  /** `Entry.GetFileType`: the label of a file type. */
  function GetFileType(fileType: AspFile): (r: string)
    ensures r == "Code" <==> fileType == CodeBehind
    ensures fileType == Html ==> r == "Html"
  {
    if fileType == CodeBehind then "Code" else "Html"
  }

  /** The element names `Entry.IsSelfClosing` treats as void. */
  const VoidElements: set<string> :=
    {"area", "base", "br", "col", "embed", "hr", "img", "input",
     "link", "meta", "param", "source", "track", "wbr"}

  /** `Entry.IsSelfClosing`: the whole lower-cased value is a void element name. */
  predicate IsSelfClosing(value: string) {
    Lower(value) in VoidElements
  }

  /** `Entry.RequiresChildren`: the whole lower-cased value is "select". */
  predicate RequiresChildren(value: string) {
    Lower(value) == "select"
  }

  lemma LowerIdempotent(s: string)
    ensures Lower(Lower(s)) == Lower(s)
  {
    assert forall i :: 0 <= i < |s| ==> ToLower(ToLower(s[i])) == ToLower(s[i]);
  }

  /** Both name tests ignore case, and no value is both void and in need of children. */
  lemma NameTestsIgnoreCase(value: string)
    ensures IsSelfClosing(Lower(value)) == IsSelfClosing(value)
    ensures RequiresChildren(Lower(value)) == RequiresChildren(value)
    ensures !(IsSelfClosing(value) && RequiresChildren(value))
  {
    LowerIdempotent(value);
  }

  /** Every field of an entry, as a value; `children` holds the child objects themselves. */
  datatype Fields = Fields(
    groupName: string,
    value: string,
    fileType: AspFile,
    tagType: TagType,
    codeFunction: Option<string>,
    isOpen: bool,
    innerText: string,
    children: seq<Entry>,
    attributes: map<string, string>)

  /** The fields of a new entry. */
  const Blank: Fields := Fields("", "", Html, Content, None, false, "", [], map[])

  /** One classified line or node of a page; the passes update entries in place. */
  class Entry {
    var groupName: string
    var value: string
    var fileType: AspFile
    var tagType: TagType
    /** Null in the original until a pass names the render function. */
    var codeFunction: Option<string>
    var isOpen: bool
    var innerText: string
    var children: seq<Entry>
    var attributes: map<string, string>

    constructor()
      ensures Get() == Blank
    {
      groupName, value, fileType, tagType := "", "", Html, Content;
      codeFunction, isOpen, innerText := None, false, "";
      children, attributes := [], map[];
    }

    function Get(): Fields
      reads this
    {
      Fields(groupName, value, fileType, tagType, codeFunction, isOpen, innerText, children, attributes)
    }

    predicate NeedsChildren()
      reads this`value
    {
      RequiresChildren(value)
    }

    predicate SelfClosing()
      reads this`value
    {
      IsSelfClosing(value)
    }

    predicate HasChildren()
      reads this`children
    {
      |children| > 0
    }

    predicate HasAttributes()
      reads this`attributes
    {
      |attributes| > 0
    }
  }
}
