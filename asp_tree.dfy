/**
 * The tags of a parsed ASP.NET page (AspParser Tag, Attribute, TagList and
 * AttributeList). The page's tags live in one sequence owned by the document
 * and refer to each other by position: the document itself is tag 0, a tag's
 * parent is a position before its own, and a tag's child list is a sequence
 * of positions. Fragments are read against the page text.
 */
module AspTree {
  import opened Wrappers
  import opened Strings
  import opened AspFragment

  /** The kind of a tag. */
  datatype TagType = Root | Open | Close | Text | Directive | Code | Comment

  /** The parse error recorded on a tag. */
  datatype TagError = None | UnclosedOpenTag | UnopenedCloseTag

  /** An attribute: its three fragments and whether its value is a data-binding expression. */
  datatype Attribute = Attribute(body: Fragment, key: Fragment, value: Fragment, dataBound: bool)

  /**
   * A tag: its kind, the position of its parent (-1 for the document), the
   * positions of its children in order, its name and value fragments, its
   * attributes in order and its error.
   */
  datatype Node = Node(kind: TagType, parent: int, children: seq<nat>, name: Fragment,
                       value: Fragment, attributes: seq<Attribute>, error: TagError)

  /** A freshly constructed attribute: all three fragments undefined and not data-bound. */
  const NewAttribute: Attribute := Attribute(Undefined, Undefined, Undefined, false)

  /** A freshly constructed tag: no children, no attributes, undefined fragments and no error. */
  function NewNode(kind: TagType, parent: int): Node {
    Node(kind, parent, [], Undefined, Undefined, [], TagError.None)
  }

  // ------------------------------------------------------------ tag arena

  /**
   * `node` placed at the end of the arena, its position appended to the child
   * list of `parent`.
   */
  function Attach(nodes: seq<Node>, parent: nat, node: Node): (r: seq<Node>)
    requires parent < |nodes|
    ensures |r| == |nodes| + 1 && r[|nodes|] == node
    ensures r[parent] == nodes[parent].(children := nodes[parent].children + [|nodes|])
    ensures forall i :: 0 <= i < |nodes| && i != parent ==> r[i] == nodes[i]
  {
    nodes[parent := nodes[parent].(children := nodes[parent].children + [|nodes|])] + [node]
  }

  /** Changing the newest tag after attaching it is attaching the changed tag. */
  lemma AttachUpdate(nodes: seq<Node>, parent: nat, node: Node, node': Node)
    requires parent < |nodes|
    ensures Attach(nodes, parent, node)[|nodes| := node'] == Attach(nodes, parent, node')
  {
  }

  /**
   * The Tag constructor: the new tag goes at the end of the arena and its
   * position at the end of its parent's child list.
   */
  function AddNode(nodes: seq<Node>, parent: nat, kind: TagType): seq<Node>
    requires parent < |nodes|
  {
    Attach(nodes, parent, NewNode(kind, parent))
  }

  /** DocumentFragment.Set on the value fragment of tag `i`: nothing else changes. */
  function SetValueFragment(nodes: seq<Node>, i: nat, f: Fragment): (r: seq<Node>)
    requires i < |nodes|
    ensures |r| == |nodes| && r[i] == nodes[i].(value := f)
    ensures forall j :: 0 <= j < |nodes| && j != i ==> r[j] == nodes[j]
  {
    nodes[i := nodes[i].(value := f)]
  }

  /** DocumentFragment.Set on the name fragment of tag `i`: nothing else changes. */
  function SetNameFragment(nodes: seq<Node>, i: nat, f: Fragment): (r: seq<Node>)
    requires i < |nodes|
    ensures |r| == |nodes| && r[i] == nodes[i].(name := f)
    ensures forall j :: 0 <= j < |nodes| && j != i ==> r[j] == nodes[j]
  {
    nodes[i := nodes[i].(name := f)]
  }

  /** Tag.SetError: overwrites the error of tag `i` and nothing else. */
  function SetError(nodes: seq<Node>, i: nat, e: TagError): (r: seq<Node>)
    requires i < |nodes|
    ensures |r| == |nodes| && r[i] == nodes[i].(error := e)
    ensures forall j :: 0 <= j < |nodes| && j != i ==> r[j] == nodes[j]
  {
    nodes[i := nodes[i].(error := e)]
  }

  /** A tag appended to a parent keeps the parent's earlier children in front of it, and is its last child. */
  lemma AddNodeAppendsChild(nodes: seq<Node>, parent: nat, kind: TagType)
    requires parent < |nodes|
    ensures var r := AddNode(nodes, parent, kind);
      LastTag(r[parent].children) == Some(|nodes|) &&
      Count(r[parent].children) == Count(nodes[parent].children) + 1 &&
      (HasChildTags(nodes[parent]) ==> FirstTag(r[parent].children) == FirstTag(nodes[parent].children)) &&
      forall k :: 0 <= k < Count(nodes[parent].children) ==> r[parent].children[k] == nodes[parent].children[k]
  {
  }

  // ----------------------------------------------------------- text views

  /**
   * Tag.Name: the text of the name fragment; the document's name is the whole
   * page. Reading an undefined fragment raises.
   */
  function NameOf(text: string, n: Node): Result<string, FragmentError> {
    if n.kind == Root then Success(text) else FragmentText(n.name, Some(text))
  }

  /** Tag.Value, and Tag.ToString: the text of the value fragment; the document's value is the whole page. */
  function ValueOf(text: string, n: Node): Result<string, FragmentError> {
    if n.kind == Root then Success(text) else FragmentText(n.value, Some(text))
  }

  /** The position of the first `:` in `name`, or -1. */
  function ColonAt(name: string): (r: int)
    ensures -1 <= r < |name|
    ensures r >= 0 ==> name[r] == ':'
    ensures forall i :: 0 <= i < (if r == -1 then |name| else r) ==> name[i] != ':'
  {
    if name == [] then -1
    else if name[0] == ':' then 0
    else var r := ColonAt(name[1..]); if r == -1 then -1 else r + 1
  }

  /** The prefix of an open or close tag's name: what precedes its first `:`, when that is not at position 0. */
  function PrefixOf(kind: TagType, name: string): string {
    if (kind == Open || kind == Close) && ColonAt(name) > 0 then name[..ColonAt(name)] else ""
  }

  /** The local name of an open or close tag: what follows its first `:`, under the same condition. */
  function LocalNameOf(kind: TagType, name: string): string {
    if (kind == Open || kind == Close) && ColonAt(name) > 0 then name[ColonAt(name) + 1..] else ""
  }

  /**
   * A qualified open or close tag name splits at its first colon into prefix
   * and local name, and the prefix holds no colon; every other name, a plain
   * `div` included, has empty prefix and empty local name.
   */
  lemma PrefixLocalNameSplit(kind: TagType, name: string)
    ensures (kind == Open || kind == Close) && (exists i | 0 < i < |name| :: name[i] == ':') && name[0] != ':' ==>
      name == PrefixOf(kind, name) + ":" + LocalNameOf(kind, name) && |PrefixOf(kind, name)| > 0 &&
      forall i :: 0 <= i < |PrefixOf(kind, name)| ==> PrefixOf(kind, name)[i] != ':'
    ensures !((kind == Open || kind == Close) && (exists i | 0 < i < |name| :: name[i] == ':') && name[0] != ':') ==>
      PrefixOf(kind, name) == "" && LocalNameOf(kind, name) == ""
  {
    var c := ColonAt(name);
    if c > 0 {
      assert name == name[..c] + [name[c]] + name[c + 1..];
    }
  }

  /** Tag.Prefix of a tag; the document's prefix is empty. */
  function TagPrefix(text: string, n: Node): Result<string, FragmentError> {
    if n.kind == Root || !(n.kind == Open || n.kind == Close) then Success("")
    else match NameOf(text, n)
      case Success(name) => Success(PrefixOf(n.kind, name))
      case Failure(e) => Failure(e)
  }

  /** Tag.LocalName of a tag; the document's local name is the whole page. */
  function TagLocalName(text: string, n: Node): Result<string, FragmentError> {
    if n.kind == Root then Success(text)
    else if !(n.kind == Open || n.kind == Close) then Success("")
    else match NameOf(text, n)
      case Success(name) => Success(LocalNameOf(n.kind, name))
      case Failure(e) => Failure(e)
  }

  // ------------------------------------------------------------ empty tags

  /** The elements that need no closing tag. `P` is deliberately not among them. */
  const EmptyTags: seq<string> := [
    "!DOCTYPE", "WBR", "RT", "PLAINTEXT", "PARAM", "OPTION", "META", "LINK", "LI", "INPUT",
    "IMG", "HR", "FRAME", "EMBED", "COL", "BR", "BGSOUND", "BASEFONT", "BASE", "AREA"]

  /** Membership in the case-insensitive empty-tag table. */
  predicate IsEmptyTagName(name: string) {
    exists i | 0 <= i < |EmptyTags| :: EqualsIgnoreCase(EmptyTags[i], name)
  }

  /** Tag.RequiresClosingTag on the full (qualified) name: only an open tag outside the table does. */
  predicate RequiresClosing(kind: TagType, name: string) {
    kind == Open && !IsEmptyTagName(name)
  }

  /** Whether a name is `SCRIPT` in any letter case. */
  predicate IsScriptTagName(name: string) { EqualsIgnoreCase("SCRIPT", name) }

  /** The table and the script test both ignore letter case. */
  lemma {:induction false} TagNamesIgnoreCase(kind: TagType, a: string, b: string)
    requires EqualsIgnoreCase(a, b)
    ensures RequiresClosing(kind, a) <==> RequiresClosing(kind, b)
    ensures IsScriptTagName(a) <==> IsScriptTagName(b)
  {
    if IsEmptyTagName(a) {
      var i :| 0 <= i < |EmptyTags| && EqualsIgnoreCase(EmptyTags[i], a);
      assert EqualsIgnoreCase(EmptyTags[i], b);
    }
    if IsEmptyTagName(b) {
      var i :| 0 <= i < |EmptyTags| && EqualsIgnoreCase(EmptyTags[i], b);
      assert EqualsIgnoreCase(EmptyTags[i], a);
    }
  }

  /** `br` needs no closing tag in any spelling; `p` and `script` do, and `P` is not in the table. */
  lemma EmptyTagExamples()
    ensures !RequiresClosing(Open, "br") && !RequiresClosing(Open, "Br")
    ensures RequiresClosing(Open, "p") && RequiresClosing(Open, "script")
    ensures !RequiresClosing(Close, "p") && !RequiresClosing(Text, "p")
  {
    assert EqualsIgnoreCase(EmptyTags[15], "br");
    assert EqualsIgnoreCase(EmptyTags[15], "Br");
    NotEmptyTag("p");
    NotEmptyTag("script");
  }

  /** A name no entry of the table matches in length and first letter is not in it. */
  lemma NotEmptyTag(name: string)
    requires |name| > 0
    requires forall i | 0 <= i < |EmptyTags| :: |EmptyTags[i]| != |name| || ToLower(EmptyTags[i][0]) != ToLower(name[0])
    ensures !IsEmptyTagName(name)
  {
    forall i | 0 <= i < |EmptyTags| ensures !EqualsIgnoreCase(EmptyTags[i], name) {
      if |EmptyTags[i]| == |name| {
        assert Lower(EmptyTags[i])[0] != Lower(name)[0];
      }
    }
  }

  // ------------------------------------------------------------ tag lists

  /** TagList.Count and AttributeList.Count. */
  function Count<T>(list: seq<T>): nat { |list| }

  /**
   * TagList[index] and AttributeList[index]: the item at `index`. The
   * ArrayList underneath throws ArgumentOutOfRangeException for any other
   * index, which is `None` here.
   */
  function ItemAt<T>(list: seq<T>, index: int): (r: Option<T>)
    ensures r.Some? <==> 0 <= index < Count(list)
    ensures r.Some? ==> r.value in list
  {
    if 0 <= index < |list| then Some(list[index]) else Option.None
  }

  /** The first and last tags are the items at index 0 and at index Count - 1. */
  lemma EndsAreItems(list: seq<nat>)
    ensures FirstTag(list) == ItemAt(list, 0)
    ensures LastTag(list) == ItemAt(list, Count(list) - 1)
    ensures forall i :: 0 <= i < Count(list) ==> ItemAt(list, i) == Some(list[i])
  {
  }

  /** Tag.HasChildTags. */

  predicate HasChildTags(n: Node) { Count(n.children) != 0 }

  /** TagList.FirstTag / Tag.FirstChild: the first position, or none. */
  function FirstTag(list: seq<nat>): (r: Option<nat>)
    ensures r.Some? <==> |list| > 0
  {
    if |list| > 0 then Some(list[0]) else Option.None
  }

  /** TagList.LastTag / Tag.LastChild: the last position, or none. */
  function LastTag(list: seq<nat>): (r: Option<nat>)
    ensures r.Some? <==> |list| > 0
  {
    if |list| > 0 then Some(list[|list| - 1]) else Option.None
  }

  /** Every tag on `list` is in the arena and its name is bound. */
  predicate NamesBound(text: string, nodes: seq<Node>, list: seq<nat>) {
    forall k :: 0 <= k < |list| ==> list[k] < |nodes| && (nodes[list[k]].kind == Root || Bound(text, nodes[list[k]].name))
  }

  /** The name of tag `t` matches `key` ignoring case (CaseInsensitiveComparer). */
  predicate NameMatches(text: string, nodes: seq<Node>, t: nat, key: string)
    requires t < |nodes|
  {
    match NameOf(text, nodes[t])
    case Success(s) => EqualsIgnoreCase(s, key)
    case Failure(_) => false
  }

  /**
   * TagList[name]: scans the list in order and returns the first tag whose name
   * equals `key` ignoring case, or none.
   */
  method TagByName(text: string, nodes: seq<Node>, list: seq<nat>, key: string) returns (r: Option<nat>)
    requires NamesBound(text, nodes, list)
    ensures r.Some? ==>
      exists k :: 0 <= k < |list| && list[k] == r.value && NameMatches(text, nodes, list[k], key) &&
        forall j :: 0 <= j < k ==> !NameMatches(text, nodes, list[j], key)
    ensures r.None? ==> forall j :: 0 <= j < |list| ==> !NameMatches(text, nodes, list[j], key)
  {
    var k := 0;
    while k < |list|
      invariant 0 <= k <= |list|
      invariant forall j :: 0 <= j < k ==> !NameMatches(text, nodes, list[j], key)
    {
      var t := list[k];
      var name := if nodes[t].kind == Root then text else text[nodes[t].name.index..End(nodes[t].name)];
      NameOfBound(text, nodes[t]);
      assert NameMatches(text, nodes, t, key) <==> EqualsIgnoreCase(name, key);
      if EqualsIgnoreCase(name, key) {
        assert list[k] == t;
        return Some(t);
      }
      k := k + 1;
    }
    return Option.None;
  }

  /** The name of a tag whose name fragment is bound is its text. */
  lemma NameOfBound(text: string, n: Node)
    requires n.kind == Root || Bound(text, n.name)
    ensures NameOf(text, n) == Success(if n.kind == Root then text else text[n.name.index..End(n.name)])
  {
  }

  // ------------------------------------------------------- attribute lists

  /** The Attribute constructor: the new attribute goes at the end of its owner's list. */
  function AddAttribute(n: Node): (r: Node)
    ensures r.attributes == n.attributes + [NewAttribute]
    ensures r == n.(attributes := r.attributes)
  {
    n.(attributes := n.attributes + [NewAttribute])
  }

  /** Attribute.ItIsDataBound: sets the flag; nothing clears it. */
  function ItIsDataBound(a: Attribute): (r: Attribute)
    ensures r.dataBound && r == a.(dataBound := true)
  {
    a.(dataBound := true)
  }

  /** Every key of `attrs` is bound. */
  predicate KeysBound(text: string, attrs: seq<Attribute>) {
    forall k :: 0 <= k < |attrs| ==> Bound(text, attrs[k].key)
  }

  /** AttributeList[key]: the first attribute whose key equals `key` ignoring case, or none. */
  method AttributeByKey(text: string, attrs: seq<Attribute>, key: string) returns (r: Option<nat>)
    requires KeysBound(text, attrs)
    ensures r.Some? ==>
      r.value < |attrs| && FragmentText(attrs[r.value].key, Some(text)).Success? &&
      EqualsIgnoreCase(FragmentText(attrs[r.value].key, Some(text)).value, key)
    ensures forall j :: 0 <= j < (if r.Some? then r.value else |attrs|) ==>
      !EqualsIgnoreCase(FragmentText(attrs[j].key, Some(text)).value, key)
  {
    var k := 0;
    while k < |attrs|
      invariant 0 <= k <= |attrs|
      invariant forall j :: 0 <= j < k ==> !EqualsIgnoreCase(FragmentText(attrs[j].key, Some(text)).value, key)
    {
      var f := attrs[k].key;
      if EqualsIgnoreCase(text[f.index..End(f)], key) {
        return Some(k);
      }
      k := k + 1;
    }
    return Option.None;
  }
}
