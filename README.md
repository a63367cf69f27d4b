# WebFormParser core, modelled in Dafny

This project models the parsing core of WebFormParser, a tool that takes
ASP.NET Web Forms pages (`.aspx`) apart into markup and code-behind. The
model covers three parts.

- **AspParser** (`Libraries/AspParser`). This is the page scanner. A `Document` is
  built from the page text. Its loop tries the parser's rules at a cursor: text,
  directive, server comment, XML comment, expression, data-binding expression,
  code block, open tag and end tag. Each match becomes a `Tag` hung under the
  current tag, and open and close tags are paired up by a walk up the tree.
  Script mode makes everything but comments and `</script>` opaque.
  The tag tree is modelled as an arena: the document holds
  `nodes: seq<Node>`, and tags refer to their parent and children by position.
  The end-tag pattern, the XML comment pattern and the data-binding value
  pattern are concrete recognisers (`asp_regex.dfy`). The other rules are a
  `Matcher` parameter constrained by `ValidMatch`.
- **SgmlReader DTD reader** (`Libraries/SgmlReader/Parser`). `Entity` is a class
  with the reader's fields; its methods are proved equal to pure functions over
  the text and a `Cursor`. `SgmlDtd` is a class with the entity stack and the
  entity and element tables. It reads comments, marked sections, `<!ENTITY`,
  `<!ELEMENT` and `<!ATTLIST` declarations and parameter-entity references.
  Text is UTF-16 code units (`Unit`), with EOF as 0xFFFF.
- **WebFormParser utility passes** (`WebFormParser/Utility`). These cover:
  - the parser `State` and the `Entry` record;
  - the line passes of `Asp/Parser.cs` (comment, code and script
    classification, tag classification, statement splitting, merging,
    render-function labelling, consolidation);
  - the page generator of `Asp/CodeGen.cs`;
  - the categorisation and merge passes of `Legacy/Parser.cs`;
  - the two code extractors;
  - the list and string helpers of `Util.cs`;
  - the brace scanner of `CleanJs.GetFunction`.

  Entries are objects the passes mutate in place, so `Entry` is a class. The lemmas describe
  entries through a `Store` map from entry to its field values.

Quirks of the code that the model reproduces:

- `Tag.RequiresClosingTag` looks the full name (prefix included) up in the
  table of empty tags, not the local name.
- `Asp/Parser.cs` reads and writes `State.IsComment` and `State.IsScript`, which
  `State.cs` does not declare; the model gives `State` those two flags.
- `TagTypeEnum` is modelled with the members the code uses. That includes
  `Script`, and `AspFileEnum` is `{Html, CodeBehind}`.
- `Entity.ScanToEnd`'s check for a scan that never closes compares with NUL,
  which `ReadChar` never returns (NUL is read as a space), so it never fires.
  Likewise `ReadNumericEntityCode`'s `ch == 0` error cannot happen.
- `Entity.SetLiteralType` compares the type case-sensitively while
  `Entity.IsLiteralType` ignores case (`SgmlEntity.LowerCaseLiteralTypeIgnored`).
- `ParseMarkup`'s keywords are case-sensitive, while marked-section keywords
  are not (`SgmlDecl.KeywordsCaseSensitive`).
- `ParseNameList` does not take `,` as a separator (`SgmlDecl.ListRejectsComma`).
- `ExtractCode.ParseCode` writes a one-line `<% x %>` to the page twice
  (`ExtractCode.OneLineTwice`).
- `Legacy.ExtractCode.ValidateCode` carries a balanced block ending in a
  brace over to the next block (`LegacyExtract.CarryOver`).
- `Parser.MergeNodes` and `Parser.ConsolidateNodes` index past the list on an
  empty list or at its end. The model returns `Fault(ArgumentOutOfRange)` there.

## Model

| member | source | states |
|---|---|---|
| AspDocument.Document.constructor | Libraries/AspParser/Document.cs:114-120 | binds the page and builds exactly the tags and script mode that `AspParse.Parse` describes |
| AspDocument.NewDocument | Libraries/AspParser/Document.cs:114-120 | an empty page fails with IndexPastEnd, because `Set(0, 0)` is past the last character; any other page gives the parsed document |
| AspDocument.Document.NewTag | Libraries/AspParser/Tag.cs:271-289 | the new tag is the last one in the arena and the last child of its parent |
| AspDocument.Document.SetValue | Libraries/AspParser/DocumentFragment.cs:82-119 | only the value fragment of that tag changes, to the span bound to the page |
| AspDocument.Document.SetName | Libraries/AspParser/DocumentFragment.cs:82-119 | only the name fragment of that tag changes, to the span bound to the page |
| AspDocument.Document.ProcessTextTag | Libraries/AspParser/Document.cs:376-389 | stretches a trailing text child of the current tag, or attaches a new text tag over the characters |
| AspDocument.Document.ProcessAttributes | Libraries/AspParser/Document.cs:413-434 | appends one attribute per aligned name/value capture pair, in capture order, and changes nothing else |
| AspDocument.Document.SetAttribute | Libraries/AspParser/Document.cs:419-432 | the attribute gets its body, key and value spans, and is data-bound when its value is a data-binding expression |
| AspDocument.Document.ProcessLeaf | Libraries/AspParser/Document.cs:391-411 | a directive, code or comment tag spanning the match is attached to the current tag; a directive also gets the match's attributes |
| AspDocument.Document.ProcessOpenTag | Libraries/AspParser/Document.cs:281-313 | attaches the open tag; it becomes current only when it is not self-closing and needs a closing tag, and `script` then starts script mode |
| AspDocument.Document.ProcessCloseTag | Libraries/AspParser/Document.cs:320-369 | in script mode a close tag other than `</script>` is only deferred; otherwise it closes the nearest open tag of its name and attaches a close tag as `CloseNodes` says |
| AspDocument.Document.FindOpenTag | Libraries/AspParser/Document.cs:339-352 | the loop's answer is the tag `FindOpen` names, or -1 |
| AspDocument.Document.AttachCloseTag | Libraries/AspParser/Document.cs:363-366 | the close tag spans the match, is named by its `tagname` capture and is attached under the new current tag |
| AspDocument.Document.TryRules | Libraries/AspParser/Document.cs:197-264 | the rules are tried in the parser's order at the cursor; a match found is a valid match there and is processed; no match, or a deferred close tag, changes nothing |
| AspDocument.Document.TryCommentRules | Libraries/AspParser/Document.cs:214-227 | the server comment, then the XML comment, then the markup rules, with the same guarantees as TryRules |
| AspDocument.Document.TryMarkupRules | Libraries/AspParser/Document.cs:229-264 | outside script mode the code and open-tag rules, then the end-tag rule |
| AspDocument.Document.TryCodeRules | Libraries/AspParser/Document.cs:229-250 | expression, data-binding expression and code block, in that order, then the open-tag rule |
| AspDocument.Document.FindCode | Libraries/AspParser/Document.cs:231-245 | the first of the expression, data-binding expression and code block matches, as `CodeMatch` says |
| AspDocument.Document.CodeLeaf | Libraries/AspParser/Document.cs:234-248 | processing a code match leaves the scan state `LeafStep` gives |
| AspDocument.Document.TryOpenRule | Libraries/AspParser/Document.cs:252-257 | the open-tag rule, then the end-tag rule |
| AspDocument.Document.TryCloseRule | Libraries/AspParser/Document.cs:260-264 | the end-tag rule, last in the loop body |
| AspDocument.Document.ApplyRules | Libraries/AspParser/Document.cs:197-276 | the current tag and cursor after the rules equal `AspParse.Dispatch` |
| AspDocument.Document.Pass | Libraries/AspParser/Document.cs:184-278 | one pass of the do-while loop equals `AspParse.Step` |
| AspDocument.Document.ParseStringInternal | Libraries/AspParser/Document.cs:177-279 | the loop leaves the tags and script mode that `AspParse.Parse` describes |
| AspFragment.Set | Libraries/AspParser/DocumentFragment.cs:82-119 | negative index, index past the end, negative length and overrun are each reported; otherwise the fragment is bound with its line and column |
| AspFragment.FragmentText | Libraries/AspParser/DocumentFragment.cs:128-140 | an undefined fragment fails; without a document the text is empty; otherwise it is the spanned slice of the page |
| AspFragment.LastNewline | Libraries/AspParser/DocumentFragment.cs:108-118 | the position of the last line feed before `i`, with no line feed between it and `i`, or -1 |
| AspFragment.LineCountsNewlines | Libraries/AspParser/DocumentFragment.cs:101-116 | the line of a position is one more than the number of line feeds before it |
| AspFragment.LineColumnStep | Libraries/AspParser/DocumentFragment.cs:108-118 | a line feed starts the next line at column 1; any other character moves the column by one |
| AspFragment.LineColumnBounds | Libraries/AspParser/DocumentFragment.cs:101-118 | lines and columns start at 1 and never exceed the position plus one |
| AspParse.TextStep | Libraries/AspParser/Document.cs:186-191 | text at the cursor keeps the tree invariant and moves the cursor past it, leaving the current tag and script mode |
| AspParse.Fallback | Libraries/AspParser/Document.cs:267-272 | one character taken as text keeps the invariant and moves the cursor by one |
| AspParse.LeafStep | Libraries/AspParser/Document.cs:391-411 | a directive, code or comment match keeps the invariant and moves the cursor to the match end |
| AspParse.OpenTagStep | Libraries/AspParser/Document.cs:281-313 | an open tag keeps the invariant and moves the cursor to the match end |
| AspParse.FindOpen | Libraries/AspParser/Document.cs:339-352 | the tag found is an open tag at or above the current tag, below the document |
| AspParse.CloseTagStep | Libraries/AspParser/Document.cs:320-369 | a close tag that is not deferred keeps the invariant, ends script mode and moves to the match end |
| AspParse.Dispatch | Libraries/AspParser/Document.cs:197-276 | the rules after the text rule keep the invariant and always move the cursor forward |
| AspParse.CodeMatch | Libraries/AspParser/Document.cs:231-250 | a match found is valid at the cursor, and none is found exactly when none of the three rules matches |
| AspParse.TextPhase | Libraries/AspParser/Document.cs:186-195 | the text rule moves the cursor exactly when it matches, keeping the current tag and script mode |
| AspParse.Step | Libraries/AspParser/Document.cs:184-278 | one loop iteration keeps the invariant and moves the cursor forward, so the loop ends |
| AspParse.Run | Libraries/AspParser/Document.cs:184-278 | the loop ends with the cursor at the end of the page and the invariant kept |
| AspParse.Parse | Libraries/AspParser/Document.cs:177-279 | a whole page is scanned to its end with the tree invariant kept |
| AspParseFacts.ParseTilesPage | Libraries/AspParser/Document.cs:177-279 | every character of the page is in the value of exactly one tag, and the values joined in creation order give back the page |
| AspParseFacts.FindOpenNearest | Libraries/AspParser/Document.cs:339-352 | the tag a close tag closes is the nearest open tag of that name on the path to the document; with none, no tag on the path qualifies |
| AspParseFacts.CloseTagEffect | Libraries/AspParser/Document.cs:320-369 | the close tag is the new current tag's last child; the closed tag loses its error and its parent becomes current; otherwise the close tag is marked unopened; no other error changes |
| AspParseFacts.OpenTagEffect | Libraries/AspParser/Document.cs:281-313 | the open tag is the current tag's last child; when self-closing or void it changes nothing else, otherwise it is marked unclosed, becomes current and `script` starts script mode |
| AspParseFacts.TextMerges | Libraries/AspParser/Document.cs:376-384 | when the last child is text, no tag is made and only that child's value is stretched |
| AspParseFacts.TextAttaches | Libraries/AspParser/Document.cs:386-389 | otherwise a new text tag becomes the current tag's last child and no earlier value changes |
| AspParseFacts.ScriptModeIsOpaque | Libraries/AspParser/Document.cs:198-264 | in script mode directives, code, open tags and close tags other than `</script>` are taken one character at a time |
| AspParseFacts.DirectiveFirst | Libraries/AspParser/Document.cs:197-206 | outside script mode a directive match wins over every other rule |
| AspParseFacts.NoMatchTakesOneChar | Libraries/AspParser/Document.cs:267-272 | when no rule matches exactly one character is taken as text |
| AspParseFacts.AttributeSpans | Libraries/AspParser/Document.cs:413-434 | the k-th attribute's key and value are the k-th captures; the body runs from key to value end, one further before a quote; data-bound exactly when the value is a data binding |
| AspRegex.EndTag | Libraries/WebForms.RegEx/lib/net6.0/EndTagRegex.cs:20 | a match found is a valid match at the cursor |
| AspRegex.EndTagSound | Libraries/WebForms.RegEx/lib/net6.0/EndTagRegex.cs:20 | every match is `</`, a name of `[\w:.]+`, white space and `>`, with the name captured |
| AspRegex.EndTagComplete | Libraries/WebForms.RegEx/lib/net6.0/EndTagRegex.cs:20 | text of that shape is matched, in exactly one way |
| AspRegex.XmlComment | Libraries/AspParser/Document.cs:149 | a match of `<!--(([^-]*)-)*?->` is a valid match at the cursor |
| AspRegex.CommentEndsAtFirstClose | Libraries/AspParser/Document.cs:149 | a comment ends just past the first closer at or after its opener's last `-`, and there is none without one |
| AspRegex.BlocksThenFirst | Libraries/AspParser/Document.cs:149 | the lazy block loop ends exactly at the first `-` that the closer follows |
| AspRegex.DataBoundComplete | Libraries/WebForms.RegEx/lib/net6.0/DataBindRegex.cs:20 | every value spelled `ws <% ws # code %> ws` is recognised as data-bound |
| AspRegex.DataBoundSound | Libraries/WebForms.RegEx/lib/net6.0/DataBindRegex.cs:20 | every value recognised as data-bound is spelled so |
| AspTree.Attach | Libraries/AspParser/Tag.cs:271-289 | the node is appended to the arena and to its parent's child list; no other tag changes |
| AspTree.AddNodeAppendsChild | Libraries/AspParser/Tag.cs:271-289 | the parent's earlier children stay in front and the new tag is its last child |
| AspTree.SetError | Libraries/AspParser/Tag.cs:295-298 | only that tag's error changes |
| AspTree.PrefixLocalNameSplit | Libraries/AspParser/Tag.cs:44-79 | an open or close name with an inner colon splits at its first colon into prefix and local name; any other name has empty prefix and local name |
| AspTree.TagNamesIgnoreCase | Libraries/AspParser/Tag.cs:217-263 | the empty-tag table and the script test both ignore letter case |
| AspTree.EmptyTagExamples | Libraries/AspParser/Tag.cs:217-263 | `br` needs no closing tag in any case; `p` and `script` need one; close and text tags never do |
| AspTree.FirstTag | Libraries/AspParser/TagList.cs:50-53 | there is a first tag exactly when the list is not empty |
| AspTree.LastTag | Libraries/AspParser/TagList.cs:61-64 | there is a last tag exactly when the list is not empty |
| AspTree.ItemAt | Libraries/AspParser/TagList.cs:39-42 | the item at an index inside the list, and the out-of-range failure outside it |
| AspTree.EndsAreItems | Libraries/AspParser/TagList.cs:50-64 | the first and last tags are the items at 0 and at Count - 1 |
| AspTree.TagByName | Libraries/AspParser/TagList.cs:18-30 | the first tag whose name equals the key ignoring case; none exactly when no tag does |
| AspTree.AttributeByKey | Libraries/AspParser/AttributeList.cs:20-32 | the first attribute whose key equals the key ignoring case; none before it matches |
| AspTree.AddAttribute | Libraries/AspParser/Attribute.cs:127-136 | the new attribute goes at the end of its owner's list and nothing else changes |
| AspTree.ItIsDataBound | Libraries/AspParser/Attribute.cs:141-144 | sets the data-bound flag and nothing else |
| AspTree.NameOfBound | Libraries/AspParser/Tag.cs:88-91 | a tag's name is the text its name fragment spans; the document's is the page |
| SgmlStream.Char | Libraries/SgmlReader/Parser/Entity.cs:253-293 | a NUL is read as a space and past the end comes EOF |
| SgmlStream.Next | Libraries/SgmlReader/Parser/Entity.cs:253-293 | a read makes the next character `lastchar`, counts a line at a line break and moves the line start, and advances the absolute position |
| SgmlStream.ReadNFacts | Libraries/SgmlReader/Parser/Entity.cs:253-293 | after k reads `lastchar` is the character k places ahead, and the absolute position and line count moved accordingly |
| SgmlStream.SkipWs | Libraries/SgmlReader/Parser/Entity.cs:424-432 | stops on the first character that is not white space, and moves not at all when `lastchar` is not white space |
| SgmlStream.SkipWsReads | Libraries/SgmlReader/Parser/Entity.cs:424-432 | reads exactly the run of white space before the character it returns |
| SgmlStream.TokenRun | Libraries/SgmlReader/Parser/Entity.cs:456-468 | outside name-token mode the loop never fails, and it reads at least one character unless it starts on EOF or a terminator |
| SgmlStream.TokenRunSpells | Libraries/SgmlReader/Parser/Entity.cs:456-468 | a token is the characters before EOF or a terminator, none a terminator and, for a name token, each a name character |
| SgmlStream.Token | Libraries/SgmlReader/Parser/Entity.cs:441-471 | a name token must start with a letter or `_`; otherwise ScanToken is the token loop |
| SgmlStream.DigitRun | Libraries/SgmlReader/Parser/Entity.cs:680-727 | the digit text only grows, and a digit was seen exactly when it grew |
| SgmlStream.NumericCode | Libraries/SgmlReader/Parser/Entity.cs:670-742 | ReadNumericEntityCode reads past the `#` and never past the text |
| SgmlStream.DigitRunReads | Libraries/SgmlReader/Parser/Entity.cs:680-727 | the digit loop reads exactly the run of decimal (or hex) digits ahead, appends them to the text and stops on the first character that is not one |
| SgmlStream.DigitRunValue | Libraries/SgmlReader/Parser/Entity.cs:680-727 | when the number the digits spell fits in an `int`, the loop's unchecked `v * base + p` arithmetic gives exactly that number |
| SgmlStream.SpelledPositional | Libraries/SgmlReader/Parser/Entity.cs:704-718 | taking in digits from the front as `v * base + p` gives their positional value |
| SgmlStream.NumericCodeReads | Libraries/SgmlReader/Parser/Entity.cs:670-742 | the text is `&#` (and `x` for hex) followed by the digits ahead; the reader stops on the character after the digits, or past it when it is `;`; without a digit the value is -1 |
| SgmlStream.NumericCodeValue | Libraries/SgmlReader/Parser/Entity.cs:670-742 | the value of a reference with digits is the number they spell, whenever that fits in an `int` |
| SgmlStream.CharEntityValue | Libraries/SgmlReader/Parser/Entity.cs:617-668 | a reference to 0x80-0x9F in HTML mode gives its Windows-1252 character; any other value that is not a high surrogate gives its UTF-16 encoding, and an error exactly when it is not a scalar value |
| SgmlStream.CharEntity | Libraries/SgmlReader/Parser/Entity.cs:617-668 | ExpandCharEntity reads past the `#` and never past the text |
| SgmlStream.Convert | Libraries/SgmlReader/Parser/Entity.cs:667 | the code point is converted exactly when it is a Unicode scalar value, as `ConvertFromUtf32` encodes it |
| SgmlStream.Literal | Libraries/SgmlReader/Parser/Entity.cs:479-513 | ScanLiteral reads past the opening quote and never past the text |
| SgmlStream.LiteralPlain | Libraries/SgmlReader/Parser/Entity.cs:486-509 | a literal without `&` is the characters before the first quote, and the quote is read past |
| SgmlStream.Fall | Libraries/SgmlReader/Parser/Entity.cs:550-577 | the longest partial match that ends with the character that broke the match, found from the given position down; 0 when there is none |
| SgmlStream.ToEnd | Libraries/SgmlReader/Parser/Entity.cs:522-611 | the corrected ScanToEnd always succeeds and reads past `lastchar` |
| SgmlStream.RetreatAgrees | Libraries/SgmlReader/Parser/Entity.cs:550-577 | wherever the search as written moves on, it ends where the corrected search does |
| SgmlStream.UniformNeverStuck | Libraries/SgmlReader/Parser/Entity.cs:550-577 | for a terminator whose partial matches are borders of the longer ones, the search as written never gets stuck |
| SgmlStream.UniformAsWrittenAgrees | Libraries/SgmlReader/Parser/Entity.cs:522-611 | for such terminators ScanToEnd as written reads exactly what the corrected scan reads |
| SgmlStream.DtdTerminatorsUniform | Libraries/SgmlReader/Parser/SgmlDtd.cs:228 | `-->`, `]]>` and `--`, the terminators SgmlDtd scans for, are such terminators |
| SgmlStream.AsWrittenSticks | Libraries/SgmlReader/Parser/Entity.cs:550-577 | with terminator `abc` the text `abb` makes the search as written loop for ever, while the corrected scan returns the text |
| SgmlText.UpperAll | Libraries/SgmlReader/Parser/SgmlDtd.cs:506 | upper-casing maps each ASCII lower-case letter to its capital and keeps every other unit |
| SgmlText.UpperAllIdempotent | Libraries/SgmlReader/Parser/SgmlDtd.cs:506 | upper-casing twice changes nothing more |
| SgmlText.Trim | Libraries/SgmlReader/Parser/SgmlDtd.cs:318 | the result starts and ends with a non-white-space unit |
| SgmlText.TrimSlice | Libraries/SgmlReader/Parser/SgmlDtd.cs:318 | what Trim keeps is a slice of the text and all it removes is white space |
| SgmlText.TrimIdempotent | Libraries/SgmlReader/Parser/SgmlDtd.cs:318 | trimming twice changes nothing more |
| SgmlText.Wrap32 | Libraries/SgmlReader/Parser/Entity.cs:714-727 | the value of an unchecked C# `int` expression: in range, equal to the exact value when that fits, and congruent to it modulo 2^32 |
| SgmlText.Join | Libraries/SgmlReader/Parser/Entity.cs:652 | a surrogate pair stands for a scalar value of the supplementary planes |
| SgmlText.FromUtf32 | Libraries/SgmlReader/Parser/Entity.cs:667 | one unit for the basic plane, a surrogate pair above it, an error exactly for non-scalar values |
| SgmlText.JoinRoundTrip | Libraries/SgmlReader/Parser/Entity.cs:652-667 | joining a surrogate pair and encoding the code point again gives the pair back |
| SgmlEntity.LiteralTypeOf | Libraries/SgmlReader/Parser/Entity.cs:837-852 | a literal type is chosen exactly for CDATA, SDATA and PI spelt in capitals |
| SgmlEntity.TypedIsLiteral | Libraries/SgmlReader/Parser/Entity.cs:826-852 | every token SetLiteralType recognises passes IsLiteralType |
| SgmlEntity.LowerCaseLiteralTypeIgnored | Libraries/SgmlReader/Parser/Entity.cs:826-852 | `cdata` passes IsLiteralType, yet SetLiteralType leaves the type unchanged |
| SgmlEntity.Entity.External | Libraries/SgmlReader/Parser/Entity.cs:47-54 | an external entity keeps its name and identifiers, has no literal and reads HTML exactly when named `html` in any case |
| SgmlEntity.Entity.Internal | Libraries/SgmlReader/Parser/Entity.cs:61-66 | an internal entity holds its replacement text and no identifiers |
| SgmlEntity.Entity.Reader | Libraries/SgmlReader/Parser/Entity.cs:75-83 | an entity over an open reader reads that reader's text from its start |
| SgmlEntity.Entity.LinePos | Libraries/SgmlReader/Parser/Entity.cs:185-191 | the position is the absolute position less the line start |
| SgmlEntity.Entity.SetLiteralType | Libraries/SgmlReader/Parser/Entity.cs:837-852 | the type becomes what LiteralTypeOf chooses, and stays as it was for any other token |
| SgmlEntity.Entity.Open | Libraries/SgmlReader/Parser/Entity.cs:300-401 | links the parent and takes over its HTML mode; an internal entity reads its literal; an external one without a system identifier fails, and otherwise reads what was fetched or fails with that URI |
| SgmlEntity.Entity.ReadChar | Libraries/SgmlReader/Parser/Entity.cs:253-293 | the reader state moves as `Next` says and the character read is `lastchar` |
| SgmlEntity.Entity.SkipWhitespace | Libraries/SgmlReader/Parser/Entity.cs:424-432 | the reader state moves as `SkipWs` says |
| SgmlEntity.Entity.ScanToken | Libraries/SgmlReader/Parser/Entity.cs:441-471 | the token and reader state are those of `Token` |
| SgmlEntity.Entity.ReadNumericEntityCode | Libraries/SgmlReader/Parser/Entity.cs:670-742 | the value, text and reader state are those of `NumericCode` |
| SgmlEntity.Entity.ReadDigits | Libraries/SgmlReader/Parser/Entity.cs:680-727 | the digit loop's value, text and reader state are those of `DigitRun` |
| SgmlEntity.Entity.DigitOf | Libraries/SgmlReader/Parser/Entity.cs:680-725 | a character is taken exactly when it is a digit of the base, with its value |
| SgmlEntity.Entity.TakeDigit | Libraries/SgmlReader/Parser/Entity.cs:703-704 | adding a digit and reading on leaves the rest of the digit run unchanged and moves the reader forward |
| SgmlEntity.Entity.ExpandCharEntity | Libraries/SgmlReader/Parser/Entity.cs:617-668 | the expansion and reader state are those of `CharEntity` |
| SgmlEntity.Entity.ScanLiteral | Libraries/SgmlReader/Parser/Entity.cs:479-513 | the literal and reader state are those of `Literal` |
| SgmlEntity.Entity.ScanToEnd | Libraries/SgmlReader/Parser/Entity.cs:522-611 | the text and reader state are those of the corrected scan `ToEnd` |
| SgmlEntity.Entity.Context | Libraries/SgmlReader/Parser/Entity.cs:799-824 | one report line per entity of the parent chain, innermost first |
| SgmlEntity.Entity.ResolvedUri | Libraries/SgmlReader/Parser/Entity.cs:136-148 | the entity's own location, else its parent's |
| SgmlEntity.FallBack | Libraries/SgmlReader/Parser/Entity.cs:550-577 | the search method resumes with the partial match `Fall` gives |
| SgmlEntity.MatchesBack | Libraries/SgmlReader/Parser/Entity.cs:559-568 | the inner comparison answers whether the characters before the two positions agree |
| SgmlEntity.ContextReports | Libraries/SgmlReader/Parser/Entity.cs:799-824 | each line gives its entity's line, position and name, and whether it is internal |
| SgmlDecl.DeclComment | Libraries/SgmlReader/Parser/SgmlDtd.cs:265-272 | a full comment needs a second `-`; the comment is skipped past `--` and the white space after it |
| SgmlDecl.DeclComments | Libraries/SgmlReader/Parser/SgmlDtd.cs:255-263 | comments are skipped while the character is `-`, and the reader stops on one that is not |
| SgmlDecl.MarkupComment | Libraries/SgmlReader/Parser/SgmlDtd.cs:224-229 | after `<!-` a second `-` must follow and the comment is skipped past `-->` |
| SgmlDecl.IgnoreSection | Libraries/SgmlReader/Parser/SgmlDtd.cs:300-305 | after white space a `[` must come, and the section is skipped past `]]>` |
| SgmlDecl.DeclKindOf | Libraries/SgmlReader/Parser/SgmlDtd.cs:236-251 | a declaration kind is found exactly for ENTITY, ELEMENT and ATTLIST spelt so |
| SgmlDecl.KeywordsCaseSensitive | Libraries/SgmlReader/Parser/SgmlDtd.cs:236-291 | `entity` is no declaration keyword, while `ignore` names a marked section |
| SgmlDecl.ParamRef | Libraries/SgmlReader/Parser/SgmlDtd.cs:326-332 | the reference name runs to `;` or a terminator, and a `;` ending it is read past |
| SgmlDecl.PublicPart | Libraries/SgmlReader/Parser/SgmlDtd.cs:396-411 | after PUBLIC a quoted public identifier must follow; SYSTEM has none; any other keyword is an error |
| SgmlDecl.SystemPart | Libraries/SgmlReader/Parser/SgmlDtd.cs:412-421 | a quoted system identifier, or none at `>`; anything else is an error |
| SgmlDecl.ExternalBody | Libraries/SgmlReader/Parser/SgmlDtd.cs:394-423 | the public part, then the system part |
| SgmlDecl.TypedLiteral | Libraries/SgmlReader/Parser/SgmlDtd.cs:385-392 | after a literal type, the literal in whatever quote follows, with that type |
| SgmlDecl.EntityBody | Libraries/SgmlReader/Parser/SgmlDtd.cs:374-424 | a quoted literal, a typed literal or an external identifier, as the next token says |
| SgmlDecl.EntityHead | Libraries/SgmlReader/Parser/SgmlDtd.cs:365-373 | an optional `%` marks a parameter entity, then the name token |
| SgmlDecl.EntityTail | Libraries/SgmlReader/Parser/SgmlDtd.cs:374-431 | the body, optional comments, and a `>` that must come |
| SgmlDecl.EntityDeclaration | Libraries/SgmlReader/Parser/SgmlDtd.cs:363-431 | the head, then the rest |
| SgmlDecl.Item | Libraries/SgmlReader/Parser/SgmlDtd.cs:523-537 | a reference yields the names its expansion gives, and a name token yields itself upper-cased |
| SgmlDecl.GroupRun | Libraries/SgmlReader/Parser/SgmlDtd.cs:519-541 | items separated by `\|` or `,` up to `)`, which is read past |
| SgmlDecl.Group | Libraries/SgmlReader/Parser/SgmlDtd.cs:512-550 | a parenthesised group, or else a single name token; every name upper-cased |
| SgmlDecl.ListRun | Libraries/SgmlReader/Parser/SgmlDtd.cs:556-579 | items separated by `\|` up to EOF |
| SgmlDecl.List | Libraries/SgmlReader/Parser/SgmlDtd.cs:552-580 | white space first, then the items |
| SgmlDecl.ListRejectsComma | Libraries/SgmlReader/Parser/SgmlDtd.cs:569-578 | in a parameter entity's text a `,` is read as the start of a name, not as a separator |
| SgmlDecl.OmissionFlags | Libraries/SgmlReader/Parser/SgmlDtd.cs:442-455 | `O` in any case marks a tag optional and `-` required; the end flag is read only after a start flag; without flags both are required |
| SgmlDecl.Exclusions | Libraries/SgmlReader/Parser/SgmlDtd.cs:463-479 | `-(` starts a name group, `--` a comment, any other character after `-` is an error; without `-` there are none |
| SgmlDecl.Inclusions | Libraries/SgmlReader/Parser/SgmlDtd.cs:484-493 | `+` must be followed by a name group; without `+` there are none |
| SgmlDecl.ElementTail | Libraries/SgmlReader/Parser/SgmlDtd.cs:458-502 | exclusions, comments, inclusions, comments, and a `>` that must come |
| SgmlDecl.Register | Libraries/SgmlReader/Parser/SgmlDtd.cs:504-508 | each name is added upper-cased with the same declaration; the first name already present fails with DuplicateKey and the names before it stay |
| SgmlDecl.RegisterFails | Libraries/SgmlReader/Parser/SgmlDtd.cs:504-508 | registration fails exactly when a name is already declared or repeated in the group |
| SgmlDtd.GetParameterEntity | Libraries/SgmlReader/Parser/SgmlDtd.cs:337-345 | the parameter entity of exactly that name, else an undefined-reference error |
| SgmlDtd.NameOrReference | Libraries/SgmlReader/Parser/SgmlDtd.cs:307-324 | a reference stands for the trimmed text of an internal parameter entity, an external one is unsupported, otherwise a name token |
| SgmlDtd.MarkedSection | Libraries/SgmlReader/Parser/SgmlDtd.cs:274-305 | IGNORE in any case skips the section, INCLUDE is not implemented, any other name is an error |
| SgmlDtd.ElementHeader | Libraries/SgmlReader/Parser/SgmlDtd.cs:438-502 | the name group, omission flags, content model and tail, in that order |
| SgmlDtd.Declare | Libraries/SgmlReader/Parser/SgmlDtd.cs:499-508 | an error in the header leaves the element table alone; otherwise every name is registered |
| SgmlDtd.MarkupStart | Libraries/SgmlReader/Parser/SgmlDtd.cs:215-253 | a `!` must follow `<`; then `--` is a comment, `[` a marked section, otherwise a keyword spelt ENTITY, ELEMENT or ATTLIST |
| SgmlDtd.AttListHeader | Libraries/SgmlReader/Parser/SgmlDtd.cs:692-697 | the name group, then the attribute definitions |
| SgmlDtd.FirstUndeclared | Libraries/SgmlReader/Parser/SgmlDtd.cs:698-707 | the first name without an element declaration, if any |
| SgmlDtd.Dtd.constructor | Libraries/SgmlReader/Parser/SgmlDtd.cs:27 | a new DTD with its name, no entity being read and empty tables |
| SgmlDtd.Dtd.FindEntity | Libraries/SgmlReader/Parser/SgmlDtd.cs:132-137 | the general entity of exactly that name, or none |
| SgmlDtd.Dtd.FindElement | Libraries/SgmlReader/Parser/SgmlDtd.cs:144-149 | the declaration stored under the upper-cased name, or none |
| SgmlDtd.Dtd.FindElementIgnoresCase | Libraries/SgmlReader/Parser/SgmlDtd.cs:144-149 | element names are found whatever their case |
| SgmlDtd.Dtd.FindEntityExact | Libraries/SgmlReader/Parser/SgmlDtd.cs:132-137 | entity names are found only as spelt |
| SgmlDtd.Dtd.PushEntity | Libraries/SgmlReader/Parser/SgmlDtd.cs:152-157 | the entity is opened with the current one as parent, becomes current and has its first character read |
| SgmlDtd.Dtd.PopEntity | Libraries/SgmlReader/Parser/SgmlDtd.cs:159-170 | the parent of the current entity becomes current, or nothing is |
| SgmlDtd.Dtd.ParseEntity | Libraries/SgmlReader/Parser/SgmlDtd.cs:363-436 | the declared entity is added to the parameter or general table; a name already there is an error that leaves the table alone |
| SgmlDtd.Dtd.ParseNameList | Libraries/SgmlReader/Parser/SgmlDtd.cs:552-580 | the names read are those `List` gives over the entity's text |
| SgmlDtd.Dtd.ParseNameGroup | Libraries/SgmlReader/Parser/SgmlDtd.cs:511-550 | the names read are those `Group` gives, and the current entity is left as it was |
| SgmlDtd.Dtd.ExpandReference | Libraries/SgmlReader/Parser/SgmlDtd.cs:524-530 | the referenced entity is opened, read as a name list and closed, leaving the current entity as it was |
| SgmlDtd.Dtd.ParseElementDecl | Libraries/SgmlReader/Parser/SgmlDtd.cs:438-509 | the element table becomes what `Declare` gives for the header read |
| SgmlDtd.Dtd.ParseMarkup | Libraries/SgmlReader/Parser/SgmlDtd.cs:215-253 | after `<`, a failed start is the error; a comment or marked section is read as `MarkupComment` or `MarkedSection` says and changes no table; a declaration is read as `DeclDone` says, the tables become `Apply` of its effect, which is the declaration read there, and reading stops where that declaration ends |
| SgmlDtd.Dtd.ParseAttList | Libraries/SgmlReader/Parser/SgmlDtd.cs:692-708 | every name must have an element declaration; the first that has none is the error |
| SgmlDtd.Dtd.ParseDeclarations | Libraries/SgmlReader/Parser/SgmlDtd.cs:172-213 | reading ends without error exactly when every entity has been read to its end and closed; the tables are the old ones with the logged effects applied in order, every logged declaration is the one the declaration readers read where it was read, and it was read in one of the texts being read at the start or in the text of a declared parameter entity (its literal, or what fetching its system identifier delivers) |
| SgmlDtd.Dtd.ParseReference | Libraries/SgmlReader/Parser/SgmlDtd.cs:195-207 | the referenced entity is opened and becomes current, reading its literal or the text fetched for its system identifier, or reading goes on in the current one |
| SgmlDtd.ParseDtd | Libraries/SgmlReader/Parser/SgmlDtd.cs:70-93 | a new DTD; with neither a url nor a subset it fails with NoDtdInput; a url that cannot be fetched fails with FetchFailed and declares nothing; success leaves no entity open; the general and parameter entities are exactly those the logged entity declarations name, every element is named by a logged element declaration, and each logged declaration is the one read where it was read, in the document fetched for `url`, in the subset or in the text of a declared parameter entity |
| SgmlDtd.ParseDtdText | Libraries/SgmlReader/Parser/SgmlDtd.cs:106-125 | a new DTD over the reader's text and the subset above it; success leaves no entity open; the entities and elements are those of the logged declarations, as for ParseDtd, each read in the reader's text, in the subset or in the text of a declared parameter entity |
| SgmlDtd.OpenText | Libraries/SgmlReader/Parser/SgmlDtd.cs:108-113 | the reader's entity and, when not empty, the subset are opened without error, one or two entities deep, reading only the reader's text and the subset |
| SgmlDtd.Dtd.ParseStep | Libraries/SgmlReader/Parser/SgmlDtd.cs:177-211 | on EOF the entity is closed; on space, CR, LF or TAB one character is read and the tables stay; on `%` the reference is read as `ParamRef` says and the entity opened, or the undefined name is the error; an entity pushed is a declared parameter entity reading its own text; on `<` the markup is read as `MarkupDone` says; any other character is the error; only markup changes the tables, by `Apply` of a justified effect |
| SgmlDtd.Dtd.MarkupStep | Libraries/SgmlReader/Parser/SgmlDtd.cs:191-194 | ParseMarkup's outcome, then on success the character after the markup is read; the tables change by the effect read |
| SgmlDtd.Dtd.ParseDeclaration | Libraries/SgmlReader/Parser/SgmlDtd.cs:236-251 | an ENTITY declaration read without error adds its entity, an ELEMENT declaration whose header is read registers its names, ATTLIST changes no table; the effect is the declaration read at the keyword's end, and reading stops where it ends |
| SgmlDtd.Dtd.DeclareEntity | Libraries/SgmlReader/Parser/SgmlDtd.cs:363-436 | the entity read is the effect, added unless its name is taken, and is the declaration `EntityDeclaration` reads there |
| SgmlDtd.Dtd.DeclareElement | Libraries/SgmlReader/Parser/SgmlDtd.cs:438-509 | a header read is the effect and the element table is `Declare` of it; a header not read changes nothing |
| SgmlDtd.DeclaredByLog | Libraries/SgmlReader/Parser/SgmlDtd.cs:172-213 | from empty tables a general or parameter entity is declared exactly when a logged entity declaration names it, and an element only when a logged element declaration names it |
| SgmlDtd.ApplyAllEntities | Libraries/SgmlReader/Parser/SgmlDtd.cs:380-383 | an entity name is in the table after a run exactly when it was before or a declaration of the run names it; no entry is replaced |
| SgmlDtd.ApplyAllElements | Libraries/SgmlReader/Parser/SgmlDtd.cs:499-508 | an element name in the table after a run was there before or is a name of an element declaration of the run; no entry is replaced |
| SgmlDtd.ApplyAllSnoc | Libraries/SgmlReader/Parser/SgmlDtd.cs:175-211 | applying a run and then one more effect is applying the longer run |
| SgmlAttribute.Attribute.constructor | Libraries/SgmlReader/Parser/Attribute.cs:9-12 | a new attribute has no name, value, quote or definition, and is a default with no value |
| SgmlAttribute.Attribute.Reset | Libraries/SgmlReader/Parser/Attribute.cs:18-24 | name, value and quote are set and the definition dropped; the value is the one given |
| SgmlAttribute.Attribute.SetDtdType | Libraries/SgmlReader/Parser/Attribute.cs:26-35 | attaching a definition keeps a written value and otherwise exposes the definition's default |
| SgmlAttribute.Attribute.Value | Libraries/SgmlReader/Parser/Attribute.cs:26-35 | the written value, else the definition's default, else null |
| SgmlAttribute.Attribute.IsDefault | Libraries/SgmlReader/Parser/Attribute.cs:42-48 | true exactly when no value was written |
| SgmlAttribute.ResetThenValidate | Libraries/SgmlReader/Parser/Attribute.cs:18-35 | after Reset with a value, that value is what Value gives, whatever definition is attached later |
| AspState.State.constructor | WebFormParser/Utility/Asp/State.cs:20-29 | no tag, code, comment or script mode, zero braces and function number 1 |
| AspState.State.Reset | WebFormParser/Utility/Asp/State.cs:31-38 | counters to zero, code mode off and the next render function |
| AspState.State.HandleCodeState | WebFormParser/Utility/Asp/State.cs:40-49 | the state becomes what `Handled` gives: a value holding `%>` with balanced braces closes the block |
| AspState.FuncCountMonotone | WebFormParser/Utility/Asp/State.cs:40-49 | the render-function number never goes down and rises by at most one per value |
| AspEntry.GetTagType | WebFormParser/Utility/Asp/Entry.cs:84-96 | inside code the six markup types become their code counterparts; every other type stays |
| AspEntry.GetTagTypeIdempotent | WebFormParser/Utility/Asp/Entry.cs:84-96 | applying it twice with the same flag changes nothing more |
| AspEntry.GetGroupName | WebFormParser/Utility/Asp/Entry.cs:99-120 | the fixed group name of each tag type |
| AspEntry.GroupNameInjective | WebFormParser/Utility/Asp/Entry.cs:99-120 | distinct tag types have distinct group names |
| AspEntry.GetFileType | WebFormParser/Utility/Asp/Entry.cs:78-81 | "Code" for code-behind and "Html" otherwise |
| AspEntry.NameTestsIgnoreCase | WebFormParser/Utility/Asp/Entry.cs:56-75 | both name tests ignore case, and no value is both void and in need of children |
| AspEntry.Entry.constructor | WebFormParser/Utility/Asp/Entry.cs:44-53 | empty texts, Html content, no attributes and no children |
| AspLines.ClassifyLineFacts | WebFormParser/Utility/Asp/Parser.cs:90-117 | blank lines add nothing; a kept line has a value and is a comment exactly when the flag was set or the raw line opens one; the flag clears at a line that ends a comment |
| AspLines.ClassifyLinesCount | WebFormParser/Utility/Asp/Parser.cs:313-314 | at most one entry per line, and none exactly when every line is blank |
| AspLines.ProcessLine | WebFormParser/Utility/Asp/Parser.cs:90-117 | appends one fresh entry for a non-blank line and none for a blank one |
| AspLines.ProcessLines | WebFormParser/Utility/Asp/Parser.cs:313-314 | one fresh entry per non-blank line, in order, as the line classification gives |
| AspLines.NonAsciiBlankLine | WebFormParser/Utility/Asp/Parser.cs:94-95 | a line of no-break space, tab and ideographic space is blank, as `Trim` makes it |
| AspLines.HoldsSnapshot | WebFormParser/Utility/Asp/Parser.cs:313-320 | entries that hold exactly a store are that store |
| AspLines.SnapshotMade | WebFormParser/Utility/Asp/Parser.cs:313-314 | right after the first loop the entries hold exactly the fields of their lines |
| AspLines.LineStore | WebFormParser/Utility/Asp/Parser.cs:313-314 | each entry gets the fields of its line, and no other entry has any |
| AspLines.CodeAndScript | WebFormParser/Utility/Asp/Parser.cs:318-320 | the code and script passes keep the set of entries |
| AspLines.ClassifyEntries | WebFormParser/Utility/Asp/Parser.cs:318-320 | the entries hold what the code pass and then the script pass give |
| AspLines.LinePasses | WebFormParser/Utility/Asp/Parser.cs:310-320 | the fields of exactly the kept lines' entries |
| AspLines.LinePassesFacts | WebFormParser/Utility/Asp/Parser.cs:313-320 | after the line passes an entry keeps its line's value and text and changes only its file and tag type; a comment stays a comment |
| AspLines.Pass2KeepsComments | WebFormParser/Utility/Asp/Parser.cs:124-162 | the code pass leaves comment entries alone |
| AspLines.Pass3KeepsComments | WebFormParser/Utility/Asp/Parser.cs:169-190 | the script pass leaves comment entries alone |
| AspLines.HandleCodeState | WebFormParser/Utility/Asp/Parser.cs:971-977 | the braces of the inner text are added to the counters, then the text is handled |
| AspLines.Step2Facts | WebFormParser/Utility/Asp/Parser.cs:128-159 | only file and tag type change; outside code nothing does; a page directive becomes Page and ends code mode; other code becomes code-behind, CodeOpen at `<%` and CodeContent otherwise |
| AspLines.Pass2Retypes | WebFormParser/Utility/Asp/Parser.cs:124-162 | over a list the pass only retypes listed entries and never lowers the function count |
| AspLines.ProcessLine2 | WebFormParser/Utility/Asp/Parser.cs:124-162 | returns the same entries, with their fields and the state as the pass gives |
| AspLines.Step3Facts | WebFormParser/Utility/Asp/Parser.cs:171-189 | only the tag type changes; in script mode a non-comment entry becomes Open at `<script` and Script otherwise; `</script>` ends script mode |
| AspLines.Pass3Retypes | WebFormParser/Utility/Asp/Parser.cs:169-190 | over a list the pass only changes tag types of listed entries and only the script flag |
| AspLines.ProcessLine3 | WebFormParser/Utility/Asp/Parser.cs:169-190 | the entries' fields and the state are as the pass gives |
| AspNodes.NodeFieldsFacts | WebFormParser/Utility/Asp/Parser.cs:432-453 | a replacement keeps the text, is markup without children, and is Open, Close or Comment exactly for those groups |
| AspNodes.ClassifyNode | WebFormParser/Utility/Asp/Parser.cs:432-453 | when the pattern matches, the entry is replaced by a new one of the matched group; otherwise it stays |
| AspNodes.ProcessLine4 | WebFormParser/Utility/Asp/Parser.cs:192-205 | every markup content entry the pattern matches is replaced in place; the others stay |
| AspNodes.PiecesFacts | WebFormParser/Utility/Asp/Parser.cs:415-429 | every statement is non-blank before its `;`, and there is at most one per piece |
| AspNodes.SplitLineFacts | WebFormParser/Utility/Asp/Parser.cs:383-430 | a split entry is added once per statement and holds the last one; only value and inner text change, or the types in the other branches |
| AspNodes.SplitCodeLine | WebFormParser/Utility/Asp/Parser.cs:383-430 | adds the entry as the split says and writes its fields so |
| AspNodes.SplitAllFrom | WebFormParser/Utility/Asp/Parser.cs:214-227 | the split outputs only entries of its input and leaves every other entry alone |
| AspNodes.SplitCodeBlocks | WebFormParser/Utility/Asp/Parser.cs:214-227 | a new list in which every code entry is split into its statements |
| AspNodes.IsChildHasChildren | WebFormParser/Utility/Asp/Parser.cs:232-264 | only a type that may have children takes a child |
| AspNodes.MergePartition | WebFormParser/Utility/Asp/Parser.cs:273-291 | every entry ends up exactly once, either at the top level or as a child |
| AspNodes.MergeAppends | WebFormParser/Utility/Asp/Parser.cs:273-291 | the merge changes only children, and only appends to them |
| AspNodes.MergeNodes | WebFormParser/Utility/Asp/Parser.cs:273-291 | fails on an empty list, as indexing its first entry does; otherwise the merge |
| AspNodes.LabelFacts | WebFormParser/Utility/Asp/Parser.cs:719-741 | only function names change, only on code-behind entries, and the final number is one more than the code-to-markup boundaries |
| AspNodes.LabelCodeFunctions | WebFormParser/Utility/Asp/Parser.cs:719-741 | the list and every entry's fields are as the labelling gives |
| AspNodes.AbsorbNone | WebFormParser/Utility/Asp/Parser.cs:752-766 | without an entry that absorbs, every remaining entry is kept unchanged |
| AspNodes.AbsorbLast | WebFormParser/Utility/Asp/Parser.cs:762 | an absorbing last entry has nothing to take, so the loop fails |
| AspNodes.FinishFacts | WebFormParser/Utility/Asp/Parser.cs:768-778 | the final step fails exactly on a lone content entry, and otherwise drops at most a trailing content entry |
| AspNodes.ConsolidateNodes | WebFormParser/Utility/Asp/Parser.cs:747-779 | the list and fields are as the consolidation gives, with its failure where indexing fails |
| AspNodes.ParseLines | WebFormParser/Utility/Asp/Parser.cs:301-329 | a page without a line break gives no entries; otherwise new entries are made for the kept lines with the fields the three line passes give (`LinePasses`), the fourth pass replaces exactly the matched markup entries (`Reclassified`), and the result and the final fields are what splitting and merging make of those (`MergeSplit`); an all-blank page fails |
| AspNodes.ParseDocument | WebFormParser/Utility/Asp/Parser.cs:15-46 | as ParseLines, then the merged entries are labelled and consolidated: failure and result are those of `Finished`, and the entries hold its final fields |
| AspNodes.MakeEntries | WebFormParser/Utility/Asp/Parser.cs:303-317 | new entries, one per kept line, with the fields the line classification gives, and a new state with its initial flags |
| AspNodes.RunLinePasses | WebFormParser/Utility/Asp/Parser.cs:310-320 | the entries for the kept lines hold exactly the fields `LinePasses` gives |
| AspNodes.ReclassifyNodes | WebFormParser/Utility/Asp/Parser.cs:322 | the entries after the fourth pass are as `Reclassified` says |
| AspNodes.SplitAndMerge | WebFormParser/Utility/Asp/Parser.cs:324-326 | failure and result are those of `MergeSplit`, and the split entries hold its fields |
| AspNodes.RunNodePasses | WebFormParser/Utility/Asp/Parser.cs:322-326 | the fourth pass is as `Reclassified` says and the result is `MergeSplit` of it; no entries fail |
| AspNodes.LabelAndConsolidate | WebFormParser/Utility/Asp/Parser.cs:38-41 | failure and result are those of `Finished`, and the entries hold its final fields |
| AspNodes.Restrict | WebFormParser/Utility/Asp/Parser.cs:324-326 | the fields of exactly the listed entries |
| AspNodes.MergeSplit | WebFormParser/Utility/Asp/Parser.cs:324-326 | fails exactly when the split leaves no entry; otherwise some entries, each with fields |
| AspNodes.MergeSplitPartition | WebFormParser/Utility/Asp/Parser.cs:324-326 | every entry the split gives ends up exactly once, at the top level or as a child |
| AspNodes.FinishedLabels | WebFormParser/Utility/Asp/Parser.cs:38 | labelling a parsed page counts one render function more than its code-to-markup boundaries and names only code-behind entries |
| AspCodeGen.RenderBlockFacts | WebFormParser/Utility/Asp/CodeGen.cs:87-94 | flushing empties the block, adds at most one non-empty line, keeps earlier lines and loses no text |
| AspCodeGen.HandleCodeBlockFacts | WebFormParser/Utility/Asp/CodeGen.cs:96-113 | a call is written exactly when the entry names a function other than the current one, which then becomes current |
| AspCodeGen.TouchedFacts | WebFormParser/Utility/Asp/CodeGen.cs:67-71 | a visit changes only the tag type and the open flag, and a second visit changes nothing more |
| AspCodeGen.GenStepLines | WebFormParser/Utility/Asp/CodeGen.cs:39-83 | one entry only appends non-empty lines and leaves the block empty unless the entry is open |
| AspCodeGen.GenStepText | WebFormParser/Utility/Asp/CodeGen.cs:42-75 | output and block grow by exactly the entry's markup or call, its quotes and at most one space |
| AspCodeGen.GenAllLines | WebFormParser/Utility/Asp/CodeGen.cs:31-85 | over a whole page no output line is empty |
| AspCodeGen.GenAllStore | WebFormParser/Utility/Asp/CodeGen.cs:31-85 | every listed entry is visited once in effect, and no other entry changes |
| AspCodeGen.GenAllKeeps | WebFormParser/Utility/Asp/CodeGen.cs:67-71 | visiting keeps every field except the tag type and the open flag |
| AspCodeGen.GenHtmlFile | WebFormParser/Utility/Asp/CodeGen.cs:31-85 | the output lines and the retagged entries are those of the page generator |
| AspCodeGen.Generate | WebFormParser/Utility/Asp/CodeGen.cs:13-29 | the mode defaults to code-behind, as in the code; code-behind generation gives no lines and leaves the entries; markup generation runs the page generator |
| LegacyParser.FormatValueFacts | WebFormParser/Utility/Legacy/Parser.cs:226-246 | only code and comment matches change; a one-line match is only trimmed, so formatting again changes nothing |
| LegacyParser.HandleShape | WebFormParser/Utility/Legacy/Parser.cs:111-183 | only the group name, file type, tag type, open flag and function name change; the group name names the tag type; the function number never goes down |
| LegacyParser.HandleAttr | WebFormParser/Utility/Legacy/Parser.cs:119-127 | an attribute is Content outside an open tag; in code it is CodeAttr exactly when it holds a code delimiter, else CodeValue, named after the current function |
| LegacyParser.HandleCode | WebFormParser/Utility/Legacy/Parser.cs:128-154 | a page directive becomes Html Page and ends code mode; other code is code-behind under a render function, a new one when it opens after markup |
| LegacyParser.HandleTags | WebFormParser/Utility/Legacy/Parser.cs:155-170 | in code an open tag becomes CodeOpen, starting a function after markup, and a close tag CodeClose; outside code both stay markup |
| LegacyParser.EnterFacts | WebFormParser/Utility/Legacy/Parser.cs:86-101 | the previous code flag is recorded; an open tag is open until a `>`; a close tag closes; code turns code mode on |
| LegacyParser.CategorizeFacts | WebFormParser/Utility/Legacy/Parser.cs:78-109 | every handled entry's group name names its tag type, no unlisted entry changes, and the function number never goes down |
| LegacyParser.HandleEntry | WebFormParser/Utility/Legacy/Parser.cs:111-183 | the entry's fields and the state are those the handling gives |
| LegacyParser.CategorizeEntries | WebFormParser/Utility/Legacy/Parser.cs:78-109 | every entry is classified in place and listed again in order |
| LegacyParser.LegacyStepKept | WebFormParser/Utility/Legacy/Parser.cs:46-73 | an iteration keeps the node whenever it is not an attribute run |
| LegacyParser.LegacyStepStore | WebFormParser/Utility/Legacy/Parser.cs:46-73 | an iteration only grows entries and touches none but the node and the previous one |
| LegacyParser.LegacyMergeKept | WebFormParser/Utility/Legacy/Parser.cs:44-76 | no more entries are kept than listed, the first is always kept, and every kept one is listed |
| LegacyParser.LegacyMergeStore | WebFormParser/Utility/Legacy/Parser.cs:44-76 | every entry only grows and unlisted entries do not change |
| LegacyParser.LegacyMergeKeeps | WebFormParser/Utility/Legacy/Parser.cs:44-76 | a listed entry that is not an attribute run is kept |
| LegacyParser.MergeNodes | WebFormParser/Utility/Legacy/Parser.cs:44-76 | attribute runs are folded into the entry before them and removed, as the merge gives |
| ExtractCode.BlockNameInjective | WebFormParser/Utility/ExtractCode.cs:33-46 | different block numbers give different names |
| ExtractCode.BlockMapFacts | WebFormParser/Utility/ExtractCode.cs:33-49 | the table holds exactly the names 1 to the number of blocks, each with its block |
| ExtractCode.BlockMapFresh | WebFormParser/Utility/ExtractCode.cs:33-46 | the next block's name is not yet in the table, so adding it never fails |
| ExtractCode.ParseLineFacts | WebFormParser/Utility/ExtractCode.cs:53-77 | `<%--` opens a comment and `--%>` closes it; directives, empty, comment and closing lines are copied and skipped; nothing else is copied |
| ExtractCode.ProcessLineFacts | WebFormParser/Utility/ExtractCode.cs:79-107 | a line with `<%` is copied and starts code; in code non-empty content joins the block; a line with `%>` is copied and ends it |
| ExtractCode.StepFacts | WebFormParser/Utility/ExtractCode.cs:27-48 | each iteration only adds; a block is kept only with at least two lines, and its call is written right before the closing line |
| ExtractCode.ExtractAllSound | WebFormParser/Utility/ExtractCode.cs:27-48 | over the whole page the loop stays sound and the page only grows |
| ExtractCode.OneLineTwice | WebFormParser/Utility/ExtractCode.cs:27-107 | a line `<% x %>` outside code is written to the page twice and makes no block |
| ExtractCode.ExtractedFails | WebFormParser/Utility/ExtractCode.cs:49 | the table fails only when the file is named like one of the blocks |
| ExtractCode.ExtractedTable | WebFormParser/Utility/ExtractCode.cs:13-51 | the blocks are `Render_Logic_01` onwards, each of at least two lines, and the page sits under the file's name |
| ExtractCode.BlockMapSize | WebFormParser/Utility/ExtractCode.cs:33-49 | the table holds one entry per block |
| ExtractCode.ParseCode | WebFormParser/Utility/ExtractCode.cs:13-51 | the table is the one the extraction gives over the page's lines |
| LegacyExtract.ParseLineFacts | WebFormParser/Utility/Legacy/ExtractCode.cs:123-146 | a blank line is never skipped; `<%--` opens and `--%>` closes a comment; directive, closing and comment lines are skipped |
| LegacyExtract.ProcessLineFacts | WebFormParser/Utility/Legacy/ExtractCode.cs:148-186 | blank lines change nothing; a line with both marks is copied; outside code lines are copied; in code non-empty content joins the block and `%>` ends it |
| LegacyExtract.ValidateFacts | WebFormParser/Utility/Legacy/ExtractCode.cs:58-121 | a block is accepted exactly when it passes every check; a balanced block ending in a brace is carried over; any other is written back between `<%` and `%>` |
| LegacyExtract.ValidateCode | WebFormParser/Utility/Legacy/ExtractCode.cs:58-121 | acceptance, page and block are those the checks give |
| LegacyExtract.FinishFacts | WebFormParser/Utility/Legacy/ExtractCode.cs:30-52 | an iteration only adds; a block is kept only when it passes every check, and the page then ends with its call |
| LegacyExtract.ExtractAllAccepted | WebFormParser/Utility/Legacy/ExtractCode.cs:28-53 | every block kept passed ValidateCode |
| LegacyExtract.CarryOver | WebFormParser/Utility/Legacy/ExtractCode.cs:58-121 | a balanced block ending in a brace survives its closing line and is continued by the next block, with nothing written |
| LegacyExtract.ExtractedTable | WebFormParser/Utility/Legacy/ExtractCode.cs:16-56 | the blocks are `Render_Logic_01` onwards, each one that passed every check, and the page sits under the file's name |
| LegacyExtract.ParseCode | WebFormParser/Utility/Legacy/ExtractCode.cs:16-56 | the table is the one the extraction gives over the page's lines |
| Util.IsExcluded | WebFormParser/Utility/Util.cs:71-76 | the name with every `root\` removed is listed, and an empty name never counts |
| Util.IsExcludedRelative | WebFormParser/Utility/Util.cs:71-76 | a path under the root is excluded exactly when its relative name is listed |
| Util.PageContains | WebFormParser/Utility/Util.cs:289-300 | true exactly when some line contains the text |
| Util.FirstWithSymbol | WebFormParser/Utility/Util.cs:304-314 | the first line holding a symbol, with none before it, or the number of lines |
| Util.CleanBlock | WebFormParser/Utility/Util.cs:302-317 | copies the lines before the first one holding a symbol, and answers whether no line holds one |
| Util.CharTotalRaw | WebFormParser/Utility/Util.cs:319-333 | trimming drops no non-white symbol, so the count equals the count over the raw lines |
| Util.CountChar | WebFormParser/Utility/Util.cs:319-333 | the occurrences of the symbol over every trimmed line |
| Util.CheckIf | WebFormParser/Utility/Util.cs:335-372 | false exactly when some line starts with "else" and none with "if" |
| Util.WithoutFacts | WebFormParser/Utility/Util.cs:378-388 | one element shorter, the others in order, and undoing an insertion at that place |
| Util.RemoveAt | WebFormParser/Utility/Util.cs:378-388 | a new array, one shorter, holding the source without the element at the index |
| Util.MatchIgnoreCaseFacts | WebFormParser/Utility/Util.cs:392 | the position is the first case-insensitive occurrence, and -1 means there is none |
| Util.SplicedFacts | WebFormParser/Utility/Util.cs:390-399 | without a match the text is unchanged; with one, the text around it is kept and the replacement sits where it was |
| Util.SplicedSelf | WebFormParser/Utility/Util.cs:390-399 | splicing back the text that was matched gives the text back |
| Util.ReplaceFirst | WebFormParser/Utility/Util.cs:390-399 | the spliced text; a miss is logged against the page's file name |
| Util.FirstMarked | WebFormParser/Utility/Util.cs:527-540 | the first line whose lower-cased text contains the marker, or the number of lines |
| Util.InsertBeforeFacts | WebFormParser/Utility/Util.cs:522-549 | exactly one more line, the new one right before the first marked line; removing it gives the lines back |
| Util.IndexOfNull | WebFormParser/Utility/Util.cs:529 | the first empty slot, or -1 |
| Util.AddToElement | WebFormParser/Utility/Util.cs:522-549 | inserts the markup before the first marked line and marks the page changed; with none the page stays and the miss is logged |
| CleanJs.ScanFromStops | WebFormParser/Utility/csp/CleanJs.cs:546-601 | the scan stops exactly at depth 0 or the end of the text, never past it and never below depth 0 |
| CleanJs.ExtentBounds | WebFormParser/Utility/csp/CleanJs.cs:546-601 | the function's text ends where the braces first balance, or at the end of the script |
| CleanJs.BracesCounted | WebFormParser/Utility/csp/CleanJs.cs:583-593 | the depth moves only on a brace outside strings and comments: up on `{`, down on `}` |
| CleanJs.EscapeFacts | WebFormParser/Utility/csp/CleanJs.cs:549-557 | outside comments an escaped character is not looked at, a backslash escapes the next one, and no escape lasts past it |
| CleanJs.DelimiterFacts | WebFormParser/Utility/csp/CleanJs.cs:575-579 | a quote, apostrophe or backtick toggles the string delimiter, inside comments too; nothing else changes it |
| CleanJs.CommentFacts | WebFormParser/Utility/csp/CleanJs.cs:558-574 | `//` opens a line comment and `/*` a block comment, even inside a string; a newline closes a line comment and `*/` a block comment |
| CleanJs.StepDepth | WebFormParser/Utility/csp/CleanJs.cs:583-593 | a step moves the depth by at most one |
| CleanJs.PlainScan | WebFormParser/Utility/csp/CleanJs.cs:546-601 | on text without escapes, slashes or quotes the scan stops at the shortest prefix whose braces balance |
| CleanJs.PlainExtent | WebFormParser/Utility/csp/CleanJs.cs:546-601 | for such text the extent is where the braces first balance |
| CleanJs.QuoteInComment | WebFormParser/Utility/csp/CleanJs.cs:575-579 | an apostrophe in a line comment opens a string that outlives it, so the closing brace is missed |
| CleanJs.StarShared | WebFormParser/Utility/csp/CleanJs.cs:558-574 | the star that opens a block comment also closes it: slash, star, slash is a whole comment |
| CleanJs.Function | WebFormParser/Utility/csp/CleanJs.cs:534-604 | the header followed by the body up to where its braces balance |
| CleanJs.GetFunction | WebFormParser/Utility/csp/CleanJs.cs:525-605 | the header and balanced body; a failed search with a non-blank name is logged |
| CleanJs.ScanFunction | WebFormParser/Utility/csp/CleanJs.cs:534-604 | the loop builds exactly `Function`'s text |

## Left out

- Regular-expression matching in general is not modelled. The AspParser rules
  other than the end tag, XML comment and data-binding patterns are a `Matcher`
  parameter. The tag pattern of `Parser.ClassifyNode` is a `firstGroup`
  function. The header search of `CleanJs.GetFunction` is a `start` parameter.
  `Util.GetRegexGroupMatches` and the legacy parser's regex-driven group
  matching are left out for the same reason.
- File, HTTP and console input and output are not modelled. This covers
  `Util.GetFiles`, `WriteFile`, `MakeFolders`, `GetPageList`, the embedded
  resources and the print helpers.
- `Entity.Open`'s external branch needs a download, so it takes the fetched
  text as a parameter (`fetched`, or `fetch` in SgmlDtd). Encoding sniffing,
  proxies and `Close`/`Dispose` are left out.
- SgmlEntity.Entity.Open: records the entity's own identifier as `resolvedUri`.
  The code stores `new Uri(baseUri, m_uri)`; URI resolution against a base is
  not modelled, and the `fetch` parameter receives the base and the identifier
  instead.
- The `Console.WriteLine` in the `%` branch of `SgmlDtd.Parse` is dropped. The
  failure it logs is passed over, as the code does.
- The AngleSharp and Roslyn work is left out: `ParseHtml`, `ProcessAttr`,
  `ProcessCodeBlock`, `ProcessCode`, `AddUsing`, `GetMethodDeclarationSyntax`.
  These are calls into libraries outside the model.
- `ParseContentModel`, `ParseModel`, `ParseAttDef`, `ParseAttType` and
  `ParseAttDefault` build classes that are not part of this model. They are an
  abstract reader that returns where it stopped. Attaching the attribute
  definitions to element declarations (`ElementDecl.AddAttDefs`) is left out too.
- `ParseIncludeSection` only throws, and is modelled as that error.
- `Util.RandomString`, the GUIDs and `Debugger.Break` are left out. They are
  randomness and debugging only.
- Culture-sensitive `ToLower`/`ToUpperInvariant` are modelled for ASCII letters only.
- `StartsWith`, `EndsWith` and `IndexOf(string)` without a `StringComparison`
  are culture-sensitive in the code and ordinal here. The two differ on
  characters the culture ignores, such as a soft hyphen, and on a match that
  would split a "\r\n" pair. Every such call is ordinal in the model. These
  include the prefix and suffix tests of the line passes (`OpensComment`,
  `ClosesComment`), the tag tests of the node passes, `SplitLine`, `CheckIf`,
  `MatchIgnoreCase` and `ReplaceFirst`. `Contains` and `Replace(string, string)`
  are ordinal in .NET too, so they agree.
- The regex class `\w` of the end-tag and name patterns is modelled for ASCII
  letters, digits and `_`; Unicode letters outside ASCII are not word characters
  here. White space (`Trim`, `\s`, `char.IsWhiteSpace`) is the full .NET set.
- AspNodes.ParseDocument: the optional `page` argument is left out. It only
  decides a `Debugger.Break`, and `ParseLines` ignores it.
- SgmlDtd.ParseDtd: each logged declaration carries the text and the position
  it was read at. The text is proved to be the fetched document, the subset or
  the text of a declared parameter entity. The position is proved to be one
  where that declaration reads as logged. That the positions are the successive
  positions of the parse, and which base location an external parameter
  entity was fetched against, are not stated.
- SgmlDtd.ParseDtdText: the same holds with the reader's text in place of the
  fetched document. The positions are not stated to be the successive positions
  of the parse.
- SgmlDtd.Dtd.ParseDeclarations: runs on a fuel bound and reports OutOfFuel
  when the bound is used up. The source loops until the last entity ends. The
  logged texts are tied to the entities opened, but the logged positions are not
  stated to follow one another through the parse.
- SgmlDtd.Dtd.PushEntity: refuses an entity that is already being read.
  `SgmlDtd` would reopen it from its start and read it recursively.
- AspDocument.Document.constructor: the tree is an arena of positions, not
  object references. Object identity and aliasing of `Tag` objects are not
  modelled.
- `Environment.NewLine` is fixed as "\r\n", because the tool works on Windows paths.
- `Parser.UpdateNodeClassification`, `CategorizeNodes` and `BypassComments` are
  commented out or never called, so they are not modelled.
- The remaining helpers of `Util.cs` are not modelled: `GetExcludedFiles`,
  `RemoveFromSource`, `AddHiddenElementToBody` and `addToHead`. They are file
  access or thin wrappers around `addToElement`.
- SgmlStream.Literal: its own contract only bounds the reading position. What
  it reads is stated for literals without `&` (`LiteralPlain`) and, for
  character references, by `NumericCodeReads`, `NumericCodeValue` and
  `CharEntityValue`; a surrogate pair split over two references has no lemma
  of its own.

## Findings

| source | as written | input that shows it | evidently intended | confidence | as-written member | corrected member |
|---|---|---|---|---|---|---|
| Libraries/SgmlReader/Parser/Entity.cs:550-577 | when a character breaks a partial match and equals `terminators[i]` but the characters before `i` do not match, the inner `while (i >= 0 && newstate == 0)` never lowers `i`, so ScanToEnd loops for ever | terminator `abc`, text `abb`: after `ab` the second `b` equals `terminators[1]`, but `a` does not match the `b` before it | fall back to the next shorter partial match, as in Knuth-Morris-Pratt matching, and keep scanning; `-->`, `]]>` and `--`, the terminators SgmlDtd itself passes, cannot reach the loop (`SgmlStream.DtdTerminatorsUniform`), so the loop is only reachable by other callers | not executed | SgmlStream.AsWrittenSticks | SgmlStream.ToEnd |
