/**
 * The HTML-to-Markdown conversion engine: a dispatcher over the body's child
 * elements and one renderer per block kind. Renderers that the Java code
 * builds with a StringBuilder are methods, each proved equal to a
 * specification function; the single-expression renderers are functions.
 * The properties of the output formats are lemmas about those functions.
 */
module HtmlToMarkdown {
  import opened Strings
  import opened Dom

  // ---------------------------------------------------------------------------
  // Dispatch
  // ---------------------------------------------------------------------------

  /** The closed set of block kinds the dispatcher tells apart. */
  datatype BlockKind = Header | Paragraph | List | Blockquote | Preformatted | Image | Table | Fallback

  const HeaderTags: set<string> := {"h1", "h2", "h3", "h4", "h5", "h6"}
  const RecognizedTags: set<string> := HeaderTags + {"p", "ul", "ol", "blockquote", "pre", "img", "table"}

  /**
   * The switch on the tag name. It compares the name exactly as the parser
   * gives it, so a name in another letter case falls back to passthrough.
   */
  function KindOf(tag: string): (k: BlockKind)
    ensures k == Fallback <==> tag !in RecognizedTags
    ensures k == Header <==> tag in HeaderTags
  {
    if tag in HeaderTags then Header
    else if tag == "p" then Paragraph
    else if tag == "ul" || tag == "ol" then List
    else if tag == "blockquote" then Blockquote
    else if tag == "pre" then Preformatted
    else if tag == "img" then Image
    else if tag == "table" then Table
    else Fallback
  }

  /** The fragment the dispatcher produces for one child element. */
  function Fragment(e: Element): string
  {
    match KindOf(e.tag)
    case Header => ConvertHeaderToMarkdown(e)
    case Paragraph => ConvertParagraphToMarkdown(e)
    case List => ListMarkdown(e)
    case Blockquote => BlockquoteMarkdown(e)
    case Preformatted => ConvertPreformattedToMarkdown(e)
    case Image => ConvertImageToMarkdown(e)
    case Table => TableMarkdown(e)
    case Fallback => ConvertElementToMarkdown(e)
  }

  /** Each element rendered by `render` and followed by one blank line, in order. */
  function Blocks(elements: seq<Element>, render: Element -> string): string
  {
    if elements == [] then ""
    else Blocks(elements[..|elements| - 1], render) + render(elements[|elements| - 1]) + "\n\n"
  }

  /** The Markdown text of a body with the given child elements. */
  function DocumentMarkdown(elements: seq<Element>): string
  {
    Blocks(elements, Fragment)
  }

  lemma {:induction false} BlocksStep(elements: seq<Element>, render: Element -> string, i: nat)
    requires i < |elements|
    ensures Blocks(elements[..i + 1], render) == Blocks(elements[..i], render) + render(elements[i]) + "\n\n"
  {
    assert elements[..i + 1][..i] == elements[..i];
  }

  lemma {:induction false} BlocksJoin(a: seq<Element>, b: seq<Element>, render: Element -> string)
    ensures Blocks(a + b, render) == Blocks(a, render) + Blocks(b, render)
    decreases |b|
  {
    if b == [] {
      assert a + b == a;
    } else {
      var front, last := b[..|b| - 1], b[|b| - 1];
      var whole := a + b;
      assert whole[..|whole| - 1] == a + front;
      assert whole[|whole| - 1] == last;
      BlocksJoin(a, front, render);
      AppendAssoc(Blocks(a, render), Blocks(front, render), render(last) + "\n\n");
    }
  }

  /** convertHtmlToMarkdown, given doc.body(): renders every child element of the body in order. */
  method ConvertHtmlToMarkdown(body: Element) returns (markdown: string)
    ensures markdown == DocumentMarkdown(body.children)
  {
    markdown := "";
    var elements := body.children;
    for i := 0 to |elements|
      invariant markdown == DocumentMarkdown(elements[..i])
    {
      var element := elements[i];
      var tagName := element.tag;
      var fragment: string;
      match KindOf(tagName) {
        case Header => fragment := ConvertHeaderToMarkdown(element);
        case Paragraph => fragment := ConvertParagraphToMarkdown(element);
        case List => fragment := ConvertListToMarkdown(element);
        case Blockquote => fragment := ConvertBlockquoteToMarkdown(element);
        case Preformatted => fragment := ConvertPreformattedToMarkdown(element);
        case Image => fragment := ConvertImageToMarkdown(element);
        case Table => fragment := ConvertTableToMarkdown(element);
        case Fallback => fragment := ConvertElementToMarkdown(element);
      }
      BlocksStep(elements, Fragment, i);
      markdown := markdown + fragment + "\n\n";
    }
    assert elements[..|elements|] == elements;
  }

  /** A body without child elements converts to the empty text. */
  lemma {:induction false} EmptyBody(body: Element)
    requires body.children == []
    ensures DocumentMarkdown(body.children) == ""
  {
  }

  /**
   * Converting two runs of children gives the two texts one after the other:
   * fragments never depend on their neighbours, so their order is that of the
   * children.
   */
  lemma {:induction false} DocumentJoin(a: seq<Element>, b: seq<Element>)
    ensures DocumentMarkdown(a + b) == DocumentMarkdown(a) + DocumentMarkdown(b)
  {
    BlocksJoin(a, b, Fragment);
  }

  /**
   * Child i's fragment, followed by exactly one blank line, sits between the
   * text of the children before it and the text of those after it.
   */
  lemma {:induction false} DocumentBlockAt(elements: seq<Element>, i: nat)
    requires i < |elements|
    ensures DocumentMarkdown(elements)
         == DocumentMarkdown(elements[..i]) + Fragment(elements[i]) + "\n\n" + DocumentMarkdown(elements[i + 1..])
  {
    var front, back := elements[..i + 1], elements[i + 1..];
    assert elements == front + back;
    BlocksJoin(front, back, Fragment);
    BlocksStep(elements, Fragment, i);
    assert front == elements[..i + 1];
  }

  /** Which renderer each tag name reaches. */
  lemma {:induction false} FragmentRouting(e: Element)
    ensures e.tag in HeaderTags ==> Fragment(e) == ConvertHeaderToMarkdown(e)
    ensures e.tag == "p" ==> Fragment(e) == e.text
    ensures e.tag in {"ul", "ol"} ==> Fragment(e) == ListMarkdown(e)
    ensures e.tag == "blockquote" ==> Fragment(e) == BlockquoteMarkdown(e)
    ensures e.tag == "pre" ==> Fragment(e) == ConvertPreformattedToMarkdown(e)
    ensures e.tag == "img" ==> Fragment(e) == ConvertImageToMarkdown(e)
    ensures e.tag == "table" ==> Fragment(e) == TableMarkdown(e)
    ensures e.tag !in RecognizedTags ==> Fragment(e) == e.outer
  {
  }

  /** Tag names are matched exactly: upper-case names are passed through as markup. */
  lemma {:induction false} TagCaseMatters(e: Element)
    requires e.tag in {"H1", "P", "UL", "Ol", "TABLE", "Img"}
    ensures Fragment(e) == e.outer
  {
  }

  // ---------------------------------------------------------------------------
  // Header and paragraph
  // ---------------------------------------------------------------------------

  /** Integer.parseInt(tagName.substring(1)) for h1 to h6. */
  function HeaderLevel(tag: string): (level: nat)
    requires tag in HeaderTags
    ensures 1 <= level <= 6 && tag == "h" + NatToString(level)
  {
    DigitStrings();
    DecimalValue(tag[1..])
  }

  /** hN renders as N '#' characters, one space and the element's text, with no newline. */
  function ConvertHeaderToMarkdown(e: Element): (r: string)
    requires e.tag in HeaderTags
    ensures var n := HeaderLevel(e.tag);
      && |r| == n + 1 + |e.text|
      && (forall i :: 0 <= i < n ==> r[i] == '#')
      && r[n] == ' '
      && r[n + 1..] == e.text
  {
    RepeatChar('#', HeaderLevel(e.tag));
    Repeat("#", HeaderLevel(e.tag)) + " " + e.text
  }

  /** Every level from 1 to 6 has its tag, and that tag gives the level back. */
  lemma {:induction false} HeaderTagOfLevel(n: nat)
    requires 1 <= n <= 6
    ensures "h" + NatToString(n) in HeaderTags
    ensures HeaderLevel("h" + NatToString(n)) == n
  {
    DigitStrings();
    if n == 1 { assert "h" + NatToString(n) == "h1"; }
    else if n == 2 { assert "h" + NatToString(n) == "h2"; }
    else if n == 3 { assert "h" + NatToString(n) == "h3"; }
    else if n == 4 { assert "h" + NatToString(n) == "h4"; }
    else if n == 5 { assert "h" + NatToString(n) == "h5"; }
    else { assert "h" + NatToString(n) == "h6"; }
  }

  lemma {:induction false} DigitStrings()
    ensures NatToString(1) == "1" && NatToString(2) == "2" && NatToString(3) == "3"
    ensures NatToString(4) == "4" && NatToString(5) == "5" && NatToString(6) == "6"
    ensures DecimalValue("1") == 1 && DecimalValue("2") == 2 && DecimalValue("3") == 3
    ensures DecimalValue("4") == 4 && DecimalValue("5") == 5 && DecimalValue("6") == 6
  {
    assert DigitChar(1) == '1' && DigitChar(2) == '2' && DigitChar(3) == '3';
    assert DigitChar(4) == '4' && DigitChar(5) == '5' && DigitChar(6) == '6';
    assert "1"[..0] == "" && "2"[..0] == "" && "3"[..0] == "";
    assert "4"[..0] == "" && "5"[..0] == "" && "6"[..0] == "";
  }

  /** A paragraph renders as its text alone. */
  function ConvertParagraphToMarkdown(e: Element): string
  {
    e.text
  }

  // ---------------------------------------------------------------------------
  // Lists
  // ---------------------------------------------------------------------------

  function LowerAscii(ch: char): char
  {
    if 'A' <= ch <= 'Z' then (ch as int + 32) as char else ch
  }

  /** String.equalsIgnoreCase, for the ASCII names it is used with. */
  predicate EqualsIgnoreCase(a: string, b: string)
  {
    |a| == |b| && forall i :: 0 <= i < |a| ==> LowerAscii(a[i]) == LowerAscii(b[i])
  }

  predicate IsUnordered(e: Element)
  {
    EqualsIgnoreCase("ul", e.tag)
  }

  predicate IsOrdered(e: Element)
  {
    !IsUnordered(e) && EqualsIgnoreCase("ol", e.tag)
  }

  /** element.select("li"): every list item of the subtree, nested ones included. */
  function ListItems(e: Element): seq<Element>
  {
    Select(e, {"li"})
  }

  /** The line of item number `number`: a bullet or the number and a dot, the text, a newline. */
  function ListLine(ordered: bool, number: nat, item: Element): string
  {
    (if ordered then NatToString(number) + ". " else "- ") + item.text + "\n"
  }

  function ListLines(items: seq<Element>, ordered: bool): seq<string>
  {
    seq(|items|, i requires 0 <= i < |items| => ListLine(ordered, i + 1, items[i]))
  }

  /** The Markdown of a list element; an element that is neither ul nor ol gives "". */
  function ListMarkdown(e: Element): string
  {
    if IsUnordered(e) then Concat(ListLines(ListItems(e), false))
    else if IsOrdered(e) then Concat(ListLines(ListItems(e), true))
    else ""
  }

  /** Appending the line of item i extends the text of the first i lines to that of the first i + 1. */
  lemma {:induction false} ListStep(items: seq<Element>, ordered: bool, i: nat)
    requires i < |items|
    ensures ordered ==>
      Concat(ListLines(items[..i + 1], ordered))
        == Concat(ListLines(items[..i], ordered)) + NatToString(i + 1) + ". " + items[i].text + "\n"
    ensures !ordered ==>
      Concat(ListLines(items[..i + 1], ordered))
        == Concat(ListLines(items[..i], ordered)) + "- " + items[i].text + "\n"
  {
    assert items[..i + 1][..i] == items[..i];
    assert ListLines(items[..i + 1], ordered) == ListLines(items[..i], ordered) + [ListLine(ordered, i + 1, items[i])];
    ConcatAppend(ListLines(items[..i], ordered), ListLine(ordered, i + 1, items[i]));
    if ordered {
      var before := Concat(ListLines(items[..i], ordered));
      AppendAssoc(before, NatToString(i + 1), ". ");
    }
  }

  /** convertListToMarkdown: one line per selected item, numbered from 1 for ol. */
  method ConvertListToMarkdown(e: Element) returns (markdown: string)
    ensures markdown == ListMarkdown(e)
  {
    markdown := "";
    var tagName := e.tag;
    if EqualsIgnoreCase("ul", tagName) {
      var items := Select(e, {"li"});
      for i := 0 to |items|
        invariant markdown == Concat(ListLines(items[..i], false))
      {
        ListStep(items, false, i);
        markdown := markdown + "- " + items[i].text + "\n";
      }
      assert items[..|items|] == items;
    } else if EqualsIgnoreCase("ol", tagName) {
      var index := 1;
      var items := Select(e, {"li"});
      for i := 0 to |items|
        invariant index == i + 1
        invariant markdown == Concat(ListLines(items[..i], true))
      {
        ListStep(items, true, i);
        markdown := markdown + NatToString(index) + ". " + items[i].text + "\n";
        index := index + 1;
      }
      assert items[..|items|] == items;
    }
  }

  /** A list without items renders as "". */
  lemma {:induction false} EmptyList(e: Element)
    requires ListItems(e) == []
    ensures ListMarkdown(e) == ""
  {
  }

  /**
   * A ul renders item i of the flattened selection as the line "- " + text,
   * after the lines of the items before it and before those of the items after it.
   */
  lemma {:induction false} UnorderedListLineAt(e: Element, i: nat)
    requires IsUnordered(e)
    requires i < |ListItems(e)|
    ensures var items := ListItems(e);
      ListMarkdown(e)
        == Concat(ListLines(items[..i], false)) + "- " + items[i].text + "\n" + Concat(ListLines(items[i + 1..], false))
  {
    UnorderedLineAt(ListItems(e), i);
  }

  lemma {:induction false} UnorderedLineAt(items: seq<Element>, i: nat)
    requires i < |items|
    ensures Concat(ListLines(items, false))
         == Concat(ListLines(items[..i], false)) + "- " + items[i].text + "\n" + Concat(ListLines(items[i + 1..], false))
  {
    var lines := ListLines(items, false);
    ConcatSplit(lines, i);
    ListLinesSlice(items, false, 0, i);
    ListLinesSlice(items, false, i + 1, |items|);
    assert items[0..i] == items[..i] && lines[0..i] == lines[..i];
    assert items[i + 1..|items|] == items[i + 1..] && lines[i + 1..|items|] == lines[i + 1..];
    var before, text := Concat(lines[..i]), items[i].text;
    assert lines[i] == "- " + text + "\n";
    AppendAssoc(before, "- ", text);
    AppendAssoc(before, "- " + text, "\n");
    assert before + lines[i] == before + "- " + text + "\n";
  }

  /** The lines of a run of items are that run of the lines, since the numbering starts at 1 only for the whole list. */
  lemma {:induction false} ListLinesSlice(items: seq<Element>, ordered: bool, i: nat, j: nat)
    requires i <= j <= |items|
    requires i == 0 || !ordered
    ensures ListLines(items, ordered)[i..j] == ListLines(items[i..j], ordered)
  {
  }

  /**
   * An ol numbers its items 1, 2, ... in selection order: the leading digits
   * of the line of item i read as i + 1, and a dot, a space, the text and a
   * newline follow them.
   */
  lemma {:induction false} OrderedListNumbering(e: Element, i: nat)
    requires IsOrdered(e)
    requires i < |ListItems(e)|
    ensures var items := ListItems(e);
      var line := ListLines(items, true)[i];
      var number := DigitPrefix(line);
      && DecimalValue(number) == i + 1
      && line == number + ". " + items[i].text + "\n"
  {
    var items := ListItems(e);
    var digits := NatToString(i + 1);
    var rest := ". " + items[i].text + "\n";
    assert ListLines(items, true)[i] == digits + rest;
    DigitPrefixOf(digits, rest);
    DecimalRoundTrip(i + 1);
  }

  /** A list line holds exactly one newline when the item's text holds none. */
  lemma {:induction false} ListLineNewlines(ordered: bool, number: nat, item: Element)
    requires '\n' !in item.text
    ensures Count('\n', ListLine(ordered, number, item)) == 1
  {
    var prefix := if ordered then NatToString(number) + ". " else "- ";
    assert '\n' !in prefix by {
      if ordered {
        assert !IsDigit('\n');
        assert '\n' !in NatToString(number);
      }
    }
    CountZero('\n', prefix);
    CountZero('\n', item.text);
    CountAppend('\n', prefix, item.text);
    CountAppend('\n', prefix + item.text, "\n");
  }

  /** A list whose k items have single-line texts renders as exactly k lines. */
  lemma {:induction false} ListLineCount(e: Element)
    requires IsUnordered(e) || IsOrdered(e)
    requires forall item :: item in ListItems(e) ==> '\n' !in item.text
    ensures Count('\n', ListMarkdown(e)) == |ListItems(e)|
  {
    var items := ListItems(e);
    var ordered := !IsUnordered(e);
    var lines := ListLines(items, ordered);
    forall i | 0 <= i < |lines|
      ensures Count('\n', lines[i]) == 1
    {
      assert items[i] in items;
      ListLineNewlines(ordered, i + 1, items[i]);
    }
    CountConcatUniform('\n', lines, 1);
  }

  // ---------------------------------------------------------------------------
  // Blockquote, preformatted text, images, fallback
  // ---------------------------------------------------------------------------

  /** The quote marker, then the text with each newline continued by a quote marker. */
  function BlockquoteMarkdown(e: Element): string
  {
    "> " + ReplaceChar(e.text, '\n', "\n> ")
  }

  /** convertBlockquoteToMarkdown: appends the marker and the substituted text. */
  method ConvertBlockquoteToMarkdown(e: Element) returns (markdown: string)
    ensures markdown == BlockquoteMarkdown(e)
  {
    markdown := "";
    markdown := markdown + "> ";
    markdown := markdown + ReplaceChar(e.text, '\n', "\n> ");
  }

  /**
   * The quote starts with "> ", every newline in it is followed by "> ", and
   * it has as many newlines as the text, so every line is quoted.
   */
  lemma {:induction false} BlockquoteQuotesEveryLine(e: Element)
    ensures var r := BlockquoteMarkdown(e);
      && r[..2] == "> "
      && FollowedBy(r, '\n', "> ")
      && Count('\n', r) == Count('\n', e.text)
      && |r| == |e.text| + 2 + 2 * Count('\n', e.text)
  {
    var body := ReplaceChar(e.text, '\n', "\n> ");
    var r := "> " + body;
    assert FollowedBy(r, '\n', "> ") by {
      ReplaceCharFollowed(e.text, '\n', "> ");
      assert "\n> " == ['\n'] + "> ";
      forall j | 0 <= j < |r| && r[j] == '\n'
        ensures j + 2 < |r| && r[j + 1..j + 3] == "> "
      {
        FollowedBySuffix("> ", body, '\n', "> ", j);
      }
    }
    assert Count('\n', r) == Count('\n', e.text) by {
      CountReplaceChar('\n', e.text, '\n', "\n> ");
      assert Count('\n', "\n> ") == 1;
      CountAppend('\n', "> ", body);
    }
    ReplaceCharLength(e.text, '\n', "\n> ");
  }

  /** Text without a newline is quoted as "> " + text. */
  lemma {:induction false} BlockquoteSingleLine(e: Element)
    requires '\n' !in e.text
    ensures BlockquoteMarkdown(e) == "> " + e.text
  {
    ReplaceCharIdentity(e.text, '\n', "\n> ");
  }

  /** A fence line, the text as it is, and a closing fence line; no language tag. */
  function ConvertPreformattedToMarkdown(e: Element): (r: string)
    ensures |r| == |e.text| + 8
    ensures r[..4] == "```\n" && r[4..|r| - 4] == e.text && r[|r| - 4..] == "\n```"
  {
    "```\n" + e.text + "\n```"
  }

  /** The image label: the alt attribute, or "Image" when it is missing or empty. */
  function ImageLabel(e: Element): (caption: string)
    ensures caption != ""
    ensures Attr(e, "alt") != "" ==> caption == Attr(e, "alt")
    ensures Attr(e, "alt") == "" ==> caption == "Image"
  {
    var altText := Attr(e, "alt");
    if altText == "" then "Image" else altText
  }

  /** An image reference built from alt and src, neither of them escaped. */
  function ConvertImageToMarkdown(e: Element): (r: string)
    ensures Attr(e, "alt") == "" ==> r == "![Image](" + Attr(e, "src") + ")"
    ensures Attr(e, "alt") != "" ==> r == "![" + Attr(e, "alt") + "](" + Attr(e, "src") + ")"
  {
    "![" + ImageLabel(e) + "](" + Attr(e, "src") + ")"
  }

  /** Position of the first c in s, or |s| when there is none. */
  function IndexOfChar(s: string, c: char): (k: nat)
    ensures k <= |s|
    ensures k < |s| ==> s[k] == c
    ensures forall i :: 0 <= i < k ==> s[i] != c
  {
    if s == [] then 0 else if s[0] == c then 0 else 1 + IndexOfChar(s[1..], c)
  }

  /** Reads a reference "![label](target)" back, the label ending at its first ']'. */
  function ParseImage(md: string): Option<(string, string)>
  {
    if |md| < 5 || md[..2] != "![" || md[|md| - 1] != ')' then None
    else
      var inner := md[2..|md| - 1];
      var k := IndexOfChar(inner, ']');
      if k + 1 < |inner| && inner[k + 1] == '(' then Some((inner[..k], inner[k + 2..])) else None
  }

  /** A reference whose label holds no ']' is read back as that label and target. */
  lemma {:induction false} ParseReference(caption: string, src: string)
    requires ']' !in caption
    ensures ParseImage("![" + caption + "](" + src + ")") == Some((caption, src))
  {
    var md := "![" + caption + "](" + src + ")";
    var inner := md[2..|md| - 1];
    assert md[..2] == "![";
    assert inner == caption + "](" + src;
    var k := IndexOfChar(inner, ']');
    assert inner[|caption|] == ']';
    assert k == |caption|;
    assert inner[..k] == caption;
    assert inner[k + 2..] == src;
  }

  /** When the label holds no ']', the label and the src can be read back from the output. */
  lemma {:induction false} ImageRoundTrip(e: Element)
    requires ']' !in ImageLabel(e)
    ensures ParseImage(ConvertImageToMarkdown(e)) == Some((ImageLabel(e), Attr(e, "src")))
  {
    ParseReference(ImageLabel(e), Attr(e, "src"));
  }

  /** Because nothing is escaped, different alt and src values can give the same output. */
  lemma {:induction false} ImageValuesNotEscaped()
    ensures var first := Element("img", map["alt" := "x](y", "src" := "z"], [], "", "");
      var second := Element("img", map["alt" := "x", "src" := "y](z"], [], "", "");
      ConvertImageToMarkdown(first) == ConvertImageToMarkdown(second) == "![x](y](z)"
  {
  }

  /** Any other element is passed through as its serialized markup. */
  function ConvertElementToMarkdown(e: Element): string
  {
    e.outer
  }

  // ---------------------------------------------------------------------------
  // Tables
  // ---------------------------------------------------------------------------

  /** section.select("tr") */
  function Rows(section: Element): seq<Element>
  {
    Select(section, {"tr"})
  }

  /** row.select("td, th") */
  function Cells(row: Element): seq<Element>
  {
    Select(row, {"td", "th"})
  }

  /** Cell text with every '|' replaced by the entity &#124;. */
  function EscapeCell(text: string): (r: string)
    ensures '|' !in r
    ensures '|' !in text ==> r == text
    ensures |r| == |text| + 5 * Count('|', text)
  {
    CountReplaceChar('|', text, '|', "&#124;");
    assert Count('|', "&#124;") == 0;
    CountZero('|', ReplaceChar(text, '|', "&#124;"));
    ReplaceCharLength(text, '|', "&#124;");
    if '|' in text then ReplaceChar(text, '|', "&#124;")
    else ReplaceCharIdentity(text, '|', "&#124;"); ReplaceChar(text, '|', "&#124;")
  }

  function CellChunk(cell: Element): string
  {
    "| " + EscapeCell(cell.text) + " "
  }

  /** The cells of a row, each as "| " + escaped text + " ", in selection order. */
  function CellsText(cells: seq<Element>): string
  {
    if cells == [] then "" else CellsText(cells[..|cells| - 1]) + CellChunk(cells[|cells| - 1])
  }

  /** One row: "| c1 | c2 ... |" and a newline. */
  function RowLine(row: Element): string
  {
    CellsText(Cells(row)) + "|\n"
  }

  /** The row lines of a section, in selection order. */
  function RowsText(rows: seq<Element>): string
  {
    if rows == [] then "" else RowsText(rows[..|rows| - 1]) + RowLine(rows[|rows| - 1])
  }

  /** The separator line: width copies of "|---", then "|" and a newline. */
  function Separator(width: nat): string
  {
    Repeat("|---", width) + "|\n"
  }

  /**
   * The Markdown of a thead or tbody: all its rows, then one separator line
   * as wide as its first row; a section without rows gives "".
   */
  function SectionMarkdown(section: Element): string
  {
    var rows := Rows(section);
    RowsText(rows) + (if rows == [] then "" else Separator(|Cells(rows[0])|))
  }

  /** convertTableSectionToMarkdown: the row loop, then a separator loop that stops after the first row. */
  method ConvertTableSectionToMarkdown(section: Element) returns (markdown: string)
    ensures markdown == SectionMarkdown(section)
  {
    markdown := "";
    var rows := Select(section, {"tr"});
    for i := 0 to |rows|
      invariant markdown == RowsText(rows[..i])
    {
      var cells := Select(rows[i], {"td", "th"});
      ghost var before := markdown;
      for j := 0 to |cells|
        invariant markdown == before + CellsText(cells[..j])
      {
        var cellText := ReplaceChar(cells[j].text, '|', "&#124;");
        CellStep(before, cells, j, cellText);
        markdown := markdown + "| " + cellText + " ";
      }
      RowStep(rows, i, before, cells);
      markdown := markdown + "|\n";
    }
    assert rows[..|rows|] == rows;
    ghost var body := markdown;
    for k := 0 to |rows|
      invariant k == 0 && markdown == body
    {
      var cells := Select(rows[k], {"td", "th"});
      for j := 0 to |cells|
        invariant markdown == body + Repeat("|---", j)
      {
        SeparatorStep(body, j);
        markdown := markdown + "|---";
      }
      markdown := markdown + "|\n";
      SeparatorDone(section, rows, body, cells, markdown);
      break;
    }
  }

  lemma {:induction false} CellStep(before: string, cells: seq<Element>, j: nat, cellText: string)
    requires j < |cells| && cellText == ReplaceChar(cells[j].text, '|', "&#124;")
    ensures before + CellsText(cells[..j + 1]) == before + CellsText(cells[..j]) + "| " + cellText + " "
  {
    assert cells[..j + 1][..j] == cells[..j];
  }

  lemma {:induction false} RowStep(rows: seq<Element>, i: nat, before: string, cells: seq<Element>)
    requires i < |rows| && before == RowsText(rows[..i]) && cells == Select(rows[i], {"td", "th"})
    ensures RowsText(rows[..i + 1]) == before + CellsText(cells[..|cells|]) + "|\n"
  {
    assert rows[..i + 1][..i] == rows[..i];
    assert cells[..|cells|] == cells;
  }

  lemma {:induction false} SeparatorStep(body: string, j: nat)
    ensures body + Repeat("|---", j + 1) == body + Repeat("|---", j) + "|---"
  {
  }

  lemma {:induction false} SeparatorDone(section: Element, rows: seq<Element>, body: string, cells: seq<Element>, markdown: string)
    requires rows == Select(section, {"tr"}) && rows != [] && body == RowsText(rows)
    requires cells == Select(rows[0], {"td", "th"}) && markdown == body + Repeat("|---", |cells|) + "|\n"
    ensures markdown == SectionMarkdown(section)
  {
    AppendAssoc(body, Repeat("|---", |cells|), "|\n");
    assert SectionMarkdown(section) == body + Separator(|Cells(rows[0])|);
  }

  /** Each escaped cell contributes exactly one '|', its leading one. */
  lemma {:induction false} CellsTextJoin(a: seq<Element>, b: seq<Element>)
    ensures CellsText(a + b) == CellsText(a) + CellsText(b)
    decreases |b|
  {
    if b == [] {
      assert a + b == a;
    } else {
      var front, last := b[..|b| - 1], b[|b| - 1];
      var whole := a + b;
      assert whole[..|whole| - 1] == a + front;
      assert whole[|whole| - 1] == last;
      var chunk := CellChunk(last);
      assert CellsText(whole) == CellsText(a + front) + chunk;
      assert CellsText(b) == CellsText(front) + chunk;
      CellsTextJoin(a, front);
      AppendAssoc(CellsText(a), CellsText(front), chunk);
    }
  }

  /**
   * Cell i of a row, escaped and padded by one space on each side after its
   * "|", sits between the cells before it and those after it; the line ends with "|\n".
   */
  lemma {:induction false} RowCellAt(row: Element, i: nat)
    requires i < |Cells(row)|
    ensures var cells := Cells(row);
      RowLine(row)
        == CellsText(cells[..i]) + "| " + EscapeCell(cells[i].text) + " " + CellsText(cells[i + 1..]) + "|\n"
  {
    CellAt(Cells(row), i);
  }

  lemma {:induction false} CellAt(cells: seq<Element>, i: nat)
    requires i < |cells|
    ensures CellsText(cells)
         == CellsText(cells[..i]) + "| " + EscapeCell(cells[i].text) + " " + CellsText(cells[i + 1..])
  {
    var front, back := cells[..i + 1], cells[i + 1..];
    assert cells == front + back;
    CellsTextJoin(front, back);
    assert front[..i] == cells[..i];
    var before, text := CellsText(cells[..i]), EscapeCell(cells[i].text);
    assert CellsText(front) == before + ("| " + text + " ");
    AppendAssoc(before, "| ", text);
    AppendAssoc(before, "| " + text, " ");
  }

  lemma {:induction false} CellsTextPipeCount(cells: seq<Element>)
    ensures Count('|', CellsText(cells)) == |cells|
    decreases |cells|
  {
    if cells != [] {
      var front, last := cells[..|cells| - 1], cells[|cells| - 1];
      CellsTextPipeCount(front);
      var text := EscapeCell(last.text);
      CountZero('|', text);
      CountAppend('|', "| ", text);
      CountAppend('|', "| " + text, " ");
      CountAppend('|', CellsText(front), CellChunk(last));
    }
  }

  /** A row line holds one '|' per cell plus the closing one, since escaped cells hold none. */
  lemma {:induction false} RowPipeCount(row: Element)
    ensures Count('|', RowLine(row)) == |Cells(row)| + 1
  {
    CellsTextPipeCount(Cells(row));
    CountAppend('|', CellsText(Cells(row)), "|\n");
  }

  /** A row without cells renders as "|\n". */
  lemma {:induction false} EmptyRow(row: Element)
    requires Cells(row) == []
    ensures RowLine(row) == "|\n"
  {
  }

  /** The separator of width w has 4w + 2 characters: w + 1 '|', 3w '-' and a newline. */
  lemma {:induction false} SeparatorShape(width: nat)
    ensures var sep := Separator(width);
      && |sep| == 4 * width + 2
      && Count('|', sep) == width + 1
      && Count('-', sep) == 3 * width
      && Count('\n', sep) == 1
  {
    RepeatLength("|---", width);
    CountRepeat('|', "|---", width);
    CountRepeat('-', "|---", width);
    CountRepeat('\n', "|---", width);
    CountAppend('|', Repeat("|---", width), "|\n");
    CountAppend('-', Repeat("|---", width), "|\n");
    CountAppend('\n', Repeat("|---", width), "|\n");
  }

  /** The output of a thead or tbody found by selectFirst, with its newline; nothing when absent. */
  function SectionPart(table: Element, tag: string): string
  {
    match SelectFirst(table, tag)
    case None => ""
    case Some(section) => SectionMarkdown(section) + "\n"
  }

  /** The first thead of the table, then its first tbody. */
  function TableMarkdown(table: Element): string
  {
    SectionPart(table, "thead") + SectionPart(table, "tbody")
  }

  /** convertTableToMarkdown */
  method ConvertTableToMarkdown(table: Element) returns (markdown: string)
    ensures markdown == TableMarkdown(table)
  {
    markdown := "";
    var thead := SelectFirst(table, "thead");
    if thead.Some? {
      var part := ConvertTableSectionToMarkdown(thead.value);
      markdown := markdown + part + "\n";
    }
    ghost var head := markdown;
    assert head == SectionPart(table, "thead");
    var tbody := SelectFirst(table, "tbody");
    if tbody.Some? {
      var part := ConvertTableSectionToMarkdown(tbody.value);
      AppendAssoc(head, part, "\n");
      markdown := markdown + part + "\n";
    }
    assert markdown == head + SectionPart(table, "tbody");
  }

  /** A table with neither a thead nor a tbody in its subtree renders as "". */
  lemma {:induction false} TableWithoutSections(table: Element)
    requires Select(table, {"thead"}) == [] && Select(table, {"tbody"}) == []
    ensures TableMarkdown(table) == ""
  {
    SelectFirstIsFirstSelected(table, "thead");
    SelectFirstIsFirstSelected(table, "tbody");
  }

  /** The sections come in the order thead, tbody, each followed by a newline. */
  lemma {:induction false} TableSectionOrder(table: Element)
    requires Select(table, {"thead"}) != [] && Select(table, {"tbody"}) != []
    ensures TableMarkdown(table)
         == SectionMarkdown(Select(table, {"thead"})[0]) + "\n" + SectionMarkdown(Select(table, {"tbody"})[0]) + "\n"
  {
    SelectFirstIsFirstSelected(table, "thead");
    SelectFirstIsFirstSelected(table, "tbody");
  }

  /**
   * A table with a tbody but no thead still ends with a separator line, sized
   * by the first row of the tbody, so its first body row reads as a header.
   */
  lemma {:induction false} TbodyOnlyTableHasSeparator(table: Element)
    requires Select(table, {"thead"}) == [] && Select(table, {"tbody"}) != []
    requires Rows(Select(table, {"tbody"})[0]) != []
    ensures var body := Select(table, {"tbody"})[0];
      var sep := Separator(|Cells(Rows(body)[0])|) + "\n";
      var r := TableMarkdown(table);
      |sep| <= |r| && r[|r| - |sep|..] == sep
  {
    var body := Select(table, {"tbody"})[0];
    var sep := Separator(|Cells(Rows(body)[0])|) + "\n";
    var rows := RowsText(Rows(body));
    assert TableMarkdown(table) == rows + sep by {
      SelectFirstIsFirstSelected(table, "thead");
      SelectFirstIsFirstSelected(table, "tbody");
    }
    assert (rows + sep)[|rows|..] == sep;
  }
}
