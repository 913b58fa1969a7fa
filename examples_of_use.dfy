/**
 * Worked instances of the converter on small, fixed element trees: what the
 * renderers produce for the documents one would write by hand.
 */
module ConversionExamples {
  import opened Strings
  import opened Dom
  import opened HtmlToMarkdown

  function Leaf(tag: string, text: string): Element
  {
    Element(tag, map[], [], text, "<" + tag + ">" + text + "</" + tag + ">")
  }

  /** The selection of a childless element is the element itself or nothing. */
  lemma {:induction false} SelectLeaf(e: Element, tags: set<string>)
    requires e.children == []
    ensures Select(e, tags) == if e.tag in tags then [e] else []
  {
    assert SelectAll(e.children, tags) == [];
  }

  lemma {:induction false} SelectAllPair(a: Element, b: Element, tags: set<string>)
    ensures SelectAll([a, b], tags) == Select(a, tags) + Select(b, tags)
  {
    assert [a, b][1..] == [b];
    assert [b][1..] == [];
    assert SelectAll([b], tags) == Select(b, tags) + SelectAll([], tags);
  }

  lemma {:induction false} SelectAllSingle(a: Element, tags: set<string>)
    ensures SelectAll([a], tags) == Select(a, tags)
  {
    assert [a][1..] == [];
  }

  // A tbody of two rows, the first with cells A and B, the second with cell C.
  const CellA := Leaf("td", "A")
  const CellB := Leaf("td", "B")
  const CellC := Leaf("td", "C")
  const FirstRow := Element("tr", map[], [CellA, CellB], "A B", "")
  const SecondRow := Element("tr", map[], [CellC], "C", "")
  const Body := Element("tbody", map[], [FirstRow, SecondRow], "A B C", "")
  const TwoRowTable := Element("table", map[], [Body], "A B C", "")

  lemma {:induction false} ExampleCells()
    ensures Cells(FirstRow) == [CellA, CellB] && Cells(SecondRow) == [CellC]
  {
    var cellTags := {"td", "th"};
    SelectLeaf(CellA, cellTags);
    SelectLeaf(CellB, cellTags);
    SelectLeaf(CellC, cellTags);
    SelectAllPair(CellA, CellB, cellTags);
    SelectAllSingle(CellC, cellTags);
  }

  lemma {:induction false} ExampleRows()
    ensures Rows(Body) == [FirstRow, SecondRow]
  {
    var rowTags := {"tr"};
    SelectLeaf(CellA, rowTags);
    SelectLeaf(CellB, rowTags);
    SelectLeaf(CellC, rowTags);
    SelectAllPair(CellA, CellB, rowTags);
    SelectAllSingle(CellC, rowTags);
    assert Select(FirstRow, rowTags) == [FirstRow];
    assert Select(SecondRow, rowTags) == [SecondRow];
    SelectAllPair(FirstRow, SecondRow, rowTags);
  }

  lemma {:induction false} CellsTextPair(a: Element, b: Element)
    ensures CellsText([a, b]) == CellChunk(a) + CellChunk(b)
  {
    assert [a, b][..1] == [a];
    CellsTextSingle(a);
  }

  lemma {:induction false} CellsTextSingle(a: Element)
    ensures CellsText([a]) == CellChunk(a)
  {
    assert [a][..0] == [];
    assert CellsText([a]) == "" + CellChunk(a);
  }

  lemma {:induction false} RowsTextPair(a: Element, b: Element)
    ensures RowsText([a, b]) == RowLine(a) + RowLine(b)
  {
    assert [a][..0] == [];
    assert RowsText([a]) == RowLine(a) by {
      assert RowsText([a]) == "" + RowLine(a);
    }
    assert [a, b][..1] == [a];
  }

  lemma {:induction false} ExampleChunk(cell: Element, text: string)
    requires cell == Leaf("td", text) && '|' !in text
    ensures CellChunk(cell) == "| " + text + " "
  {
    ReplaceCharIdentity(text, '|', "&#124;");
  }

  lemma {:induction false} FirstRowText()
    ensures "| A " + "| B " + "|\n" == "| A | B |\n"
  {
  }

  lemma {:induction false} SectionText()
    ensures "| A | B |\n" + ("| C " + "|\n") + ("|---" + "|---" + "|\n") == "| A | B |\n| C |\n|---|---|\n"
  {
  }

  lemma {:induction false} ExampleFirstRowLine()
    ensures RowLine(FirstRow) == "| A | B |\n"
  {
    ExampleCells();
    CellsTextPair(CellA, CellB);
    ExampleChunk(CellA, "A");
    ExampleChunk(CellB, "B");
    FirstRowText();
  }

  lemma {:induction false} ExampleSecondRowLine()
    ensures RowLine(SecondRow) == "| C " + "|\n"
  {
    ExampleCells();
    CellsTextSingle(CellC);
    ExampleChunk(CellC, "C");
  }

  lemma {:induction false} TwoColumnSeparator()
    ensures Separator(2) == "|---" + "|---" + "|\n"
  {
    assert Repeat("|---", 1) == Repeat("|---", 0) + "|---";
  }

  lemma {:induction false} ExampleSection()
    ensures SectionMarkdown(Body) == "| A | B |\n| C |\n|---|---|\n"
  {
    assert SectionMarkdown(Body) == RowsText([FirstRow, SecondRow]) + Separator(2) by {
      ExampleRows();
      ExampleCells();
    }
    assert RowsText([FirstRow, SecondRow]) == "| A | B |\n" + ("| C " + "|\n") by {
      RowsTextPair(FirstRow, SecondRow);
      ExampleFirstRowLine();
      ExampleSecondRowLine();
    }
    TwoColumnSeparator();
    SectionText();
  }

  lemma {:induction false} NoMatchInLeaf(e: Element, tag: string)
    requires e.children == [] && e.tag != tag
    ensures SelectFirst(e, tag) == None
  {
  }

  lemma {:induction false} NoMatchInPair(a: Element, b: Element, tag: string)
    requires SelectFirst(a, tag) == None && SelectFirst(b, tag) == None
    ensures FirstOf([a, b], tag) == None
  {
    assert [a, b][1..] == [b];
    NoMatchInSingle(b, tag);
  }

  lemma {:induction false} NoMatchInSingle(a: Element, tag: string)
    requires SelectFirst(a, tag) == None
    ensures FirstOf([a], tag) == None
  {
    assert [a][1..] == [];
  }

  lemma {:induction false} ExampleHasNoThead()
    ensures SelectFirst(TwoRowTable, "thead") == None
  {
    NoMatchInLeaf(CellA, "thead");
    NoMatchInLeaf(CellB, "thead");
    NoMatchInLeaf(CellC, "thead");
    NoMatchInPair(CellA, CellB, "thead");
    NoMatchInSingle(CellC, "thead");
    NoMatchInPair(FirstRow, SecondRow, "thead");
    NoMatchInSingle(Body, "thead");
  }

  /** A tbody whose second row is narrower than its first still gets a two-column separator. */
  lemma {:induction false} SeparatorFollowsFirstRow()
    ensures TableMarkdown(TwoRowTable) == "| A | B |\n| C |\n|---|---|\n" + "\n"
  {
    ExampleHasNoThead();
    ExampleSection();
    assert SelectFirst(Body, "tbody") == Some(Body);
    assert FirstOf([Body], "tbody") == Some(Body);
    assert SelectFirst(TwoRowTable, "tbody") == Some(Body);
  }

  /** Images: the alt text when present, the word Image otherwise. */
  lemma {:induction false} ImageExamples()
    ensures ConvertImageToMarkdown(Element("img", map["src" := "a.png"], [], "", "")) == "![Image](a.png)"
    ensures ConvertImageToMarkdown(Element("img", map["alt" := "x", "src" := "b.png"], [], "", "")) == "![x](b.png)"
  {
  }

  /** A preformatted block keeps its line breaks inside the fences. */
  lemma {:induction false} PreformattedExample()
    ensures ConvertPreformattedToMarkdown(Leaf("pre", "line1\nline2")) == "```\nline1\nline2\n```"
  {
  }

  lemma {:induction false} ExampleHeader()
    ensures ConvertHeaderToMarkdown(Leaf("h2", "Title")) == "##" + " " + "Title"
  {
    HeaderTagOfLevel(2);
    DigitStrings();
    assert "h" + NatToString(2) == "h2";
    assert Repeat("#", 2) == "##" by {
      assert Repeat("#", 1) == Repeat("#", 0) + "#";
    }
  }

  lemma {:induction false} HeaderFragment()
    ensures Fragment(Leaf("h2", "Title")) == "## Title"
  {
    assert KindOf("h2") == Header;
    ExampleHeader();
  }

  lemma {:induction false} ParagraphFragment()
    ensures Fragment(Leaf("p", "Hello")) == "Hello"
  {
    assert KindOf("p") == Paragraph;
  }

  lemma {:induction false} PassthroughFragment()
    ensures Fragment(Leaf("div", "x")) == "<div>x</div>"
  {
    assert KindOf("div") == Fallback;
  }

  lemma {:induction false} BlocksOfThree(a: Element, b: Element, c: Element, render: Element -> string)
    ensures Blocks([a, b, c], render) == render(a) + "\n\n" + render(b) + "\n\n" + render(c) + "\n\n"
  {
    assert [a, b, c][..2] == [a, b];
    assert [a, b][..1] == [a];
    assert [a][..0] == [];
    assert Blocks([a], render) == render(a) + "\n\n";
    assert Blocks([a, b], render) == render(a) + "\n\n" + render(b) + "\n\n";
  }

  lemma {:induction false} DocumentOfFragments(header: Element, paragraph: Element, division: Element)
    requires Fragment(header) == "## Title" && Fragment(paragraph) == "Hello"
    requires Fragment(division) == "<div>x</div>"
    ensures DocumentMarkdown([header, paragraph, division])
         == "## Title" + "\n\n" + "Hello" + "\n\n" + "<div>x</div>" + "\n\n"
  {
    BlocksOfThree(header, paragraph, division, Fragment);
  }

  /** A document of a header, a paragraph and a div: the div is passed through as markup. */
  lemma {:induction false} DocumentExample()
    ensures DocumentMarkdown([Leaf("h2", "Title"), Leaf("p", "Hello"), Leaf("div", "x")])
         == "## Title" + "\n\n" + "Hello" + "\n\n" + "<div>x</div>" + "\n\n"
  {
    HeaderFragment();
    ParagraphFragment();
    PassthroughFragment();
    DocumentOfFragments(Leaf("h2", "Title"), Leaf("p", "Hello"), Leaf("div", "x"));
  }

  lemma {:induction false} ConcatThree(x: string, y: string, z: string)
    ensures Concat([x, y, z]) == x + y + z
  {
    assert [x, y, z][..2] == [x, y];
    assert [x, y][..1] == [x];
    assert [x][..0] == [];
    assert Concat([x]) == "" + x;
    assert Concat([x, y]) == x + y;
  }

  // An ol whose first item holds a nested ol of one item, then a second item.
  const ItemB := Leaf("li", "b")
  const InnerList := Element("ol", map[], [ItemB], "b", "")
  const ItemA := Element("li", map[], [InnerList], "a b", "")
  const ItemC := Leaf("li", "c")
  const OuterList := Element("ol", map[], [ItemA, ItemC], "a b c", "")

  lemma {:induction false} NestedItems()
    ensures ListItems(OuterList) == [ItemA, ItemB, ItemC]
  {
    var tags := {"li"};
    SelectLeaf(ItemB, tags);
    SelectLeaf(ItemC, tags);
    SelectAllSingle(ItemB, tags);
    assert Select(InnerList, tags) == [ItemB];
    SelectAllSingle(InnerList, tags);
    assert Select(ItemA, tags) == [ItemA, ItemB];
    SelectAllPair(ItemA, ItemC, tags);
  }

  /** A nested list is flattened: its items are numbered along with the outer ones. */
  lemma {:induction false} NestedListExample()
    ensures ListMarkdown(OuterList) == "1. a b\n2. b\n3. c\n"
  {
    assert IsOrdered(OuterList) by {
      assert "ul"[0] == 'u' && OuterList.tag[0] == 'o';
      assert LowerAscii('u') != LowerAscii('o');
    }
    var lines := ListLines([ItemA, ItemB, ItemC], true);
    assert lines == ["1. a b\n", "2. b\n", "3. c\n"] by {
      DigitStrings();
      assert lines[0] == "1. a b\n";
      assert lines[1] == "2. b\n";
      assert lines[2] == "3. c\n";
    }
    assert ListMarkdown(OuterList) == "1. a b\n" + "2. b\n" + "3. c\n" by {
      NestedItems();
      ConcatThree("1. a b\n", "2. b\n", "3. c\n");
    }
  }
}
