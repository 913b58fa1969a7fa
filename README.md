# HTML-to-Markdown conversion engine, modelled in Dafny

`test.java` (class `HtmlToMarkdownConverter`) turns a parsed HTML document
into Markdown text. A dispatcher walks the direct children of the body in
document order. It hands each child to a renderer chosen by the tag name and
appends the result followed by one blank line. There are renderers for
headers, paragraphs, lists, blockquotes, preformatted blocks, images, tables
and table sections. Any other element is passed through as its serialized
markup.

The model has four modules:

- `Dom` (`dom.dfy`) is the part of the jsoup element tree the engine reads.
  An `Element` has a tag name, an attribute map, its child elements, its
  text and its serialized markup. `Attr` stands for `Element.attr`.
  `Select` stands for `select` with a tag-name query: a preorder search of
  the subtree, the element itself included. `SelectFirst` stands for
  `selectFirst` and is proved to return the first element `Select` finds.
- `Strings` (`strings.dfy`) holds the text operations the renderers use:
  the text a `StringBuilder` accumulates, `String.repeat`, the literal
  replacement that each `replaceAll` call performs, character counts, and
  the decimal form of the list counter.
- `HtmlToMarkdown` (`converter.dfy`) holds the engine itself.
  - The renderers that build their output with a `StringBuilder` are
    methods, each proved equal to a specification function. Three of them
    append in loops: `ConvertHtmlToMarkdown`, `ConvertListToMarkdown` and
    `ConvertTableSectionToMarkdown`. Their loop invariants say that the text
    built so far is the specification applied to the elements processed so
    far. `ConvertBlockquoteToMarkdown` and `ConvertTableToMarkdown` append a
    fixed number of pieces without a loop.
  - The single-expression renderers are functions.
  - Lemmas state the output formats the renderers promise.
  - `ConvertParagraphToMarkdown` (the text) and `ConvertElementToMarkdown`
    (the markup) are plain projections. They are pinned down by
    `FragmentRouting` rather than by contracts of their own.
- `ConversionExamples` (`examples_of_use.dfy`) works through small fixed
  trees and proves the exact output for each:
  - a table whose second row is narrower than its first;
  - images with and without alt text;
  - a preformatted block with a line break;
  - a short document with a passthrough `div`;
  - an ordered list with a nested list.

## Model

| member | source | states |
|---|---|---|
| `HtmlToMarkdown.ConvertHtmlToMarkdown` | test.java:37-81 | The result is every body child's fragment followed by `"\n\n"`, in child order (`DocumentMarkdown` of the children). |
| `HtmlToMarkdown.KindOf` | test.java:43-78 | A tag goes to the fallback exactly when it is none of the thirteen case labels. It goes to the header renderer exactly when it is `h1`..`h6`. Names are compared exactly as given. |
| `HtmlToMarkdown.EmptyBody` | test.java:37-81 | A body without child elements converts to `""`. |
| `HtmlToMarkdown.DocumentBlockAt` | test.java:42-79 | Child i's fragment, followed by exactly one blank line, sits between the text of the children before it and the text of those after it. |
| `HtmlToMarkdown.DocumentJoin` | test.java:42-79 | Converting children `a + b` gives the conversion of `a` followed by that of `b`. A fragment never depends on its neighbours. |
| `HtmlToMarkdown.FragmentRouting` | test.java:45-78 | For each case label, the renderer that the label reaches. A `p` gives its text (test.java:91-93). An unrecognised tag gives its serialized markup unchanged (test.java:186-188). |
| `HtmlToMarkdown.TagCaseMatters` | test.java:45-77 | `H1`, `P`, `UL`, `Ol`, `TABLE` and `Img` are not matched by the switch. Each of them is passed through as markup. |
| `HtmlToMarkdown.HeaderLevel` | test.java:86 | The level parsed from the tag suffix is between 1 and 6, and the tag is `"h"` followed by the level's decimal form. |
| `HtmlToMarkdown.ConvertHeaderToMarkdown` | test.java:85-88 | For `hN` the output is exactly N `#`s, one space, then the text. It has length N + 1 + \|text\| and no newline is added. |
| `HtmlToMarkdown.HeaderTagOfLevel` | test.java:86 | Every level 1..6 has its tag `h<n>`, and parsing that tag's suffix gives n back. |
| `HtmlToMarkdown.ConvertListToMarkdown` | test.java:96-113 | The result equals `ListMarkdown`: one line per selected `li`, with bullets for `ul`, numbers for `ol`, and `""` for any other tag. |
| `HtmlToMarkdown.UnorderedListLineAt` | test.java:101-104 | In a `ul`, item i of the flattened selection renders as `"- " + text + "\n"`, between the lines of the items before and after it. |
| `HtmlToMarkdown.UnorderedLineAt` | test.java:102-104 | The same placement, stated for any run of items. |
| `HtmlToMarkdown.OrderedListNumbering` | test.java:105-109 | In an `ol`, the leading digits of item i's line read as i + 1. They are followed by `". "`, the text and a newline, so items are numbered 1..k in selection order. |
| `HtmlToMarkdown.ListLineNewlines` | test.java:103-108 | A list line holds exactly one newline when the item text holds none. |
| `HtmlToMarkdown.ListLineCount` | test.java:101-109 | A list of k single-line items renders as exactly k lines, nested items included. |
| `HtmlToMarkdown.EmptyList` | test.java:96-113 | A list with no `li` in its subtree renders as `""`. |
| `Dom.Select` | test.java:102 | Every selected element has one of the requested tag names. |
| `Dom.SelectReachesChildren` | test.java:102 | Anything a child's subtree selects is also selected by the parent. This is why nested list items are flattened into the outer list. |
| `Dom.SelectFirstIsFirstSelected` | test.java:144-150 | `selectFirst(tag)` is the first element of `select(tag)`, and is absent exactly when that selection is empty. |
| `Dom.Attr` | test.java:130-131 | `attr` gives the attribute's value, or `""` when the attribute is absent. |
| `HtmlToMarkdown.ConvertBlockquoteToMarkdown` | test.java:116-121 | The result equals `"> "` followed by the text with each newline replaced by `"\n> "`. |
| `HtmlToMarkdown.BlockquoteQuotesEveryLine` | test.java:118-119 | The quote starts with `"> "` and each newline in it is followed by `"> "`. It has as many newlines as the text and is 2 + 2·(newline count) characters longer. |
| `HtmlToMarkdown.BlockquoteSingleLine` | test.java:119 | Text without a newline is quoted as exactly `"> " + text`. |
| `Strings.CountReplaceChar` | test.java:119 | Replacing a character keeps the other characters and adds the replacement's characters once per occurrence. |
| `Strings.ReplaceCharFollowed` | test.java:119 | When the replacement is c followed by a c-free tail, every c of the result is directly followed by that tail. |
| `HtmlToMarkdown.ConvertPreformattedToMarkdown` | test.java:124-126 | The text appears unchanged between a ```` ``` ```` line and a closing ```` ``` ````, with no language tag. The result is 8 characters longer than the text. |
| `HtmlToMarkdown.ImageLabel` | test.java:130-133 | The label is the `alt` value when it is non-empty, and `Image` otherwise. It is never empty. |
| `HtmlToMarkdown.ConvertImageToMarkdown` | test.java:129-137 | Missing `alt` gives `"![Image](" + src + ")"`, and present `alt` gives `"![" + alt + "](" + src + ")"`. A missing `src` reads as `""`. |
| `HtmlToMarkdown.ParseReference` | test.java:132-136 | A reference `![label](target)` whose label holds no `]` is read back as that label and target. |
| `HtmlToMarkdown.ImageRoundTrip` | test.java:129-137 | When the label holds no `]`, the label and the `src` can be recovered from the output. |
| `HtmlToMarkdown.ImageValuesNotEscaped` | test.java:132-136 | Nothing is escaped. Alt `x](y` with src `z` and alt `x` with src `y](z` give the same output. |
| `HtmlToMarkdown.ConvertTableToMarkdown` | test.java:140-156 | The result equals the first `thead`'s section plus `"\n"` when there is one, then the first `tbody`'s section plus `"\n"` when there is one. |
| `HtmlToMarkdown.TableWithoutSections` | test.java:140-156 | A table with neither a `thead` nor a `tbody` in its subtree renders as `""`. |
| `HtmlToMarkdown.TableSectionOrder` | test.java:143-153 | With both sections present, the `thead` output comes before the `tbody` output, and each is followed by one newline. |
| `HtmlToMarkdown.TbodyOnlyTableHasSeparator` | test.java:150-180 | A table with a `tbody` but no `thead` still ends with a separator line sized by the tbody's first row, followed by a newline. |
| `HtmlToMarkdown.ConvertTableSectionToMarkdown` | test.java:159-183 | The result is all row lines in selection order. A separator as wide as the first row follows them, and there is no separator when the section has no `tr`. |
| `HtmlToMarkdown.EscapeCell` | test.java:166 | Escaped cell text holds no `\|`. Text without `\|` is unchanged, and each `\|` adds 5 characters (it becomes `&#124;`). |
| `HtmlToMarkdown.RowCellAt` | test.java:164-169 | Cell i of a row renders as `"\| " + escaped text + " "`, between the cells before and after it. The row line ends with `"\|\n"`. |
| `HtmlToMarkdown.CellAt` | test.java:165-168 | The same placement, stated for any run of cells. |
| `HtmlToMarkdown.CellsTextJoin` | test.java:165-168 | The cells of `a + b` render as those of `a` followed by those of `b`. |
| `HtmlToMarkdown.CellsTextPipeCount` | test.java:165-168 | The rendered cells of a row hold exactly one `\|` per cell. |
| `HtmlToMarkdown.RowPipeCount` | test.java:163-170 | A row line with m cells holds exactly m + 1 `\|` characters. |
| `HtmlToMarkdown.EmptyRow` | test.java:164-169 | A row without cells renders as `"\|\n"`. |
| `HtmlToMarkdown.SeparatorShape` | test.java:173-180 | A separator of width w has 4w + 2 characters: w + 1 `\|`, 3w `-` and one newline. |
| `Strings.DecimalRoundTrip` | test.java:108 | The decimal form of the counter parses back to its value, so distinct item numbers print differently. |
| `Strings.NatToString` | test.java:108 | The counter prints as at least one decimal digit, with no leading zero. |
| `Strings.RepeatChar` | test.java:87 | `"#".repeat(n)` is n characters, all of them `#`. |
| `ConversionExamples.SeparatorFollowsFirstRow` | test.java:140-183 | A table whose tbody has rows `A B` and `C` (and which has no `thead`) renders as exactly `"\| A \| B \|\n\| C \|\n\|---\|---\|\n\n"`. |
| `ConversionExamples.ImageExamples` | test.java:129-137 | An image with only `src="a.png"` gives `![Image](a.png)`, and `alt="x"` with `src="b.png"` gives `![x](b.png)`. |
| `ConversionExamples.PreformattedExample` | test.java:124-126 | `line1\nline2` is fenced with its line break intact. |
| `ConversionExamples.ExampleHeader` | test.java:85-88 | `h2` with text `Title` gives `## Title`. |
| `ConversionExamples.DocumentExample` | test.java:37-81 | An `h2`, a `p` and a `div` give `"## Title\n\nHello\n\n<div>x</div>\n\n"`. |
| `ConversionExamples.NestedListExample` | test.java:105-109 | An `ol` whose first item holds a nested `ol` gives `"1. a b\n2. b\n3. c\n"`. |

## Left out

- `main` (test.java:17-34) is left out. It builds a file path, parses the file with jsoup, prints the result and reports `IOException`. That is I/O, and the model starts from the body element that `doc.body()` returns.
- Parsing and the derivation of text and markup are left out. How jsoup builds the tree, normalises whitespace in `Element.text()` and serializes `outerHtml()` is foreign library behaviour. `text` and `outer` are fields taken as given. Text may hold newlines in the model, which covers the cases where jsoup keeps them.
- CSS selector evaluation is left out. `select("li")`, `select("tr")`, `select("td, th")` and `selectFirst(...)` are modelled as a preorder search by tag name.
- The regular-expression engine behind `replaceAll` (test.java:119, 166) is left out. Both patterns match one literal character, and neither replacement string holds `$` or `\`, so the calls are modelled as literal character replacement.
- The unused imports (test.java:5-8, 12-13) are left out.
- `Integer.parseInt` failure modes (test.java:86) are left out. The header renderer is only reached for `h1`..`h6`, so a header tag is its precondition.
- `HtmlToMarkdown.ConvertListToMarkdown`: the `ol` counter is a Java `int`, and the model counts with unbounded integers. It therefore does not model the wrap-around after 2^31 - 1 items, which no list of realistic size reaches.
- `HtmlToMarkdown.IsUnordered` and `HtmlToMarkdown.IsOrdered`: `equalsIgnoreCase` is modelled with ASCII case folding only. No non-ASCII character folds to `u`, `l` or `o`, so the outcome for the names `ul` and `ol` is the same.
- The dispatcher (test.java:43-45) matches the tag name exactly as the element reports it. The Java `switch` on `tagName()` at test.java:45 is case-sensitive and the code does no lower-casing, although one might expect case-insensitive matching. The model follows the code, and `TagCaseMatters` shows the consequence for names in other letter cases. jsoup's HTML parser itself reports tag names in lower case.
- The model takes `select` to include the element itself when its tag matches, as jsoup does. This never matters for the calls the engine makes: a `ul`/`ol` is never an `li`, a section is never a `tr`, and a row is never a `td` or `th`.
- `Dom.Select` and `Dom.Attr` compare tag names and attribute keys exactly. jsoup's tag query matches the element's lower-cased normal name and `attr` looks keys up ignoring case. On trees from jsoup's HTML parser, whose names are already lower case, the two agree. On a mixed-case tree they differ: `<ul><LI>x</LI></ul>` gives `"- x\n"` in jsoup and `""` in the model.
