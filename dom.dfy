/**
 * The parsed HTML tree as the converter sees it. The parser owns the tree;
 * the converter only reads an element's tag name, its attributes, its child
 * elements, its flattened text and its serialized markup, and searches its
 * subtree by tag name. The text and the markup are taken as given: how the
 * parser derives them is not modelled.
 */
module Dom {

  datatype Option<T> = None | Some(value: T)

  /**
   * One element: tag name, attributes, child elements in document order,
   * the text of the subtree (Element.text()) and its markup (Element.outerHtml()).
   */
  datatype Element = Element(
    tag: string,
    attrs: map<string, string>,
    children: seq<Element>,
    text: string,
    outer: string)

  /** Element.attr(key): the attribute's value, or "" when it is absent. */
  function Attr(e: Element, key: string): (v: string)
    ensures key in e.attrs ==> v == e.attrs[key]
    ensures key !in e.attrs ==> v == ""
  {
    if key in e.attrs then e.attrs[key] else ""
  }

  /**
   * Element.select with a tag-name query (a comma-separated query gives a set
   * of names): every element of the subtree rooted at e, e itself included,
   * whose tag is one of tags, in document order (preorder).
   */
  function Select(e: Element, tags: set<string>): (r: seq<Element>)
    ensures forall x :: x in r ==> x.tag in tags
    decreases e
  {
    (if e.tag in tags then [e] else []) + SelectAll(e.children, tags)
  }

  /** The selections of a run of sibling subtrees, one after the other. */
  function SelectAll(forest: seq<Element>, tags: set<string>): (r: seq<Element>)
    ensures forall x :: x in r ==> x.tag in tags
    decreases forest
  {
    if forest == [] then [] else Select(forest[0], tags) + SelectAll(forest[1..], tags)
  }

  /** Element.selectFirst with a tag-name query: the first match in document order, if any. */
  function SelectFirst(e: Element, tag: string): Option<Element>
    decreases e
  {
    if e.tag == tag then Some(e) else FirstOf(e.children, tag)
  }

  function FirstOf(forest: seq<Element>, tag: string): Option<Element>
    decreases forest
  {
    if forest == [] then None
    else match SelectFirst(forest[0], tag)
      case Some(x) => Some(x)
      case None => FirstOf(forest[1..], tag)
  }

  function Head(s: seq<Element>): Option<Element>
  {
    if s == [] then None else Some(s[0])
  }

  /** selectFirst finds exactly the first element that select returns. */
  lemma {:induction false} SelectFirstIsFirstSelected(e: Element, tag: string)
    ensures SelectFirst(e, tag) == Head(Select(e, {tag}))
    decreases e
  {
    if e.tag != tag {
      FirstOfIsFirstSelected(e.children, tag);
      assert Select(e, {tag}) == SelectAll(e.children, {tag});
    }
  }

  lemma {:induction false} FirstOfIsFirstSelected(forest: seq<Element>, tag: string)
    ensures FirstOf(forest, tag) == Head(SelectAll(forest, {tag}))
    decreases forest
  {
    if forest != [] {
      SelectFirstIsFirstSelected(forest[0], tag);
      FirstOfIsFirstSelected(forest[1..], tag);
    }
  }

  /**
   * The search reaches the whole subtree: whatever matches inside a child also
   * occurs in the parent's selection, so nested lists and tables are flattened
   * into the outer element's selection.
   */
  lemma {:induction false} SelectReachesChildren(e: Element, child: Element, tags: set<string>)
    requires child in e.children
    ensures forall x :: x in Select(child, tags) ==> x in Select(e, tags)
  {
    SelectAllContains(e.children, child, tags);
  }

  lemma {:induction false} SelectAllContains(forest: seq<Element>, tree: Element, tags: set<string>)
    requires tree in forest
    ensures forall x :: x in Select(tree, tags) ==> x in SelectAll(forest, tags)
    decreases forest
  {
    if forest[0] != tree {
      SelectAllContains(forest[1..], tree, tags);
    }
  }
}
