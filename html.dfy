/** The parsed HTML document, reduced to what the scraper's queries can observe.
    The HTML library and its CSS selector engine are replaced by this plain data:
    which elements each selector matches, every table with its cells, and every text
    node with the path from it to the table that follows its enclosing div. */
module Html {
  import opened Wrappers
  import opened Text

  /** The text of one element or cell, as the list of its descendant text nodes. */
  type Fragments = seq<string>

  /** `.text`: the text nodes joined with nothing between them. */
  function TextOf(f: Fragments): string {
    Concat(f)
  }

  /** `.get_text(strip=True)`: each text node stripped, then joined. */
  function StrippedTextOf(f: Fragments): string
    decreases |f|
  {
    if f == [] then "" else Strip(f[0]) + StrippedTextOf(f[1..])
  }

  /** An attribute value: multi-valued attributes such as `class` come back as a list. */
  datatype AttrValue = Single(text: string) | Multi(items: seq<string>)

  /** A `tr`: its descendant `td` cells in order, and whether it sits inside a `tbody`. */
  datatype Row = Row(cells: seq<Fragments>, inBody: bool)

  /** An element: its text, attributes, and its descendant `th` cells and `tr` rows. */
  datatype Element = Element(
    text: Fragments,
    attrs: map<string, AttrValue>,
    headerCells: seq<Fragments>,
    rows: seq<Row>)

  /** Where a text node leads: to no enclosing div, or to an enclosing div and the first
      table that follows the start of that div (find_parent("div"), find_next("table")). */
  datatype Anchor = NoParentDiv | ParentDiv(nextTable: Option<Element>)

  datatype TextNode = TextNode(text: string, anchor: Anchor)

  datatype Document = Document(
    selected: map<string, seq<Element>>,  // selector -> matches in document order
    rejected: set<string>,                // selectors the engine raises on
    tables: seq<Element>,                 // every table in document order
    strings: seq<TextNode>)               // every text node in document order

  /** `select(selector)`: None when the selector engine raises, else the matches. */
  function Select(doc: Document, selector: string): Option<seq<Element>> {
    if selector in doc.rejected then None
    else if selector in doc.selected then Some(doc.selected[selector])
    else Some([])
  }

  /** `find(string=lambda t: t and heading in t)`: the first text node containing `heading`. */
  function FindString(nodes: seq<TextNode>, heading: string): (r: Option<TextNode>)
    ensures r.Some? ==> r.value in nodes && Contains(r.value.text, heading)
    ensures r.Some? ==> r.value.text != ""
    ensures r.None? ==> forall n :: n in nodes ==> n.text == "" || !Contains(n.text, heading)
  {
    if nodes == [] then None
    else if nodes[0].text != "" && Contains(nodes[0].text, heading) then Some(nodes[0])
    else FindString(nodes[1..], heading)
  }

  /** The table reached from the first text node containing `heading`, if every step
      (text node, parent div, following table) exists. */
  function SectionTable(doc: Document, heading: string): Option<Element> {
    match FindString(doc.strings, heading)
    case None => None
    case Some(node) =>
      match node.anchor
      case NoParentDiv => None
      case ParentDiv(t) => t
  }
}
