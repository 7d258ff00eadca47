/** The parsed page, reduced to what the harness reads from it: every element
    in document order, each with its tag, attributes, child elements, text
    and inner markup. This stands in for the DOM crawler library. */
module Dom {
  import opened Wrappers

  datatype Element = Element(
    tag: string,
    attrs: map<string, string>,
    children: seq<Element>,
    text: string,
    html: string)

  /** All elements of the current page, in document order. */
  type Document = seq<Element>

  /** `Crawler::attr($name)`: null when the attribute is absent. */
  function Attr(e: Element, name: string): Option<string>
  {
    if name in e.attrs then Some(e.attrs[name]) else None
  }

  /** `DOMElement::getAttribute($name)`: the empty string when absent. */
  function GetAttribute(e: Element, name: string): string
  {
    if name in e.attrs then e.attrs[name] else ""
  }

  predicate HasAttribute(e: Element, name: string)
  {
    name in e.attrs
  }
}
