/**
 XML as both codecs see it: elements, the text before the first child, and the text after each
 child (its tail). An absent text is the empty string, which neither codec tells from None.
 */
module Xml {
  import opened Utf8

  datatype Xml = Element(ns: string, name: string, text: string, children: seq<Child>)

  datatype Child = Child(element: Xml, tail: string)

  function Leaf(name: string, text: string): Xml {
    Element("", name, text, [])
  }

  function Parent(name: string, elements: seq<Xml>): Xml {
    Element("", name, "", Children(elements))
  }

  function Children(elements: seq<Xml>): (cs: seq<Child>)
    ensures |cs| == |elements|
    ensures forall i :: 0 <= i < |cs| ==> cs[i] == Child(elements[i], "")
  {
    seq(|elements|, i requires 0 <= i < |elements| => Child(elements[i], ""))
  }

  /** All text in the tree is made of characters XML allows: true of every parsed document. */
  predicate XmlText(e: Xml)
    decreases e, 1
  {
    IsXmlText(e.text) && XmlTexts(e.children)
  }

  predicate XmlTexts(cs: seq<Child>)
    decreases cs, 0
  {
    cs != [] ==> XmlText(cs[0].element) && IsXmlText(cs[0].tail) && XmlTexts(cs[1..])
  }

  /** Elements in the tree. */
  function Count(e: Xml): (n: nat)
    ensures 0 < n
    decreases e, 1
  {
    1 + CountAll(e.children)
  }

  function CountAll(cs: seq<Child>): nat
    decreases cs, 0
  {
    if cs == [] then 0 else Count(cs[0].element) + CountAll(cs[1..])
  }

  /** Levels of nesting. */
  function Depth(e: Xml): nat
    decreases e, 1
  {
    1 + DepthAll(e.children)
  }

  function DepthAll(cs: seq<Child>): nat
    decreases cs, 0
  {
    if cs == [] then 0 else Max(Depth(cs[0].element), DepthAll(cs[1..]))
  }

  function Max(a: nat, b: nat): nat { if a < b then b else a }

  /**
   What the encoder does to the tree first: indentation between elements is formatting and goes,
   white space in a leaf is data and stays (src/acs/protocol/omadm/wbxml.py:371-377).
   */
  function Stripped(e: Xml): Xml
    decreases e, 1
  {
    Element(e.ns, e.name, if e.children != [] && IsSpace(e.text) then "" else e.text, StrippedAll(e.children))
  }

  function StrippedAll(cs: seq<Child>): (r: seq<Child>)
    ensures |r| == |cs|
    decreases cs, 0
  {
    if cs == [] then []
    else [Child(Stripped(cs[0].element), if IsSpace(cs[0].tail) then "" else cs[0].tail)] + StrippedAll(cs[1..])
  }

  /** The tree with every unqualified element put in namespace ns. */
  function Qualified(e: Xml, ns: string): Xml
    decreases e, 1
  {
    Element(if e.ns == "" then ns else e.ns, e.name, e.text, QualifiedAll(e.children, ns))
  }

  function QualifiedAll(cs: seq<Child>, ns: string): (r: seq<Child>)
    ensures |r| == |cs|
    decreases cs, 0
  {
    if cs == [] then []
    else [Child(Qualified(cs[0].element, ns), cs[0].tail)] + QualifiedAll(cs[1..], ns)
  }
}
