/**
 Documents as they are sent, byte by byte, and what is received of them. WAP-192 (WBXML 1.3) sections 5 and 7,
 and src/acs/protocol/omadm/wbxml.py:16-41, :188-295 and :329-433.

 The codec's own constants and tables do not appear in these statements.
 */
module WbxmlWire {
  import opened Wrappers
  import opened Xml
  import opened WbxmlFormat
  import opened WbxmlDecoder
  import opened WbxmlParse
  import opened WbxmlTags
  import E = WbxmlEncoder
  import R = WbxmlRoundTrip
  import Utf8

  // ---- a short document is within the limits ----

  function Bound(e: Xml): nat
    decreases e, 1
  {
    400 + 8 * |e.name| + 20 * |e.text| + BoundAll(e.children)
  }

  function BoundAll(cs: seq<Child>): nat
    decreases cs, 0
  {
    if cs == [] then 0 else Bound(cs[0].element) + 20 * |cs[0].tail| + BoundAll(cs[1..])
  }

  lemma TextIsBounded(text: string)
    ensures SizeOf(TextEvents(text)) <= 20 * |text|
  {
    if text != "" {
      R.SizeOfOne(Text(text));
      EventIsShort(Text(text));
    }
    hide Size;
  }

  lemma {:induction false} SizeIsBounded(e: Xml, declares: Option<string>)
    requires declares.Some? ==> |declares.value| <= 20
    ensures SizeOf(EventsOf(e, declares)) <= Bound(e)
    decreases e, 1
  {
    hide Size; hide SizeOf;
    EventIsShort(Start(TagOf(e), declares));
    EventIsShort(Empty(TagOf(e), declares));
    EventIsShort(Event.End(TagOf(e)));
    if E.HasContent(e) {
      R.SizeOfContent(e, declares);
      TextIsBounded(e.text);
      SizesAreBounded(e.children);
    } else {
      R.SizeOfOne(Empty(TagOf(e), declares));
    }
  }

  lemma {:induction false} SizesAreBounded(cs: seq<Child>)
    ensures SizeOf(EventsOfAll(cs)) <= BoundAll(cs)
    decreases cs, 0
  {
    if cs != [] {
      R.SizeOfChildren(cs);
      SizeIsBounded(cs[0].element, None);
      TextIsBounded(cs[0].tail);
      SizesAreBounded(cs[1..]);
    }
    hide Size;
  }

  /** A document without formatting that is sent is received. */
  lemma SentIsReceived(tree: Xml, version: byte, choice: E.PublicChoice, useStringTable: bool, opaqueText: bool)
    requires XmlText(tree) && Stripped(tree) == tree
    requires E.Encode(tree, version, choice, useStringTable, opaqueText).Some?
    requires |E.Encode(tree, version, choice, useStringTable, opaqueText).value| <= 500000
    requires Bound(tree) <= 2000000 && Depth(tree) <= 60 && Count(tree) <= 10000
    ensures var id := E.NumericId(tree, choice);
            && (id == 0x0FD3 || id == 0x1201)
            && Received(E.Encode(tree, version, choice, useStringTable, opaqueText).value)
               == Some(Qualified(tree, if id == 0x0FD3 then "SYNCML:SYNCML1.1" else "SYNCML:SYNCML1.2"))
  {
    R.RoundTrip(tree, version, choice, useStringTable, opaqueText);
    SizeIsBounded(tree, Some(PublicNamespace(E.NumericId(tree, choice))));
    hide E.Encode; hide Decode; hide ParseDocument; hide Qualified; hide Stripped; hide Bound; hide EventsOf;
  }

  // ---- whole documents, as they are sent ----

  lemma TokenIs(page: nat, name: string, from: nat, token: nat)
    requires 5 <= from <= token < 0x40
    requires TagName(page, token) == Some(name) && forall t: nat :: from <= t < token ==> TagName(page, t) != Some(name)
    ensures Search(page, name, from) == Some(token as byte)
    decreases token - from
  {
    hide TagName;
    if from < token { TokenIs(page, name, from + 1, token); }
  }

  lemma SyncMLToken()
    ensures TagToken(0, "SyncML") == Some(0x2D)
  {
    TokenIs(0, "SyncML", 5, 0x2D);
  }

  lemma SyncHdrToken()
    ensures TagToken(0, "SyncHdr") == Some(0x2C)
  {
    TokenIs(0, "SyncHdr", 5, 0x2C);
  }

  lemma VerDTDToken()
    ensures TagToken(0, "VerDTD") == Some(0x31)
  {
    TokenIs(0, "VerDTD", 5, 0x31);
  }

  lemma VerProtoToken()
    ensures TagToken(0, "VerProto") == Some(0x32)
  {
    TokenIs(0, "VerProto", 5, 0x32);
  }

  lemma MetaToken()
    ensures TagToken(0, "Meta") == Some(0x1A)
  {
    TokenIs(0, "Meta", 5, 0x1A);
  }

  lemma MaxMsgSizeToken()
    ensures TagToken(1, "MaxMsgSize") == Some(0x0C)
  {
    TokenIs(1, "MaxMsgSize", 5, 0x0C);
  }

  /** An element with content is its tag with bit 0x40, its text, its children and 0x01. */
  lemma Around(e: Xml, from: nat, page: nat, token: byte, c: E.Coding, inner: Bytes, after: nat)
    requires E.TagPage(e.ns, c.syncmlNs) == Some(page) && page < 2 && TagToken(page, e.name) == Some(token)
    requires E.HasContent(e) && E.ChildrenBytes(e.children, page, c) == Some((inner, after))
    ensures E.ElementBytes(e, from, c)
         == Some(((if from == page then [] else [0, page as byte])
                  + ([token + 0x40] + E.TextToken(e.text, c) + inner + [1]), after))
  {
    hide TagToken; hide E.TextToken; hide E.ChildrenBytes;
  }

  lemma NoChildren(page: nat, c: E.Coding)
    ensures E.ChildrenBytes([], page, c) == Some(([], page))
  {
  }

  lemma FirstChild(x: Xml, rest: seq<Child>, page: nat, c: E.Coding, b: Bytes, p: nat, more: Bytes, q: nat)
    requires E.ElementBytes(x, page, c) == Some((b, p)) && E.ChildrenBytes(rest, p, c) == Some((more, q))
    ensures E.ChildrenBytes([Child(x, "")] + rest, page, c) == Some((b + more, q))
  {
    hide E.ElementBytes;
    assert ([Child(x, "")] + rest)[1..] == rest;
    assert b + [] + more == b + more;
  }

  /** A leaf on page 0 with its text. */
  lemma LeafBytes(name: string, text: string, page: nat, token: byte, c: E.Coding)
    requires TagToken(0, name) == Some(token) && text != ""
    ensures E.ElementBytes(Leaf(name, text), page, c)
         == Some(((if page == 0 then [] else [0, 0]) + ([token + 0x40] + E.TextToken(text, c) + [1]), 0))
  {
    NoChildren(0, c);
    Around(Leaf(name, text), page, 0, token, c, [], 0);
    assert [token + 0x40] + E.TextToken(text, c) + [] + [1] == [token + 0x40] + E.TextToken(text, c) + [1];
    hide TagToken; hide E.TextToken; hide E.ElementBytes;
  }

  function Rooted(ns: string, children: seq<Child>): Xml {
    Element(ns, "SyncML", "", [Child(Element("", "SyncHdr", "", children), "")])
  }

  lemma NoText(c: E.Coding)
    ensures E.TextToken("", c) == []
  {
  }

  lemma Wrapped(inner: Bytes)
    ensures [] + ([0x2C + 0x40] + [] + inner + [1]) == [0x6C] + inner + [1]
    ensures [] + ([0x2D + 0x40] + [] + ([0x6C] + inner + [1]) + [1]) == [0x6D, 0x6C] + inner + [1, 1]
  {
  }

  lemma HdrBytes(children: seq<Child>, c: E.Coding, inner: Bytes, after: nat)
    requires children != [] && E.ChildrenBytes(children, 0, c) == Some((inner, after))
    ensures E.ChildrenBytes([Child(Element("", "SyncHdr", "", children), "")], 0, c)
         == Some(([0x6C] + inner + [1], after))
  {
    SyncHdrToken();
    var hdr := Element("", "SyncHdr", "", children);
    Around(hdr, 0, 0, 0x2C, c, inner, after);
    hide TagToken; hide E.ElementBytes; hide E.ChildrenBytes; hide E.TextToken;
    NoText(c);
    Wrapped(inner);
    NoChildren(after, c);
    FirstChild(hdr, [], 0, c, [0x6C] + inner + [1], after, [], after);
    assert [Child(hdr, "")] + [] == [Child(hdr, "")];
    assert [0x6C] + inner + [1] + [] == [0x6C] + inner + [1];
  }

  /** A root with a header in it: 6D 6C, what is in the header, 01 01. */
  lemma RootBytes(ns: string, children: seq<Child>, c: E.Coding, inner: Bytes, after: nat)
    requires children != [] && E.ChildrenBytes(children, 0, c) == Some((inner, after))
    requires E.TagPage(ns, c.syncmlNs) == Some(0)
    ensures E.ElementBytes(Rooted(ns, children), 0, c) == Some(([0x6D, 0x6C] + inner + [1, 1], after))
  {
    SyncMLToken();
    HdrBytes(children, c, inner, after);
    hide TagToken; hide E.ChildrenBytes; hide E.TextToken;
    NoText(c);
    Wrapped(inner);
    Around(Rooted(ns, children), 0, 0, 0x2D, c, [0x6C] + inner + [1], after);
    hide E.ElementBytes;
  }

  // ---- inline and opaque text, both pages, an empty element ----

  /** A header with a text, a text on the other page, and an element without content. */
  function Full(rootNs: string, ns: string, text: string, size: string): Xml {
    var meta := Element(ns, "Meta", "", [Child(Element("syncml:metinf", "MaxMsgSize", size, []), "")]);
    Element(rootNs, "SyncML", "", [Child(Element(ns, "SyncHdr", "",
      [Child(Element(ns, "VerDTD", text, []), ""), Child(meta, ""), Child(Element(ns, "VerProto", "", []), "")]), "")])
  }

  /** Its bytes, for the bytes of the two texts. */
  function FullBytes(text: Bytes, size: Bytes): Bytes {
    [0x6D, 0x6C, 0x71] + text + [1, 0x5A, 0, 1, 0x4C] + size + [1, 1, 0, 0, 0x32, 1, 1]
  }

  /** The two forms of a text on its own. */
  function Inline(text: string): Bytes {
    [3] + Utf8.Encode(text) + [0]
  }

  function Opaque(text: string): Bytes
    requires |Utf8.Encode(text)| < 128
  {
    [0xC3, |Utf8.Encode(text)| as byte] + Utf8.Encode(text)
  }

  lemma TextIs(text: string, c: E.Coding)
    requires text != "" && text !in c.offsets
    ensures !c.opaqueText ==> E.TextToken(text, c) == Inline(text)
    ensures c.opaqueText && |Utf8.Encode(text)| < 128 ==> E.TextToken(text, c) == Opaque(text)
  {
    if |Utf8.Encode(text)| < 128 { ShortInteger(|Utf8.Encode(text)|); }
    hide MbUint32; hide Utf8.Encode;
  }

  lemma SizeBytes(size: string, c: E.Coding)
    requires size != ""
    ensures E.ElementBytes(Parent("Meta", [Element("syncml:metinf", "MaxMsgSize", size, [])]), 0, c)
         == Some(([0x5A, 0, 1, 0x4C] + E.TextToken(size, c) + [1, 1], 1))
  {
    MetaToken(); MaxMsgSizeToken();
    var x := Element("syncml:metinf", "MaxMsgSize", size, []);
    var t := E.TextToken(size, c);
    NoChildren(1, c);
    Around(x, 0, 1, 0x0C, c, [], 1);
    hide TagToken; hide E.ElementBytes; hide E.ChildrenBytes; hide E.TextToken;
    var b := [0, 1] + ([0x4C] + t + [] + [1]);
    FirstChild(x, [], 0, c, b, 1, [], 1);
    OneChild(x);
    NoText(c);
    Around(Parent("Meta", [x]), 0, 0, 0x1A, c, b + [], 1);
    SizeJoins(t);
  }

  lemma OneChild(x: Xml)
    ensures [Child(x, "")] + [] == [Child(x, "")] == Children([x])
  {
  }

  lemma SizeJoins(t: Bytes)
    ensures [] + ([0x5A] + [] + (([0, 1] + ([0x4C] + t + [] + [1])) + []) + [1]) == [0x5A, 0, 1, 0x4C] + t + [1, 1]
  {
  }

  lemma BareBytes(c: E.Coding)
    ensures E.ElementBytes(Leaf("VerProto", ""), 1, c) == Some(([0, 0, 0x32], 0))
  {
    VerProtoToken();
    hide TagToken;
    assert [0, 0] + [0x32 as byte] == [0, 0, 0x32];
  }

  lemma FullBody(rootNs: string, text: string, size: string, c: E.Coding)
    requires text != "" && size != "" && E.TagPage(rootNs, c.syncmlNs) == Some(0)
    ensures E.ElementBytes(Full(rootNs, "", text, size), 0, c)
         == Some((FullBytes(E.TextToken(text, c), E.TextToken(size, c)), 0))
  {
    hide TagToken; hide E.ElementBytes; hide E.TextToken; hide E.ChildrenBytes;
    var (x, y, z) := (Leaf("VerDTD", text), Parent("Meta", [Element("syncml:metinf", "MaxMsgSize", size, [])]),
                      Leaf("VerProto", ""));
    var (t, u) := (E.TextToken(text, c), E.TextToken(size, c));
    var (a, b, d) := ([] + ([0x71] + t + [1]), [0x5A, 0, 1, 0x4C] + u + [1, 1], [0, 0, 0x32]);
    VerDTDToken();
    LeafBytes("VerDTD", text, 0, 0x31, c);
    SizeBytes(size, c);
    BareBytes(c);
    NoChildren(0, c);
    FirstChild(z, [], 1, c, d, 0, [], 0);
    FirstChild(y, [Child(z, "")] + [], 0, c, b, 1, d + [], 0);
    FirstChild(x, [Child(y, "")] + ([Child(z, "")] + []), 0, c, a, 0, b + (d + []), 0);
    var children := [Child(x, ""), Child(y, ""), Child(z, "")];
    assert [Child(x, "")] + ([Child(y, "")] + ([Child(z, "")] + [])) == children;
    RootBytes(rootNs, children, c, a + (b + (d + [])), 0);
    OneChild(Element("syncml:metinf", "MaxMsgSize", size, []));
    assert Full(rootNs, "", text, size) == Rooted(rootNs, children);
    FullJoins(t, u);
  }

  lemma FullJoins(t: Bytes, u: Bytes)
    ensures [0x6D, 0x6C] + (([] + ([0x71] + t + [1])) + (([0x5A, 0, 1, 0x4C] + u + [1, 1]) + ([0, 0, 0x32] + [])))
            + [1, 1] == FullBytes(t, u)
  {
  }

  // ---- with the public identifier as a number ----

  const NS11 := "SYNCML:SYNCML1.1"

  /** No formatting, valid text, and this much of it. */
  ghost predicate Plain(e: Xml, depth: nat, count: nat, bound: nat) {
    Stripped(e) == e && XmlText(e) && Depth(e) == depth && Count(e) == count && Bound(e) <= bound
  }

  ghost predicate PlainAll(cs: seq<Child>, depth: nat, count: nat, bound: nat) {
    StrippedAll(cs) == cs && XmlTexts(cs) && DepthAll(cs) == depth && CountAll(cs) == count && BoundAll(cs) <= bound
  }

  lemma LeafIsPlain(ns: string, name: string, text: string)
    requires Utf8.IsXmlText(text)
    ensures Plain(Element(ns, name, text, []), 1, 1, 400 + 8 * |name| + 20 * |text|)
  {
  }

  lemma NodeIsPlain(ns: string, name: string, cs: seq<Child>, depth: nat, count: nat, bound: nat)
    requires PlainAll(cs, depth, count, bound)
    ensures Plain(Element(ns, name, "", cs), 1 + depth, 1 + count, 400 + 8 * |name| + bound)
  {
    hide StrippedAll; hide XmlTexts; hide DepthAll; hide CountAll; hide BoundAll;
  }

  lemma NoneIsPlain()
    ensures PlainAll([], 0, 0, 0)
  {
  }

  lemma MoreIsPlain(x: Xml, d: nat, n: nat, b: nat, cs: seq<Child>, depth: nat, count: nat, bound: nat)
    requires Plain(x, d, n, b) && PlainAll(cs, depth, count, bound)
    ensures PlainAll([Child(x, "")] + cs, Max(d, depth), n + count, b + bound)
  {
    hide Stripped; hide XmlText; hide Depth; hide Count; hide Bound;
    assert ([Child(x, "")] + cs)[1..] == cs;
  }

  lemma FullIsPlain(rootNs: string, text: string, size: string)
    requires Utf8.IsXmlText(text) && Utf8.IsXmlText(size)
    ensures Plain(Full(rootNs, "", text, size), 4, 6, 3000 + 20 * |text| + 20 * |size|)
  {
    hide Plain; hide PlainAll;
    var x := Element("syncml:metinf", "MaxMsgSize", size, []);
    var (y, v, z) := (Element("", "Meta", "", [Child(x, "")]), Leaf("VerDTD", text), Leaf("VerProto", ""));
    var cs := [Child(v, ""), Child(y, ""), Child(z, "")];
    var h := Element("", "SyncHdr", "", cs);
    LeafIsPlain("syncml:metinf", "MaxMsgSize", size);
    LeafIsPlain("", "VerDTD", text);
    LeafIsPlain("", "VerProto", "");
    NoneIsPlain();
    var (a, b) := (480 + 20 * |size|, 448 + 20 * |text|);
    MoreIsPlain(x, 1, 1, a, [], 0, 0, 0);
    assert [Child(x, "")] + [] == [Child(x, "")];
    NodeIsPlain("", "Meta", [Child(x, "")], 1, 1, a);
    MoreIsPlain(z, 1, 1, 464, [], 0, 0, 0);
    MoreIsPlain(y, 2, 2, 432 + a, [Child(z, "")] + [], 1, 1, 464);
    MoreIsPlain(v, 1, 1, b, [Child(y, "")] + ([Child(z, "")] + []), 2, 3, 432 + a + 464);
    assert [Child(v, "")] + ([Child(y, "")] + ([Child(z, "")] + [])) == cs;
    NodeIsPlain("", "SyncHdr", cs, 2, 4, b + (432 + a + 464));
    MoreIsPlain(h, 3, 5, 456 + (b + (432 + a + 464)), [], 0, 0, 0);
    assert [Child(h, "")] + [] == [Child(h, "")];
    NodeIsPlain(rootNs, "SyncML", [Child(h, "")], 3, 5, 456 + (b + (432 + a + 464)));
    assert Full(rootNs, "", text, size) == Element(rootNs, "SyncML", "", [Child(h, "")]);
    Plainer(Full(rootNs, "", text, size), 4, 6, 448 + (456 + (b + (432 + a + 464))), 3000 + 20 * |text| + 20 * |size|);
  }

  lemma Plainer(e: Xml, depth: nat, count: nat, low: nat, high: nat)
    requires Plain(e, depth, count, low) && low <= high
    ensures Plain(e, depth, count, high)
  {
  }

  /** The public identifier of a SyncML version, as a number on the wire and as the namespace it stands for. */
  function IdBytes(eleven: bool): Bytes {
    if eleven then [0x9F, 0x53] else [0xA4, 1]
  }

  function NamespaceOf(eleven: bool): string {
    if eleven then NS11 else NS12
  }

  lemma PreambleIs(version: byte, eleven: bool)
    ensures E.Preamble(version, E.Derived, if eleven then 0x0FD3 else 0x1201, [])
         == [version] + IdBytes(eleven) + [0x6A, 0]
  {
    TwoBytes();
    ShortInteger(106);
    ShortInteger(0);
    hide MbUint32;
  }

  /** A payload of a plain tree: version, identifier, charset 0x6A, an empty string table, and the body. */
  lemma IsSent(tree: Xml, version: byte, eleven: bool, opaqueText: bool, body: Bytes, depth: nat, count: nat,
               bound: nat)
    requires Plain(tree, depth, count, bound) && depth <= 60 && count <= 10000
    requires version in {2, 3} && tree.name == "SyncML" && tree.ns == NamespaceOf(eleven) && |body| <= 490000
    requires var c := E.Coding(NamespaceOf(eleven), opaqueText, map[]);
             E.ElementBytes(tree, 0, c).Some? && E.ElementBytes(tree, 0, c).value.0 == body
    ensures E.Encode(tree, version, E.Derived, false, opaqueText)
         == Some([version] + IdBytes(eleven) + [0x6A, 0] + body)
  {
    PreambleIs(version, eleven);
    hide Bound; hide Stripped; hide XmlText; hide E.ElementBytes; hide E.Preamble; hide Count; hide Depth;
    assert E.StringTable(tree, E.Derived, false, opaqueText) == E.Table([], map[]) by { hide E.TextsOf; }
  }

  lemma BodyIsShort(t: Bytes, u: Bytes)
    ensures |FullBytes(t, u)| == |t| + |u| + 15
  {
  }

  lemma InlineIsShort(text: string)
    ensures |Inline(text)| <= 4 * |text| + 2
  {
    Utf8IsShort(text);
  }

  /** The names a tree is sent under are those it is received under. */
  lemma FullIsQualified(ns: string, text: string, size: string)
    requires ns != ""
    ensures Qualified(Full(ns, "", text, size), ns) == Full(ns, ns, text, size)
  {
    var (x, v, z) := (Element("syncml:metinf", "MaxMsgSize", size, []), Leaf("VerDTD", text), Leaf("VerProto", ""));
    var y := Element("", "Meta", "", [Child(x, "")]);
    QualifiedOne(x, [], ns);
    QualifiedOne(z, [], ns);
    QualifiedOne(y, [Child(z, "")], ns);
    QualifiedOne(v, [Child(y, ""), Child(z, "")], ns);
    assert [Child(v, "")] + [Child(y, ""), Child(z, "")] == [Child(v, ""), Child(y, ""), Child(z, "")];
    assert [Child(y, "")] + [Child(z, "")] == [Child(y, ""), Child(z, "")];
    var h := Element("", "SyncHdr", "", [Child(v, ""), Child(y, ""), Child(z, "")]);
    QualifiedOne(h, [], ns);
    hide QualifiedAll;
    assert Qualified(x, ns) == x && Qualified(v, ns) == Element(ns, "VerDTD", text, []);
    assert Qualified(y, ns) == Element(ns, "Meta", "", [Child(x, "")]);
    assert QualifiedAll([Child(v, ""), Child(y, ""), Child(z, "")], ns)
        == [Child(Qualified(v, ns), ""), Child(Qualified(y, ns), ""), Child(Qualified(z, ns), "")];
  }

  lemma QualifiedOne(x: Xml, more: seq<Child>, ns: string)
    ensures QualifiedAll([Child(x, "")] + more, ns) == [Child(Qualified(x, ns), "")] + QualifiedAll(more, ns)
    ensures more == [] ==> QualifiedAll([Child(x, "")], ns) == [Child(Qualified(x, ns), "")]
    ensures QualifiedAll([], ns) == []
  {
    assert ([Child(x, "")] + more)[1..] == more;
    if more == [] { assert [Child(x, "")] + more == [Child(x, "")]; }
  }

  /** Inline strings: in both versions and under both identifiers, for every two texts. */
  lemma InlineOnTheWire(version: byte, eleven: bool, text: string, size: string)
    requires version in {2, 3} && text != "" && size != "" && |text| <= 10000 && |size| <= 10000
    requires Utf8.IsXmlText(text) && Utf8.IsXmlText(size)
    ensures var (ns, payload) := (NamespaceOf(eleven), [version] + IdBytes(eleven) + [0x6A, 0]
                                                       + FullBytes(Inline(text), Inline(size)));
            && E.Encode(Full(ns, "", text, size), version, E.Derived, false, false) == Some(payload)
            && Received(payload) == Some(Full(ns, ns, text, size))
  {
    hide Received; hide E.Encode; hide Inline; hide Full; hide FullBytes; hide Qualified; hide E.ElementBytes;
    hide E.TextToken;
    var ns := NamespaceOf(eleven);
    var (tree, c) := (Full(ns, "", text, size), E.Coding(ns, false, map[]));
    TextIs(text, c);
    TextIs(size, c);
    FullBody(ns, text, size, c);
    FullIsPlain(ns, text, size);
    InlineIsShort(text);
    InlineIsShort(size);
    BodyIsShort(Inline(text), Inline(size));
    FullParts(ns, text, size);
    IsSent(tree, version, eleven, false, FullBytes(Inline(text), Inline(size)), 4, 6, 3000 + 20 * |text| + 20 * |size|);
    FullIsQualified(ns, text, size);
    PlainIsReceived(tree, version, eleven, false);
  }

  lemma FullParts(ns: string, text: string, size: string)
    ensures Full(ns, "", text, size).name == "SyncML" && Full(ns, "", text, size).ns == ns
  {
  }

  lemma PlainIsReceived(tree: Xml, version: byte, eleven: bool, opaqueText: bool)
    requires exists bound: nat :: Plain(tree, 4, 6, bound) && bound <= 2000000
    requires tree.ns == NamespaceOf(eleven)
    requires E.Encode(tree, version, E.Derived, false, opaqueText).Some?
    requires |E.Encode(tree, version, E.Derived, false, opaqueText).value| <= 500000
    ensures Received(E.Encode(tree, version, E.Derived, false, opaqueText).value)
         == Some(Qualified(tree, NamespaceOf(eleven)))
  {
    hide E.Encode; hide Received; hide Qualified;
    SentIsReceived(tree, version, E.Derived, false, opaqueText);
  }

  /** Opaque text: its length in one byte, for texts that short. */
  lemma OpaqueOnTheWire(version: byte, eleven: bool, text: string, size: string)
    requires version in {2, 3} && text != "" && size != ""
    requires |Utf8.Encode(text)| < 128 && |Utf8.Encode(size)| < 128
    requires Utf8.IsXmlText(text) && Utf8.IsXmlText(size)
    ensures var (ns, payload) := (NamespaceOf(eleven), [version] + IdBytes(eleven) + [0x6A, 0]
                                                       + FullBytes(Opaque(text), Opaque(size)));
            && E.Encode(Full(ns, "", text, size), version, E.Derived, false, true) == Some(payload)
            && Received(payload) == Some(Full(ns, ns, text, size))
  {
    hide Received; hide E.Encode; hide Full; hide FullBytes; hide Qualified; hide E.ElementBytes;
    hide E.TextToken; hide Utf8.Encode;
    var ns := NamespaceOf(eleven);
    var (tree, c) := (Full(ns, "", text, size), E.Coding(ns, true, map[]));
    TextIs(text, c);
    TextIs(size, c);
    FullBody(ns, text, size, c);
    FullIsPlain(ns, text, size);
    BodyIsShort(Opaque(text), Opaque(size));
    FullParts(ns, text, size);
    IsSent(tree, version, eleven, true, FullBytes(Opaque(text), Opaque(size)), 4, 6, 3000 + 20 * |text| + 20 * |size|);
    FullIsQualified(ns, text, size);
    PlainIsReceived(tree, version, eleven, true);
  }

  // ---- with the public identifier by its name, and a shared text ----

  function NameOf(eleven: bool): string {
    if eleven then "-//SYNCML//DTD SyncML 1.1//EN" else "-//SYNCML//DTD SyncML 1.2//EN"
  }

  lemma {:induction false} AsciiKeepsLength(s: string)
    requires forall i :: 0 <= i < |s| ==> s[i] as int < 0x80
    ensures |Utf8.Encode(s)| == |s|
  {
    if s != "" { AsciiKeepsLength(s[1..]); }
  }

  lemma NameIsAscii(eleven: bool)
    ensures |Utf8.Encode(NameOf(eleven))| == 29 == |NameOf(eleven)|
  {
    hide Utf8.Encode;
    if eleven {
      AsciiKeepsLength("-//SYNCML//DTD SyncML 1.1//EN");
    } else {
      AsciiKeepsLength("-//SYNCML//DTD SyncML 1.2//EN");
    }
  }

  /** A header with the same text twice. */
  function Twice(ns: string, text: string): Xml {
    Element(ns, "SyncML", "", [Child(Element(ns, "SyncHdr", "",
      [Child(Element(ns, "VerDTD", text, []), ""), Child(Element(ns, "VerProto", text, []), "")]), "")])
  }

  function TwiceSent(ns: string, text: string): Xml {
    Rooted(ns, [Child(Leaf("VerDTD", text), ""), Child(Leaf("VerProto", text), "")])
  }

  lemma {:induction false} TextsOfTwice(ns: string, text: string)
    ensures E.TextsOf(TwiceSent(ns, text), "") == ["", "", "", "", text, "", text, ""]
  {
    var (x, y) := (Leaf("VerDTD", text), Leaf("VerProto", text));
    var cs := [Child(x, ""), Child(y, "")];
    assert cs[1..] == [Child(y, "")] && cs[1..][1..] == [];
    assert E.TextsOfAll([Child(y, "")]) == [text, ""];
    assert E.TextsOfAll(cs) == [text, "", text, ""];
    var h := Element("", "SyncHdr", "", cs);
    assert [Child(h, "")][1..] == [];
    assert E.TextsOfAll([Child(h, "")]) == ["", "", text, "", text, ""];
  }

  lemma OnlyTheText(text: string)
    requires text != "" && |Utf8.Encode(text)| > 3
    ensures var texts := ["", "", "", "", text, "", text, ""];
            E.Worthwhile(text, texts) && !E.Worthwhile("", texts)
  {
    var texts := ["", "", "", "", text, "", text, ""];
    assert multiset(texts) == multiset{"", "", "", "", text, "", text, ""};
    hide Utf8.Encode;
  }

  lemma SharedOnce(t: E.Table, text: string)
    requires text != "" && text !in t.offsets && |Utf8.Encode(text)| > 3
    ensures var texts := ["", "", "", "", text, "", text, ""]; E.Share(t, texts, |texts|) == E.AddEntry(t, text)
  {
    hide E.Worthwhile; hide Utf8.Encode; hide E.AddEntry; hide E.Share;
    var texts := ["", "", "", "", text, "", text, ""];
    OnlyTheText(text);
    var u := E.AddEntry(t, text);
    TextIsIn(t, text);
    Skips(t, t, texts, 0);
    Skips(t, t, texts, 1);
    Skips(t, t, texts, 2);
    Skips(t, t, texts, 3);
    Shares(t, texts, 4);
    Skips(t, u, texts, 5);
    Skips(t, u, texts, 6);
    Skips(t, u, texts, 7);
  }

  lemma Shares(t: E.Table, texts: seq<string>, k: nat)
    requires k < |texts| && E.Share(t, texts, k) == t && E.Worthwhile(texts[k], texts) && texts[k] !in t.offsets
    ensures E.Share(t, texts, k + 1) == E.AddEntry(t, texts[k])
  {
    hide E.Worthwhile; hide E.AddEntry;
  }

  lemma TextIsIn(t: E.Table, text: string)
    ensures text in E.AddEntry(t, text).offsets
  {
  }

  /** A text that is not worth sharing, or is shared already, changes nothing. */
  lemma Skips(t: E.Table, u: E.Table, texts: seq<string>, k: nat)
    requires k < |texts| && (k == 0 || E.Share(t, texts, k) == u) && (k == 0 ==> u == t)
    requires !E.Worthwhile(texts[k], texts) || texts[k] in u.offsets
    ensures E.Share(t, texts, k + 1) == u
  {
    hide E.Worthwhile; hide E.AddEntry;
  }

  lemma TwiceIsPlain(ns: string, text: string)
    requires Utf8.IsXmlText(text)
    ensures Plain(TwiceSent(ns, text), 3, 4, 2000 + 40 * |text|)
  {
    hide Plain; hide PlainAll;
    var (x, y) := (Leaf("VerDTD", text), Leaf("VerProto", text));
    LeafIsPlain("", "VerDTD", text);
    LeafIsPlain("", "VerProto", text);
    NoneIsPlain();
    var (a, b) := (448 + 20 * |text|, 464 + 20 * |text|);
    MoreIsPlain(y, 1, 1, b, [], 0, 0, 0);
    MoreIsPlain(x, 1, 1, a, [Child(y, "")] + [], 1, 1, b);
    assert [Child(x, "")] + ([Child(y, "")] + []) == [Child(x, ""), Child(y, "")];
    NodeIsPlain("", "SyncHdr", [Child(x, ""), Child(y, "")], 1, 2, a + b);
    var h := Element("", "SyncHdr", "", [Child(x, ""), Child(y, "")]);
    MoreIsPlain(h, 2, 3, 456 + (a + b), [], 0, 0, 0);
    assert [Child(h, "")] + [] == [Child(h, "")];
    NodeIsPlain(ns, "SyncML", [Child(h, "")], 2, 3, 456 + (a + b));
    Plainer(TwiceSent(ns, text), 3, 4, 448 + (456 + (a + b)), 2000 + 40 * |text|);
  }

  lemma ReferenceIs(text: string, c: E.Coding)
    requires text != "" && !c.opaqueText && text in c.offsets && c.offsets[text] == 30
    ensures E.TextToken(text, c) == [0x83, 0x1E]
  {
    ShortInteger(30);
    hide Utf8.Encode; hide MbUint32;
  }

  lemma TwiceBody(ns: string, text: string, c: E.Coding)
    requires text != "" && !c.opaqueText && text in c.offsets && c.offsets[text] == 30
    requires E.TagPage(ns, c.syncmlNs) == Some(0)
    ensures E.ElementBytes(TwiceSent(ns, text), 0, c)
         == Some(([0x6D, 0x6C, 0x71, 0x83, 0x1E, 1, 0x72, 0x83, 0x1E, 1, 1, 1], 0))
  {
    hide TagToken; hide E.ElementBytes; hide E.TextToken; hide E.ChildrenBytes;
    var (x, y) := (Leaf("VerDTD", text), Leaf("VerProto", text));
    ReferenceIs(text, c);
    VerDTDToken(); VerProtoToken();
    LeafBytes("VerDTD", text, 0, 0x31, c);
    LeafBytes("VerProto", text, 0, 0x32, c);
    var r: Bytes := [0x83, 0x1E];
    var (a, b) := ([] + ([0x71] + r + [1]), [] + ([0x72] + r + [1]));
    NoChildren(0, c);
    FirstChild(y, [], 0, c, b, 0, [], 0);
    FirstChild(x, [Child(y, "")] + [], 0, c, a, 0, b + [], 0);
    assert [Child(x, "")] + ([Child(y, "")] + []) == [Child(x, ""), Child(y, "")];
    RootBytes(ns, [Child(x, ""), Child(y, "")], c, a + (b + []), 0);
    TwiceJoins();
  }

  lemma TwiceJoins()
    ensures [0x6D, 0x6C] + (([] + ([0x71] + [0x83, 0x1E] + [1])) + (([] + ([0x72] + [0x83, 0x1E] + [1])) + [])) + [1, 1]
         == [0x6D, 0x6C, 0x71, 0x83, 0x1E, 1, 0x72, 0x83, 0x1E, 1, 1, 1 as byte]
  {
  }

  /** The string table: the name of the identifier at 0, the text at 30. */
  function TableBytes(eleven: bool, text: string): Bytes {
    Utf8.Encode(NameOf(eleven)) + [0] + Utf8.Encode(text) + [0]
  }

  lemma TableIs(ns: string, eleven: bool, text: string)
    requires text != "" && text != NameOf(eleven) && |Utf8.Encode(text)| > 3
    ensures var t := E.StringTable(TwiceSent(ns, text), E.ByName(NameOf(eleven)), true, false);
            && t.bytes == TableBytes(eleven, text) && text in t.offsets && t.offsets[text] == 30
  {
    hide Utf8.Encode; hide E.Share; hide E.TextsOf; hide TwiceSent;
    TextsOfTwice(ns, text);
    NameIsAscii(eleven);
    SharedOnce(E.AddEntry(E.Table([], map[]), NameOf(eleven)), text);
    assert [] + Utf8.Encode(NameOf(eleven)) == Utf8.Encode(NameOf(eleven));
  }

  /** A payload whose identifier is the name at the start of its string table. */
  function NamedPayload(version: byte, table: Bytes, body: Bytes): Bytes
    requires |table| < 128
  {
    [version, 0, 0, 0x6A, |table| as byte] + table + body
  }

  lemma NamedPreamble(version: byte, eleven: bool, id: nat, table: Bytes, body: Bytes)
    requires |table| < 128
    ensures E.Preamble(version, E.ByName(NameOf(eleven)), id, table) + body == NamedPayload(version, table, body)
  {
    ShortInteger(106);
    ShortInteger(|table|);
    hide MbUint32;
    assert E.Preamble(version, E.ByName(NameOf(eleven)), id, table) == [version, 0, 0, 0x6A, |table| as byte] + table;
  }

  lemma NameIsPublic(eleven: bool)
    ensures PublicId(NameOf(eleven)) == if eleven then 0x0FD3 else 0x1201
  {
  }

  lemma NamedIsAccepted(tree: Xml, version: byte, eleven: bool)
    requires exists bound: nat :: Plain(tree, 3, 4, bound)
    requires version in {2, 3} && tree.name == "SyncML" && tree.ns == NamespaceOf(eleven)
    ensures var choice := E.ByName(NameOf(eleven));
            && E.Acceptable(tree, version, choice) && Stripped(tree) == tree
            && E.NumericId(tree, choice) == (if eleven then 0x0FD3 else 0x1201)
            && PublicNamespace(E.NumericId(tree, choice)) == NamespaceOf(eleven)
  {
    NameIsPublic(eleven);
    hide Bound; hide Stripped; hide XmlText; hide Count; hide Depth; hide NameOf; hide PublicId;
  }

  lemma EncodesRoot(tree: Xml, version: byte, choice: E.PublicChoice, shared: bool, opaqueText: bool)
    requires E.Acceptable(tree, version, choice) && Stripped(tree) == tree
    ensures E.Encode(tree, version, choice, shared, opaqueText)
         == E.EncodeRoot(tree, version, choice, E.NumericId(tree, choice),
                         E.StringTable(tree, choice, shared, opaqueText), opaqueText)
  {
    hide Stripped; hide E.StringTable; hide E.EncodeRoot; hide Depth; hide Count;
  }

  lemma RootEncodes(root: Xml, version: byte, choice: E.PublicChoice, eleven: bool, t: E.Table, body: Bytes, all: Bytes)
    requires var c := E.Coding(NamespaceOf(eleven), false, t.offsets);
             E.ElementBytes(root, 0, c).Some? && E.ElementBytes(root, 0, c).value.0 == body
    requires all == E.Preamble(version, choice, if eleven then 0x0FD3 else 0x1201, t.bytes) + body && |all| <= 500000
    ensures E.EncodeRoot(root, version, choice, if eleven then 0x0FD3 else 0x1201, t, false) == Some(all)
  {
    hide E.ElementBytes; hide E.Preamble;
  }

  lemma NamedIsSent(tree: Xml, version: byte, eleven: bool, t: E.Table, body: Bytes)
    requires exists bound: nat :: Plain(tree, 3, 4, bound)
    requires version in {2, 3} && tree.name == "SyncML" && tree.ns == NamespaceOf(eleven) && |body| <= 490000
    requires t == E.StringTable(tree, E.ByName(NameOf(eleven)), true, false) && |t.bytes| < 128
    requires var c := E.Coding(NamespaceOf(eleven), false, t.offsets);
             E.ElementBytes(tree, 0, c).Some? && E.ElementBytes(tree, 0, c).value.0 == body
    ensures E.Encode(tree, version, E.ByName(NameOf(eleven)), true, false)
         == Some(NamedPayload(version, t.bytes, body))
  {
    hide *;
    NamedIsAccepted(tree, version, eleven);
    EncodesRoot(tree, version, E.ByName(NameOf(eleven)), true, false);
    NamedPreamble(version, eleven, if eleven then 0x0FD3 else 0x1201, t.bytes, body);
    NamedIsShort(version, t.bytes, body);
    RootEncodes(tree, version, E.ByName(NameOf(eleven)), eleven, t, body, NamedPayload(version, t.bytes, body));
  }

  lemma NamedIsReceived(tree: Xml, version: byte, eleven: bool)
    requires exists bound: nat :: Plain(tree, 3, 4, bound) && bound <= 2000000
    requires tree.ns == NamespaceOf(eleven)
    requires E.Encode(tree, version, E.ByName(NameOf(eleven)), true, false).Some?
    requires |E.Encode(tree, version, E.ByName(NameOf(eleven)), true, false).value| <= 500000
    ensures Received(E.Encode(tree, version, E.ByName(NameOf(eleven)), true, false).value)
         == Some(Qualified(tree, NamespaceOf(eleven)))
  {
    SentIsReceived(tree, version, E.ByName(NameOf(eleven)), true, false);
    hide E.Encode; hide Received; hide Qualified;
  }

  lemma TwiceIsQualified(ns: string, text: string)
    requires ns != ""
    ensures Qualified(TwiceSent(ns, text), ns) == Twice(ns, text)
  {
    var (x, y) := (Leaf("VerDTD", text), Leaf("VerProto", text));
    var cs := [Child(x, ""), Child(y, "")];
    QualifiedOne(y, [], ns);
    QualifiedOne(x, [Child(y, "")], ns);
    assert [Child(x, "")] + [Child(y, "")] == cs;
    var h := Element("", "SyncHdr", "", cs);
    QualifiedOne(h, [], ns);
    hide QualifiedAll;
    assert QualifiedAll(cs, ns) == [Child(Qualified(x, ns), ""), Child(Qualified(y, ns), "")];
  }

  /** A reference to the string table, and the public identifier in it. */
  lemma TableOnTheWire(version: byte, eleven: bool, text: string)
    requires version in {2, 3} && Utf8.IsXmlText(text) && text != NameOf(eleven) && 3 < |Utf8.Encode(text)| < 90
    ensures var (ns, table) := (NamespaceOf(eleven), TableBytes(eleven, text));
            |table| == |Utf8.Encode(text)| + 31 &&
            (var payload := NamedPayload(version, table, [0x6D, 0x6C, 0x71, 0x83, 0x1E, 1, 0x72, 0x83, 0x1E, 1, 1, 1]);
             && E.Encode(TwiceSent(ns, text), version, E.ByName(NameOf(eleven)), true, false) == Some(payload)
             && Received(payload) == Some(Twice(ns, text)))
  {
    hide *;
    NameIsAscii(eleven);
    Lengths(eleven, text);
    NamespaceIsPage0(eleven);
    TwiceParts(NamespaceOf(eleven), text);
    var (ns, choice, tree) := (NamespaceOf(eleven), E.ByName(NameOf(eleven)), TwiceSent(NamespaceOf(eleven), text));
    TableIs(ns, eleven, text);
    var t := E.StringTable(tree, choice, true, false);
    TwiceBody(ns, text, E.Coding(ns, false, t.offsets));
    TwiceIsPlain(ns, text);
    var body := [0x6D, 0x6C, 0x71, 0x83, 0x1E, 1, 0x72, 0x83, 0x1E, 1, 1, 1];
    NamedIsSent(tree, version, eleven, t, body);
    TwiceIsQualified(ns, text);
    NamedIsShort(version, t.bytes, body);
    NamedIsReceived(tree, version, eleven);
  }

  lemma Lengths(eleven: bool, text: string)
    requires |Utf8.Encode(NameOf(eleven))| == 29 && |Utf8.Encode(text)| > 3
    ensures |TableBytes(eleven, text)| == |Utf8.Encode(text)| + 31
    ensures text != "" && |text| <= |Utf8.Encode(text)|
  {
    hide NameOf;
  }

  lemma NamespaceIsPage0(eleven: bool)
    ensures NamespaceOf(eleven) != "" && E.TagPage(NamespaceOf(eleven), NamespaceOf(eleven)) == Some(0)
  {
  }

  lemma TwiceParts(ns: string, text: string)
    ensures TwiceSent(ns, text).name == "SyncML" && TwiceSent(ns, text).ns == ns
  {
  }

  lemma NamedIsShort(version: byte, table: Bytes, body: Bytes)
    requires |table| < 128
    ensures |NamedPayload(version, table, body)| == 5 + |table| + |body|
  {
  }


  // ---- formatting ----

  /** White space between the elements, and after each, as a printer puts it. */
  function Indented(e: Xml, space: string): Xml
    decreases e, 1
  {
    Element(e.ns, e.name, if e.children == [] then e.text else space, IndentedAll(e.children, space))
  }

  function IndentedAll(cs: seq<Child>, space: string): (r: seq<Child>)
    ensures |r| == |cs|
    decreases cs, 0
  {
    if cs == [] then [] else [Child(Indented(cs[0].element, space), space)] + IndentedAll(cs[1..], space)
  }

  /** Text in the leaves only. */
  predicate LeavesOnly(e: Xml)
    decreases e, 1
  {
    (e.children != [] ==> e.text == "") && LeavesOnlyAll(e.children)
  }

  predicate LeavesOnlyAll(cs: seq<Child>)
    decreases cs, 0
  {
    cs != [] ==> cs[0].tail == "" && LeavesOnly(cs[0].element) && LeavesOnlyAll(cs[1..])
  }

  ghost predicate Formatting(space: string) {
    space != "" && forall i :: 0 <= i < |space| ==> space[i] in {' ', '\t', '\n', '\r'}
  }

  lemma {:induction false} IndentationGoes(e: Xml, space: string)
    requires LeavesOnly(e) && Formatting(space)
    ensures Stripped(Indented(e, space)) == e == Stripped(e)
    ensures Depth(Indented(e, space)) == Depth(e) && Count(Indented(e, space)) == Count(e)
    decreases e, 1
  {
    IndentationsGo(e.children, space);
    if e.children != [] { assert Utf8.IsSpace(space); }
  }

  lemma {:induction false} IndentationsGo(cs: seq<Child>, space: string)
    requires LeavesOnlyAll(cs) && Formatting(space)
    ensures StrippedAll(IndentedAll(cs, space)) == cs == StrippedAll(cs)
    ensures DepthAll(IndentedAll(cs, space)) == DepthAll(cs) && CountAll(IndentedAll(cs, space)) == CountAll(cs)
    decreases cs, 0
  {
    if cs != [] {
      assert Utf8.IsSpace(space);
      IndentationGoes(cs[0].element, space);
      IndentationsGo(cs[1..], space);
      assert IndentedAll(cs, space)[1..] == IndentedAll(cs[1..], space);
      hide Stripped; hide Indented; hide Depth; hide Count;
    }
  }

  /** Formatting is not sent; white space in a leaf is, as any other text. */
  lemma IndentationIsNotSent(tree: Xml, space: string, version: byte, choice: E.PublicChoice, shared: bool,
                             opaqueText: bool)
    requires LeavesOnly(tree) && Formatting(space)
    ensures E.Encode(Indented(tree, space), version, choice, shared, opaqueText)
         == E.Encode(tree, version, choice, shared, opaqueText)
  {
    IndentationGoes(tree, space);
    hide Stripped; hide Depth; hide Count; hide E.EncodeRoot; hide E.StringTable; hide LeavesOnly; hide IndentedAll;
  }

  // ---- numbers ----

  /** The limits of both directions. */
  lemma LimitsInNumbers(tree: Xml, ns: string, version: byte, choice: E.PublicChoice)
    ensures R.WithinLimits(tree, ns) <==>
              Depth(tree) <= 64 && Count(tree) <= 16384 && SizeOf(EventsOf(tree, Some(ns))) <= 2097152
    ensures E.Acceptable(tree, version, choice) ==> Depth(tree) <= 128 && Count(tree) <= 131072
    ensures MAX_INPUT_BYTES == 524288 && MAX_ENCODE_BYTES == 16777216
  {
    hide Depth; hide Count; hide SizeOf; hide EventsOf;
  }

  /** What the output limit counts: the bytes of the tags as they are written, and of the text escaped. */
  lemma OutputIsText(name: string, ns: string)
    ensures Size(Start(Tag(0, name), Some(ns)))
         == |Utf8.Encode("<" + name + (" xmlns=\"" + ns + "\" xmlns:metinf=\"" + "syncml:metinf" + "\"") + ">")|
    ensures Size(Empty(Tag(1, name), None)) == |Utf8.Encode("<" + ("metinf:" + name) + "" + "/>")|
    ensures Size(Event.End(Tag(0, name))) == |Utf8.Encode("</" + name + ">")|
  {
    hide Utf8.Encode;
  }

  lemma EscapesInText()
    ensures Escape("a&<>\r") == "a&amp;&lt;&gt;&#13;"
  {
    var t := "a&<>\r";
    assert t[1..] == "&<>\r" && t[1..][1..] == "<>\r" && t[1..][1..][1..] == ">\r" && t[1..][1..][1..][1..] == "\r";
    assert t[1..][1..][1..][1..][1..] == "";
    assert Escape("\r") == "&#13;";
    assert Escape(">\r") == "&gt;&#13;";
    assert Escape("<>\r") == "&lt;&gt;&#13;";
    assert Escape("&<>\r") == "&amp;&lt;&gt;&#13;";
  }

  /** The characters a text may hold. */
  lemma CharactersInNumbers(c: char)
    ensures var n := c as int;
            DecodeText(Utf8.Encode([c])).Ok? <==>
              n in {9, 10, 13} || 32 <= n <= 55295 || 57344 <= n <= 65533 || 65536 <= n <= 1114111
  {
    Utf8.DecodeOfEncode([c]);
    hide Utf8.Encode; hide Utf8.Decode;
    assert [c][0] == c;
  }

  /** One character of each length in UTF-8. */
  lemma Utf8InBytes()
    ensures Utf8.Encode(['A', 0xE9 as char, 0x20AC as char, 0x1F600 as char])
         == [0x41, 0xC3, 0xA9, 0xE2, 0x82, 0xAC, 0xF0, 0x9F, 0x98, 0x80]
  {
    var s := ['A', 0xE9 as char, 0x20AC as char, 0x1F600 as char];
    assert s[1..] == [0xE9 as char, 0x20AC as char, 0x1F600 as char];
    assert s[1..][1..] == [0x20AC as char, 0x1F600 as char];
    assert s[1..][1..][1..] == [0x1F600 as char];
    assert s[1..][1..][1..][1..] == [];
    assert Utf8.Encode([0x1F600 as char]) == [0xF0, 0x9F, 0x98, 0x80];
    assert Utf8.Encode([0x20AC as char, 0x1F600 as char]) == [0xE2, 0x82, 0xAC, 0xF0, 0x9F, 0x98, 0x80];
  }

  // ---- headers ----

  /** Any other version, charset or public identifier is refused, whatever follows. */
  lemma OtherHeadersAreRefused(version: byte, id: nat, charset: nat, rest: Bytes)
    requires 0 < id <= 0xFFFFFFFF && charset <= 0xFFFFFFFF
    requires version !in {2, 3} || id !in {0x0FD3, 0x1201} || charset != 106
    ensures Decode([version] + MbUint32(id) + MbUint32(charset) + rest).Err?
  {
    var payload := [version] + MbUint32(id) + MbUint32(charset) + rest;
    assert payload[..1] == [version] && payload[1..] == MbUint32(id) + (MbUint32(charset) + rest);
    IntegerOfMbUint32(id, MbUint32(charset) + rest);
    IntegerOfMbUint32(charset, rest);
    hide MbUint32; hide Integer; hide Loop;
  }
}
