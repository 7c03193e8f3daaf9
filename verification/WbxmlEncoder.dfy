/**
 The WBXML encoder: src/acs/protocol/omadm/wbxml.py, encode. The tree it walks is what the XML
 parser returns; `ElementBytes` is the recursive walk on values, the class the walk that appends
 to one output and remembers the code page.
 */
module WbxmlEncoder {
  import opened Wrappers
  import opened WbxmlFormat
  import opened Xml
  import Utf8

  /** How public_id is given: derived from the root's namespace, or a number, or a name. */
  datatype PublicChoice = Derived | ById(id: nat) | ByName(name: string)

  /** How text is written, and which namespace unqualified elements are in. */
  datatype Coding = Coding(syncmlNs: string, opaqueText: bool, offsets: map<string, nat>)

  function TextToken(text: string, c: Coding): Bytes {
    if text == "" then []
    else
      var raw := Utf8.Encode(text);
      if c.opaqueText then [OPAQUE] + MbUint32(|raw|) + raw
      else if text in c.offsets then [STR_T] + MbUint32(c.offsets[text])
      else [STR_I] + raw + [0]
  }

  function TagPage(ns: string, syncmlNs: string): Option<nat> {
    if ns == METINF_NS then Some(1)
    else if ns == "" || ns == syncmlNs then Some(0)
    else None
  }

  function Switch(from: nat, to: nat): Bytes
    requires to < 256
  {
    if from == to then [] else [SWITCH_PAGE, to as byte]
  }

  predicate HasContent(e: Xml) {
    e.text != "" || e.children != []
  }

  /** The bytes of an element begun on code page `page`, and the page it leaves current. */
  function ElementBytes(e: Xml, page: nat, c: Coding): (r: Option<(Bytes, nat)>)
    ensures r.Some? ==> r.value.0 != [] && r.value.1 < 2
    decreases e, 2
  {
    var tagPage := TagPage(e.ns, c.syncmlNs);
    if tagPage.None? then None
    else
      var token := TagToken(tagPage.value, e.name);
      if token.None? then None
      else
        var rest := if HasContent(e) then ContentBytes(e, token.value, tagPage.value, c)
                    else Some(([token.value], tagPage.value));
        if rest.None? then None
        else Some((Switch(page, tagPage.value) + rest.value.0, rest.value.1))
  }

  /** The tag of an element with content, then its text, its children and its end. */
  function ContentBytes(e: Xml, token: byte, page: nat, c: Coding): (r: Option<(Bytes, nat)>)
    requires token < CONTENT && page < 2
    ensures r.Some? ==> r.value.0 != [] && r.value.1 < 2
    decreases e, 1
  {
    var inner := ChildrenBytes(e.children, page, c);
    if inner.None? then None
    else Some(([token + CONTENT] + TextToken(e.text, c) + inner.value.0 + [END], inner.value.1))
  }

  function ChildrenBytes(cs: seq<Child>, page: nat, c: Coding): (r: Option<(Bytes, nat)>)
    ensures r.Some? ==> r.value.1 == page || r.value.1 < 2
    decreases cs, 0
  {
    if cs == [] then Some(([], page))
    else
      var first := ElementBytes(cs[0].element, page, c);
      if first.None? then None
      else
        var rest := ChildrenBytes(cs[1..], first.value.1, c);
        if rest.None? then None
        else Some((first.value.0 + TextToken(cs[0].tail, c) + rest.value.0, rest.value.1))
  }

  // ---- string table ----

  /** element.text and element.tail for every element in document order. */
  function TextsOf(e: Xml, tail: string): seq<string>
    decreases e, 1
  {
    [e.text, tail] + TextsOfAll(e.children)
  }

  function TextsOfAll(cs: seq<Child>): seq<string>
    decreases cs, 0
  {
    if cs == [] then [] else TextsOf(cs[0].element, cs[0].tail) + TextsOfAll(cs[1..])
  }

  datatype Table = Table(bytes: Bytes, offsets: map<string, nat>)

  function AddEntry(t: Table, text: string): Table {
    Table(t.bytes + Utf8.Encode(text) + [0], t.offsets[text := |t.bytes|])
  }

  /** A repeated text worth a reference: longer than the reference itself can be. */
  predicate Worthwhile(text: string, texts: seq<string>) {
    text != "" && multiset(texts)[text] > 1 && |Utf8.Encode(text)| > 3
  }

  /** The table after the first `upTo` texts have been considered, each at its first occurrence. */
  function Share(t: Table, texts: seq<string>, upTo: nat): Table
    requires upTo <= |texts|
  {
    if upTo == 0 then t
    else
      var before := Share(t, texts, upTo - 1);
      var text := texts[upTo - 1];
      if Worthwhile(text, texts) && text !in before.offsets then AddEntry(before, text) else before
  }

  function StringTable(root: Xml, choice: PublicChoice, useStringTable: bool, opaqueText: bool): Table {
    var t0 := Table([], map[]);
    var t1 := if choice.ByName? then AddEntry(t0, choice.name) else t0;
    var texts := TextsOf(root, "");
    if useStringTable && !opaqueText then Share(t1, texts, |texts|) else t1
  }

  // ---- the whole encoding ----

  function NumericId(root: Xml, choice: PublicChoice): nat {
    match choice
    case Derived => if root.ns == SYNCML_NS_11 then PUBLIC_ID_11 else PUBLIC_ID_12
    case ById(id) => id
    case ByName(name) => PublicId(name)
  }

  function Preamble(version: byte, choice: PublicChoice, id: nat, table: Bytes): Bytes {
    [version] + (if choice.ByName? then [0, 0] else MbUint32(id))
    + MbUint32(CHARSET_UTF8) + MbUint32(|table|) + table
  }

  /** The checks encode makes before it looks inside the root. */
  predicate Acceptable(tree: Xml, version: byte, choice: PublicChoice) {
    var id := NumericId(tree, choice);
    && (version == VERSION_12 || version == VERSION_13)
    && Depth(tree) <= MAX_ENCODE_DEPTH && Count(tree) <= MAX_ENCODE_ELEMENTS
    && tree.name == "SyncML"
    && (id == PUBLIC_ID_11 || id == PUBLIC_ID_12)
    && (tree.ns == "" || tree.ns == PublicNamespace(id))
  }

  function CodingFor(root: Xml, id: nat, table: Table, opaqueText: bool): Coding
    requires id == PUBLIC_ID_11 || id == PUBLIC_ID_12
  {
    Coding(PublicNamespace(id), opaqueText, table.offsets)
  }

  function EncodeRoot(root: Xml, version: byte, choice: PublicChoice, id: nat, table: Table,
                      opaqueText: bool): Option<Bytes>
    requires id == PUBLIC_ID_11 || id == PUBLIC_ID_12
  {
    var body := ElementBytes(root, 0, CodingFor(root, id, table, opaqueText));
    if body.None? then None
    else
      var all := Preamble(version, choice, id, table.bytes) + body.value.0;
      if |all| > MAX_ENCODE_BYTES then None else Some(all)
  }

  /** encode on a parsed tree; None where it raises WbxmlError. */
  function Encode(tree: Xml, version: byte, choice: PublicChoice, useStringTable: bool,
                  opaqueText: bool): (r: Option<Bytes>) {
    if !Acceptable(tree, version, choice) then None
    else
      var root := Stripped(tree);
      EncodeRoot(root, version, choice, NumericId(tree, choice),
                 StringTable(root, choice, useStringTable, opaqueText), opaqueText)
  }

  // ---- every table reference resolves ----

  /** The text at each recorded offset is the text recorded there. */
  ghost predicate Resolves(t: Table) {
    forall text :: text in t.offsets ==>
      t.offsets[text] <= |t.bytes| && TableString(t.bytes, t.offsets[text]) == Ok(Utf8.Encode(text))
  }

  predicate NoNul(text: string) {
    forall i :: 0 <= i < |text| ==> text[i] as int != 0
  }

  lemma TableStringPrefix(table: Bytes, offset: nat, more: Bytes)
    requires TableString(table, offset).Ok?
    ensures TableString(table + more, offset) == TableString(table, offset)
  {
    var end := Find(table[offset..], 0);
    assert (table + more)[offset..] == table[offset..] + more;
    FindAt(table[offset..] + more, 0, end);
    assert (table + more)[offset..offset + end] == table[offset..offset + end];
  }

  /** Adding an entry keeps every earlier one readable, and makes the new one readable. */
  lemma AddEntryResolves(t: Table, text: string)
    requires Resolves(t) && NoNul(text)
    ensures Resolves(AddEntry(t, text))
  {
    var t' := AddEntry(t, text);
    Utf8.NoZero(text);
    TableStringAt(t.bytes, Utf8.Encode(text), []);
    assert t'.bytes == t.bytes + Utf8.Encode(text) + [0] + [];
    forall s | s in t'.offsets
      ensures t'.offsets[s] <= |t'.bytes| && TableString(t'.bytes, t'.offsets[s]) == Ok(Utf8.Encode(s))
    {
      if s != text {
        TableStringPrefix(t.bytes, t.offsets[s], Utf8.Encode(text) + [0]);
        assert t'.bytes == t.bytes + (Utf8.Encode(text) + [0]);
      }
    }
  }

  lemma {:induction false} ShareResolves(t: Table, texts: seq<string>, upTo: nat)
    requires upTo <= |texts| && Resolves(t)
    requires forall i :: 0 <= i < |texts| ==> NoNul(texts[i])
    ensures Resolves(Share(t, texts, upTo))
  {
    hide Resolves; hide Worthwhile; hide AddEntry; hide NoNul;
    if upTo > 0 {
      ShareResolves(t, texts, upTo - 1);
      var before := Share(t, texts, upTo - 1);
      if Worthwhile(texts[upTo - 1], texts) && texts[upTo - 1] !in before.offsets {
        AddEntryResolves(before, texts[upTo - 1]);
      }
    }
  }

  lemma {:induction false} TextsHaveNoNul(e: Xml, tail: string)
    requires XmlText(e) && Utf8.IsXmlText(tail)
    ensures forall i :: 0 <= i < |TextsOf(e, tail)| ==> NoNul(TextsOf(e, tail)[i])
    decreases e, 1
  {
    TextsHaveNoNulAll(e.children);
  }

  lemma {:induction false} TextsHaveNoNulAll(cs: seq<Child>)
    requires XmlTexts(cs)
    ensures forall i :: 0 <= i < |TextsOfAll(cs)| ==> NoNul(TextsOfAll(cs)[i])
    decreases cs, 0
  {
    if cs != [] {
      TextsHaveNoNul(cs[0].element, cs[0].tail);
      TextsHaveNoNulAll(cs[1..]);
    }
  }

  /** Whatever is put into the string table is read back at its recorded offset. */
  lemma StringTableResolves(root: Xml, choice: PublicChoice, useStringTable: bool, opaqueText: bool)
    requires XmlText(root)
    requires choice.ByName? ==> NoNul(choice.name)
    ensures Resolves(StringTable(root, choice, useStringTable, opaqueText))
  {
    var t0 := Table([], map[]);
    if choice.ByName? { AddEntryResolves(t0, choice.name); }
    var t1 := if choice.ByName? then AddEntry(t0, choice.name) else t0;
    TextsHaveNoNul(root, "");
    var texts := TextsOf(root, "");
    ShareResolves(t1, texts, |texts|);
  }

  // ---- the encoder as the source runs it ----

  lemma Assoc(a: Bytes, b: Bytes, c: Bytes)
    ensures (a + b) + c == a + (b + c)
  {
  }

  /** The output and the code page current in it, shared by the nested calls of encode. */
  class Encoder {
    const c: Coding
    const limit: nat
    var data: Bytes
    var page: nat

    constructor (c: Coding, limit: nat)
      ensures this.c == c && this.limit == limit && data == [] && page == 0
    {
      this.c, this.limit, data, page := c, limit, [], 0;
    }

    method Write(bytes: Bytes) returns (ok: bool)
      requires |data| <= limit
      modifies `data
      ensures ok <==> |old(data)| + |bytes| <= limit
      ensures data == if ok then old(data) + bytes else old(data)
    {
      ok := |bytes| <= limit - |data|;
      if ok {
        data := data + bytes;
      }
    }

    /** text_content. */
    method TextContent(text: string) returns (ok: bool)
      requires |data| <= limit <= MAX_UINT32
      modifies `data
      ensures |data| <= limit
      ensures ok <==> |old(data)| + |TextToken(text, c)| <= limit
      ensures ok ==> data == old(data) + TextToken(text, c)
    {
      if text == "" {
        return true;
      }
      var raw := Utf8.Encode(text);
      if c.opaqueText {
        ok := Write([OPAQUE] + MbUint32(|raw|) + raw);
      } else if text in c.offsets {
        ok := Write([STR_T] + MbUint32(c.offsets[text]));
      } else {
        ok := Write([STR_I] + raw + [0]);
      }
    }

    /**
     element_content: appends exactly the element's bytes and leaves the page they end on, and
     fails exactly when there are none or they do not fit.
     */
    method ElementContent(e: Xml) returns (ok: bool)
      requires |data| <= limit <= MAX_UINT32 && page < 2
      modifies `data, `page
      ensures |data| <= limit && page < 2
      ensures ok <==> ElementBytes(e, old(page), c).Some?
                      && |old(data)| + |ElementBytes(e, old(page), c).value.0| <= limit
      ensures ok ==> data == old(data) + ElementBytes(e, old(page), c).value.0
                     && page == ElementBytes(e, old(page), c).value.1
      decreases e, 2
    {
      var tagPage := TagPage(e.ns, c.syncmlNs);
      if tagPage.None? {
        return false;
      }
      var token := TagToken(tagPage.value, e.name);
      if token.None? {
        return false;
      }
      ghost var start, sw := data, Switch(page, tagPage.value);
      if tagPage.value != page {
        ok := Write([SWITCH_PAGE, tagPage.value as byte]);
        if !ok {
          return;
        }
        page := tagPage.value;
      }
      assert data == start + sw;
      if !HasContent(e) {
        ok := Write([token.value]);
        Assoc(start, sw, [token.value]);
        return;
      }
      ghost var inner := ContentBytes(e, token.value, page, c);
      ok := Content(e, token.value);
      if ok { Assoc(start, sw, inner.value.0); }
    }

    /** The tag with its content bit, the text, the children and the end of an element. */
    method Content(e: Xml, token: byte) returns (ok: bool)
      requires |data| <= limit <= MAX_UINT32 && page < 2 && token < CONTENT
      modifies `data, `page
      ensures |data| <= limit && page < 2
      ensures ok <==> ContentBytes(e, token, old(page), c).Some?
                      && |old(data)| + |ContentBytes(e, token, old(page), c).value.0| <= limit
      ensures ok ==> data == old(data) + ContentBytes(e, token, old(page), c).value.0
                     && page == ContentBytes(e, token, old(page), c).value.1
      decreases e, 1
    {
      ghost var start, inner := data, ChildrenBytes(e.children, page, c);
      ok := Write([token + CONTENT]);
      if !ok {
        return;
      }
      ok := TextContent(e.text);
      if !ok {
        return;
      }
      ghost var head := [token + CONTENT] + TextToken(e.text, c);
      Assoc(start, [token + CONTENT], TextToken(e.text, c));
      assert data == start + head;
      ok := ChildrenContent(e.children);
      if !ok {
        return;
      }
      Assoc(start, head, inner.value.0);
      assert data == start + (head + inner.value.0);
      ok := Write([END]);
      Assoc(start, head + inner.value.0, [END]);
    }

    /** The loop over the children of one element. */
    method ChildrenContent(cs: seq<Child>) returns (ok: bool)
      requires |data| <= limit <= MAX_UINT32 && page < 2
      modifies `data, `page
      ensures |data| <= limit && page < 2
      ensures ok <==> ChildrenBytes(cs, old(page), c).Some?
                      && |old(data)| + |ChildrenBytes(cs, old(page), c).value.0| <= limit
      ensures ok ==> data == old(data) + ChildrenBytes(cs, old(page), c).value.0
                     && page == ChildrenBytes(cs, old(page), c).value.1
      decreases cs, 0
    {
      ghost var whole := ChildrenBytes(cs, page, c);
      var i := 0;
      ghost var done: Bytes := [];
      while i < |cs|
        invariant 0 <= i <= |cs| && |data| <= limit && page < 2
        invariant data == old(data) + done
        invariant Follows(whole, done, ChildrenBytes(cs[i..], page, c))
      {
        var child := cs[i];
        ghost var start := old(data);
        ghost var rest := ChildrenBytes(cs[i..], page, c);
        ghost var first := ElementBytes(child.element, page, c);
        assert cs[i..][1..] == cs[i + 1..] && child == cs[i..][0];
        ok := ElementContent(child.element);
        if !ok {
          return;
        }
        ok := TextContent(child.tail);
        if !ok {
          return;
        }
        ghost var piece := first.value.0 + TextToken(child.tail, c);
        FollowsOn(whole, done, rest, piece, ChildrenBytes(cs[i + 1..], page, c));
        Assoc(start + done, first.value.0, TextToken(child.tail, c));
        Assoc(start, done, piece);
        done := done + piece;
        i := i + 1;
      }
      assert cs[i..] == [];
      ok := true;
    }
  }

  /** `whole` is `done` and then `rest`, if either is anything. */
  ghost predicate Follows(whole: Option<(Bytes, nat)>, done: Bytes, rest: Option<(Bytes, nat)>) {
    && (whole.None? <==> rest.None?)
    && (whole.Some? ==> whole.value.0 == done + rest.value.0 && whole.value.1 == rest.value.1)
  }

  lemma FollowsOn(whole: Option<(Bytes, nat)>, done: Bytes, rest: Option<(Bytes, nat)>, piece: Bytes,
                  next: Option<(Bytes, nat)>)
    requires Follows(whole, done, rest) && Follows(rest, piece, next)
    ensures Follows(whole, done + piece, next)
  {
  }

  /** The loop that fills the string table with the repeated texts. */
  method ShareTexts(t: Table, texts: seq<string>) returns (r: Table)
    ensures r == Share(t, texts, |texts|)
  {
    r := t;
    for i := 0 to |texts|
      invariant r == Share(t, texts, i)
    {
      if Worthwhile(texts[i], texts) && texts[i] !in r.offsets {
        r := AddEntry(r, texts[i]);
      }
    }
  }

  /** encode, from the parsed tree on: the bytes `Encode` gives, and no bytes where it gives none. */
  method EncodeDocument(tree: Xml, version: byte, choice: PublicChoice, useStringTable: bool, opaqueText: bool)
    returns (r: Option<Bytes>)
    ensures r == Encode(tree, version, choice, useStringTable, opaqueText)
  {
    if !Acceptable(tree, version, choice) {
      return None;
    }
    var root := Stripped(tree);
    var table := Table([], map[]);
    if choice.ByName? {
      table := AddEntry(table, choice.name);
    }
    if useStringTable && !opaqueText {
      table := ShareTexts(table, TextsOf(root, ""));
    }
    r := EncodeInto(root, version, choice, NumericId(tree, choice), table, opaqueText);
  }

  /** The output: the preamble, then the root. */
  method EncodeInto(root: Xml, version: byte, choice: PublicChoice, id: nat, table: Table, opaqueText: bool)
    returns (r: Option<Bytes>)
    requires id == PUBLIC_ID_11 || id == PUBLIC_ID_12
    ensures r == EncodeRoot(root, version, choice, id, table, opaqueText)
  {
    var encoder := new Encoder(CodingFor(root, id, table, opaqueText), MAX_ENCODE_BYTES);
    var preamble := Preamble(version, choice, id, table.bytes);
    var ok := encoder.Write(preamble);
    assert [] + preamble == preamble;
    if !ok {
      return None;
    }
    ok := encoder.ElementContent(root);
    r := if ok then Some(encoder.data) else None;
  }
}
