/**
 What the codec is for: decoding an encoding gives the tree back, in every text mode, version and
 form of the public identifier. The proof follows the tree, carrying the code page and the tag
 stack from element to element.
 */
module WbxmlRoundTrip {
  import opened Wrappers
  import opened WbxmlFormat
  import opened Xml
  import opened WbxmlDecoder
  import opened WbxmlParse
  import E = WbxmlEncoder
  import Utf8

  /** The decoder's state after it has read some bytes and written some events for whole elements. */
  function Advance(st: State, rest: Bytes, page: nat, elements: nat, events: seq<Event>): State {
    State(rest, page, st.stack, st.elements + elements, st.events + events, st.size + SizeOf(events))
  }

  lemma {:induction false} SizeOfConcat(a: seq<Event>, b: seq<Event>)
    ensures SizeOf(a + b) == SizeOf(a) + SizeOf(b)
  {
    if b == [] {
      assert a + b == a;
    } else {
      var last := b[..|b| - 1];
      assert (a + b)[..|a + b| - 1] == a + last;
      SizeOfConcat(a, last);
    }
  }

  lemma AdvanceTwice(st: State, r1: Bytes, p1: nat, n1: nat, e1: seq<Event>, r2: Bytes, p2: nat, n2: nat,
                     e2: seq<Event>)
    ensures Advance(Advance(st, r1, p1, n1, e1), r2, p2, n2, e2) == Advance(st, r2, p2, n1 + n2, e1 + e2)
  {
    SizeOfConcat(e1, e2);
    hide SizeOf;
    assert st.events + e1 + e2 == st.events + (e1 + e2);
  }

  lemma NothingRead(st: State)
    ensures Advance(st, st.rest, st.page, 0, []) == st
  {
    assert st.events + [] == st.events;
  }

  lemma SizeOfOne(e: Event)
    ensures SizeOf([e]) == Size(e)
  {
    assert SizeOf([e][..0]) == 0;
  }

  // ---- one token ----

  /** There is room in the decoder, where it is, for an element of this size. */
  predicate Room(st: State, depth: nat, elements: nat, size: nat) {
    && |st.stack| + depth <= MAX_DEPTH
    && st.elements + elements <= MAX_ELEMENTS
    && st.size + size <= MAX_XML_BYTES
  }

  /** The decoder's constants match the encoder's: every reference resolves. */
  ghost predicate Agree(c: E.Coding, table: Bytes) {
    E.Resolves(E.Table(table, c.offsets)) && |table| <= MAX_UINT32
  }

  /** The text token is read back as the bytes of the text. */
  lemma TextBytesOfToken(text: string, c: E.Coding, table: Bytes, rest: Bytes)
    requires text != "" && Utf8.IsXmlText(text) && Agree(c, table)
    requires |E.TextToken(text, c)| <= MAX_UINT32
    ensures var token := E.TextToken(text, c)[0];
            && (token == STR_I || token == STR_T || token == OPAQUE)
            && TextBytes(table, token, (E.TextToken(text, c) + rest)[1..]) == Ok((Utf8.Encode(text), rest))
  {
    hide Utf8.Encode;
    hide MbUint32;
    hide ReadInteger;
    hide Integer;
    hide TableString;
    var raw := Utf8.Encode(text);
    var after := (E.TextToken(text, c) + rest)[1..];
    if c.opaqueText {
      assert after == MbUint32(|raw|) + (raw + rest);
      IntegerOfMbUint32(|raw|, raw + rest);
      assert (raw + rest)[..|raw|] == raw && (raw + rest)[|raw|..] == rest;
    } else if text in c.offsets {
      assert after == MbUint32(c.offsets[text]) + rest;
      IntegerOfMbUint32(c.offsets[text], rest);
    } else {
      assert after == raw + [0] + rest;
      DecodeTextOfEncode(text);
      FindAt(after, 0, |raw|);
      assert after[..|raw|] == raw && after[|raw| + 1..] == rest;
    }
  }

  lemma DecodeTextToken(text: string, c: E.Coding, table: Bytes, ns: string, st: State, rest: Bytes)
    requires st.stack != [] && st.rest == E.TextToken(text, c) + rest
    requires Utf8.IsXmlText(text) && Agree(c, table)
    requires |E.TextToken(text, c)| <= MAX_UINT32 && Room(st, 0, 0, 0)
    ensures if Room(st, 0, 0, SizeOf(TextEvents(text)))
            then Loop(table, ns, st) == Loop(table, ns, Advance(st, rest, st.page, 0, TextEvents(text)))
            else Loop(table, ns, st).Err?
  {
    hide Loop;
    hide Size;
    hide Utf8.Encode;
    hide MbUint32;
    hide DecodeText;
    hide TextBytes;
    if text == "" {
      assert st.rest == rest;
      assert st.events + [] == st.events;
    } else {
      SizeOfOne(Text(text));
      TextBytesOfToken(text, c, table, rest);
      DecodeTextOfEncode(text);
      DecodeOneText(E.TextToken(text, c)[0], text, table, ns, st, rest);
    }
  }

  lemma DecodeOneText(token: byte, text: string, table: Bytes, ns: string, st: State, rest: Bytes)
    requires st.stack != [] && st.rest != [] && st.rest[0] == token
    requires token == STR_I || token == STR_T || token == OPAQUE
    requires TextBytes(table, token, st.rest[1..]) == Ok((Utf8.Encode(text), rest))
    requires DecodeText(Utf8.Encode(text)) == Ok(text)
    ensures if st.size + Size(Text(text)) <= MAX_XML_BYTES
            then Loop(table, ns, st) ==
                 Loop(table, ns, st.(rest := rest, events := st.events + [Text(text)],
                     size := st.size + Size(Text(text))))
            else Loop(table, ns, st).Err?
  {
    hide Utf8.Encode;
    hide Size;
    hide TextBytes;
    hide DecodeText;
    hide StepTag;
  }

  /** A code page switch, where one is needed, only changes the page. */
  lemma DecodeSwitch(from: nat, to: nat, table: Bytes, ns: string, st: State, rest: Bytes)
    requires to < 2 && st.page == from && st.rest == E.Switch(from, to) + rest
    requires st.elements > 0 ==> st.stack != []
    ensures Loop(table, ns, st) == Loop(table, ns, st.(rest := rest, page := to))
  {
    if from == to {
      assert st.rest == rest;
    } else {
      assert st.rest[2..] == rest;
    }
  }

  /** The tag the encoder writes is the tag the decoder reads. */
  lemma DecodeTag(tag: Tag, declares: Option<string>, content: bool, token: byte, ns: string, st: State, rest: Bytes,
                  table: Bytes)
    requires 5 <= token < CONTENT && TagName(tag.page, token as nat) == Some(tag.name)
    requires st.page == tag.page && st.rest == [if content then token + CONTENT else token] + rest
    requires st.elements > 0 ==> st.stack != []
    requires if st.elements == 0 then tag == Tag(0, "SyncML") && declares == Some(ns) else declares == None
    ensures var e := if content then Start(tag, declares) else Empty(tag, declares);
            if Room(st, 1, 1, Size(e))
            then Loop(table, ns, st) ==
                 Loop(table, ns, State(rest, tag.page, if content then st.stack + [tag] else st.stack,
                                       st.elements + 1, st.events + [e], st.size + Size(e)))
            else Loop(table, ns, st).Err?
  {
    hide TagName;
    hide Size;
    hide StepText;
    assert st.rest[1..] == rest;
  }

  lemma DecodeEnd(tag: Tag, ns: string, st: State, below: seq<Tag>, rest: Bytes, table: Bytes)
    requires st.rest == [END] + rest && st.stack == below + [tag]
    requires st.elements > 0
    ensures if st.size + Size(Event.End(tag)) <= MAX_XML_BYTES
            then Loop(table, ns, st) ==
                 Loop(table, ns, State(rest, st.page, below, st.elements, st.events + [Event.End(tag)],
                     st.size + Size(Event.End(tag))))
            else Loop(table, ns, st).Err?
  {
    hide Size;
    hide StepText;
    hide StepTag;
    assert st.rest[1..] == rest;
    assert st.stack[..|st.stack| - 1] == below;
  }

  // ---- elements ----

  lemma SizeOfContent(e: Xml, declares: Option<string>)
    requires E.HasContent(e)
    ensures SizeOf(EventsOf(e, declares))
         == Size(Start(TagOf(e), declares)) + SizeOf(TextEvents(e.text)) + SizeOf(EventsOfAll(e.children))
            + Size(Event.End(TagOf(e)))
  {
    hide Size;
    var start, end := [Start(TagOf(e), declares)], [Event.End(TagOf(e))];
    SizeOfOne(start[0]);
    SizeOfOne(end[0]);
    SizeOfConcat(start, TextEvents(e.text));
    SizeOfConcat(start + TextEvents(e.text), EventsOfAll(e.children));
    SizeOfConcat(start + TextEvents(e.text) + EventsOfAll(e.children), end);
  }

  lemma SizeOfChildren(cs: seq<Child>)
    requires cs != []
    ensures SizeOf(EventsOfAll(cs))
         == SizeOf(EventsOf(cs[0].element, None)) + SizeOf(TextEvents(cs[0].tail)) + SizeOf(EventsOfAll(cs[1..]))
  {
    SizeOfConcat(EventsOf(cs[0].element, None), TextEvents(cs[0].tail));
    SizeOfConcat(EventsOf(cs[0].element, None) + TextEvents(cs[0].tail), EventsOfAll(cs[1..]));
  }

  /** Only the root is read with nothing open, and only it declares. */
  predicate AtElement(st: State, e: Xml, declares: Option<string>, ns: string) {
    if st.elements == 0 then TagOf(e) == Tag(0, "SyncML") && declares == Some(ns)
    else st.stack != [] && declares == None
  }

  /** The element's bytes are read as the element's events, whatever follows them. */
  lemma {:induction false} DecodeElement(e: Xml, declares: Option<string>, c: E.Coding, table: Bytes, st: State,
                                         rest: Bytes)
    requires E.ElementBytes(e, st.page, c).Some? && st.rest == E.ElementBytes(e, st.page, c).value.0 + rest
    requires AtElement(st, e, declares, c.syncmlNs)
    requires XmlText(e) && Agree(c, table) && |E.ElementBytes(e, st.page, c).value.0| <= MAX_UINT32
    requires Room(st, 0, 0, 0)
    ensures if Room(st, Depth(e), Count(e), SizeOf(EventsOf(e, declares)))
            then Loop(table, c.syncmlNs, st)
              == Loop(table, c.syncmlNs,
                  Advance(st, rest, E.ElementBytes(e, st.page, c).value.1, Count(e), EventsOf(e, declares)))
            else Loop(table, c.syncmlNs, st).Err?
    decreases e, 2
  {
    hide Loop;
    hide Size;
    hide TagName;
    hide TagToken;
    hide E.TextToken;
    hide SizeOf;
    var page := E.TagPage(e.ns, c.syncmlNs).value;
    var token := TagToken(page, e.name).value;
    var body := if E.HasContent(e) then E.ContentBytes(e, token, page, c).value.0 else [token];
    E.Assoc(E.Switch(st.page, page), body, rest);
    DecodeSwitch(st.page, page, table, c.syncmlNs, st, body + rest);
    var s1 := st.(rest := body + rest, page := page);
    if E.HasContent(e) {
      DecodeContent(e, token, declares, c, table, s1, rest);
    } else {
      SizeOfOne(Empty(TagOf(e), declares));
      assert Depth(e) == 1 && Count(e) == 1 && EventsOf(e, declares) == [Empty(TagOf(e), declares)];
      DecodeTag(TagOf(e), declares, false, token, c.syncmlNs, s1, rest, table);
    }
  }

  lemma {:induction false} DecodeContent(e: Xml, token: byte, declares: Option<string>, c: E.Coding, table: Bytes,
                                         st: State, rest: Bytes)
    requires st.page < 2 && PageOf(e.ns) == st.page && E.HasContent(e)
    requires 5 <= token < CONTENT && TagName(st.page, token as nat) == Some(e.name)
    requires E.ContentBytes(e, token, st.page, c).Some?
        && st.rest == E.ContentBytes(e, token, st.page, c).value.0 + rest
    requires AtElement(st, e, declares, c.syncmlNs)
    requires XmlText(e) && Agree(c, table) && |E.ContentBytes(e, token, st.page, c).value.0| <= MAX_UINT32
    requires Room(st, 0, 0, 0)
    ensures if Room(st, Depth(e), Count(e), SizeOf(EventsOf(e, declares)))
            then Loop(table, c.syncmlNs, st)
              == Loop(table, c.syncmlNs,
                  Advance(st, rest, E.ContentBytes(e, token, st.page, c).value.1, Count(e), EventsOf(e, declares)))
            else Loop(table, c.syncmlNs, st).Err?
    decreases e, 1
  {
    hide Loop;
    hide Size;
    hide TagName;
    hide E.TextToken;
    hide SizeOf;
    hide E.ChildrenBytes;
    hide EventsOfAll;
    hide TextEvents;
    hide DepthAll;
    hide CountAll;
    hide XmlTexts;
    var tag, ns := TagOf(e), c.syncmlNs;
    SizeOfContent(e, declares);
    var (inner, page) := E.ChildrenBytes(e.children, st.page, c).value;
    var text := E.TextToken(e.text, c);
    var r3 := [END] + rest;
    var r2 := inner + r3;
    var r1 := text + r2;
    assert st.rest == [token + CONTENT] + r1;
    DecodeTag(tag, declares, true, token, ns, st, r1, table);
    var start := Start(tag, declares);
    if Room(st, 1, 1, Size(start)) {
      var s1 := State(r1, st.page, st.stack + [tag], st.elements + 1, st.events + [start], st.size + Size(start));
      DecodeTextToken(e.text, c, table, ns, s1, r2);
      if Room(s1, 0, 0, SizeOf(TextEvents(e.text))) {
        var s2 := Advance(s1, r2, st.page, 0, TextEvents(e.text));
        DecodeChildren(e.children, c, table, s2, r3);
        var s3 := Advance(s2, r3, page, CountAll(e.children), EventsOfAll(e.children));
        if Room(s2, DepthAll(e.children), CountAll(e.children), SizeOf(EventsOfAll(e.children))) {
          DecodeEnd(tag, ns, s3, st.stack, rest, table);
          assert s3.events + [Event.End(tag)] == st.events + EventsOf(e, declares);
        }
      }
    }
  }

  lemma {:induction false} DecodeChildren(cs: seq<Child>, c: E.Coding, table: Bytes, st: State, rest: Bytes)
    requires E.ChildrenBytes(cs, st.page, c).Some? && st.rest == E.ChildrenBytes(cs, st.page, c).value.0 + rest
    requires st.elements > 0 && st.stack != []
    requires XmlTexts(cs) && Agree(c, table) && |E.ChildrenBytes(cs, st.page, c).value.0| <= MAX_UINT32
    requires Room(st, 0, 0, 0)
    ensures if Room(st, DepthAll(cs), CountAll(cs), SizeOf(EventsOfAll(cs)))
            then Loop(table, c.syncmlNs, st)
              == Loop(table, c.syncmlNs,
                  Advance(st, rest, E.ChildrenBytes(cs, st.page, c).value.1, CountAll(cs), EventsOfAll(cs)))
            else Loop(table, c.syncmlNs, st).Err?
    decreases cs, 0
  {
    hide Loop;
    hide Size;
    hide SizeOf;
    hide EventsOf;
    hide E.TextToken;
    hide E.ElementBytes;
    hide Depth;
    hide Count;
    hide XmlText;
    if cs == [] {
      NothingRead(st);
      assert st.rest == rest;
    } else {
      var e, tail, ns := cs[0].element, cs[0].tail, c.syncmlNs;
      SizeOfChildren(cs);
      var (b, p1) := E.ElementBytes(e, st.page, c).value;
      var (more, p2) := E.ChildrenBytes(cs[1..], p1, c).value;
      var r2 := more + rest;
      var r1 := E.TextToken(tail, c) + r2;
      assert st.rest == b + r1;
      DecodeElement(e, None, c, table, st, r1);
      if Room(st, Depth(e), Count(e), SizeOf(EventsOf(e, None))) {
        var s1 := Advance(st, r1, p1, Count(e), EventsOf(e, None));
        DecodeTextToken(tail, c, table, ns, s1, r2);
        if Room(s1, 0, 0, SizeOf(TextEvents(tail))) {
          AdvanceTwice(st, r1, p1, Count(e), EventsOf(e, None), r2, p1, 0, TextEvents(tail));
          var s2 := Advance(st, r2, p1, Count(e), EventsOf(e, None) + TextEvents(tail));
          SizeOfConcat(EventsOf(e, None), TextEvents(tail));
          DecodeChildren(cs[1..], c, table, s2, rest);
          AdvanceTwice(st, r2, p1, Count(e), EventsOf(e, None) + TextEvents(tail), rest, p2, CountAll(cs[1..]),
              EventsOfAll(cs[1..]));
        }
      }
    }
  }

  // ---- the document ----

  function RefOf(choice: E.PublicChoice, id: nat): PublicRef {
    if choice.ByName? then InTable(0) else Numeric(id)
  }

  lemma HeaderOfPreamble(version: byte, choice: E.PublicChoice, id: nat, table: Bytes, body: Bytes)
    requires version == VERSION_12 || version == VERSION_13
    requires id == PUBLIC_ID_11 || id == PUBLIC_ID_12
    requires |table| <= MAX_UINT32
    ensures ReadHeader(E.Preamble(version, choice, id, table) + body) == Ok(Header(RefOf(choice, id), table, body))
  {
    hide MbUint32; hide ReadInteger; hide Integer; hide ReadOffset; hide E.Preamble; hide AfterVersion;
    var b1 := AfterVersion(choice, id, table, body);
    PreambleParts(version, choice, id, table, body);
    var b5 := table + body;
    var b4 := MbUint32(|table|) + b5;
    var b3 := MbUint32(CHARSET_UTF8) + b4;
    ReferenceRead(choice, id, b3);
    IntegerOfMbUint32(CHARSET_UTF8, b4);
    IntegerOfMbUint32(|table|, b5);
    assert b5[..|table|] == table && b5[|table|..] == body;
  }

  /** The preamble and body after the version octet. */
  function AfterVersion(choice: E.PublicChoice, id: nat, table: Bytes, body: Bytes): Bytes
    requires id <= MAX_UINT32 && |table| <= MAX_UINT32
  {
    (if choice.ByName? then [0, 0] else MbUint32(id)) + (MbUint32(CHARSET_UTF8) + (MbUint32(|table|) + (table + body)))
  }

  lemma PreambleParts(version: byte, choice: E.PublicChoice, id: nat, table: Bytes, body: Bytes)
    requires id <= MAX_UINT32 && |table| <= MAX_UINT32
    ensures var (all, b1) := (E.Preamble(version, choice, id, table) + body, AfterVersion(choice, id, table, body));
            |all| == 1 + |b1| && all[..1] == [version] && all[1..] == b1
    ensures AfterVersion(choice, id, table, body)
            == (if choice.ByName? then [0, 0] else MbUint32(id))
               + (MbUint32(CHARSET_UTF8) + (MbUint32(|table|) + (table + body)))
  {
    hide MbUint32;
    assert E.Preamble(version, choice, id, table) + body == [version] + AfterVersion(choice, id, table, body);
  }

  /** The public identifier is read back, in whichever form it was written. */
  lemma ReferenceRead(choice: E.PublicChoice, id: nat, rest: Bytes)
    requires id == PUBLIC_ID_11 || id == PUBLIC_ID_12
    ensures var b: Bytes := if choice.ByName? then [0, 0] else MbUint32(id);
            var first := Integer(b + rest);
            && first.Ok?
            && (if choice.ByName? then first.value.0 == 0 && ReadOffset(first.value.1) == Ok((InTable(0), rest))
                else first.value == (id, rest))
  {
    if choice.ByName? {
      assert MbUint32(0) == [0];
      assert [0, 0] + rest == MbUint32(0) + ([0] + rest);
      IntegerOfMbUint32(0, [0] + rest);
      IntegerOfMbUint32(0, rest);
    } else {
      IntegerOfMbUint32(id, rest);
    }
  }

  lemma PublicIdResolves(tree: Xml, choice: E.PublicChoice, table: E.Table)
    requires var id := E.NumericId(tree, choice); id == PUBLIC_ID_11 || id == PUBLIC_ID_12
    requires E.Resolves(table)
    requires choice.ByName? ==> choice.name in table.offsets && table.offsets[choice.name] == 0
    ensures ResolvePublicId(RefOf(choice, E.NumericId(tree, choice)), table.bytes) == Ok(E.NumericId(tree, choice))
  {
    hide TableString;
    hide DecodeText;
    hide Utf8.Encode;
    if choice.ByName? {
      PublicNameIsText(choice.name);
      DecodeTextOfEncode(choice.name);
    }
  }

  lemma PublicNameIsText(name: string)
    requires PublicId(name) != 0
    ensures Utf8.IsXmlText(name) && E.NoNul(name)
  {
  }

  lemma {:induction false} StrippedIsText(e: Xml)
    requires XmlText(e)
    ensures XmlText(Stripped(e))
    decreases e, 1
  {
    StrippedAllIsText(e.children);
  }

  lemma {:induction false} StrippedAllIsText(cs: seq<Child>)
    requires XmlTexts(cs)
    ensures XmlTexts(StrippedAll(cs))
    decreases cs, 0
  {
    if cs != [] {
      StrippedIsText(cs[0].element);
      StrippedAllIsText(cs[1..]);
      assert StrippedAll(cs)[1..] == StrippedAll(cs[1..]);
    }
  }

  lemma {:induction false} EncodedNamespaces(e: Xml, page: nat, c: E.Coding)
    requires E.ElementBytes(e, page, c).Some?
    ensures KnownNamespaces(e, c.syncmlNs)
    decreases e, 1
  {
    if E.HasContent(e) {
      EncodedNamespacesAll(e.children, E.TagPage(e.ns, c.syncmlNs).value, c);
    }
  }

  lemma {:induction false} EncodedNamespacesAll(cs: seq<Child>, page: nat, c: E.Coding)
    requires E.ChildrenBytes(cs, page, c).Some?
    ensures KnownNamespacesAll(cs, c.syncmlNs)
    decreases cs, 0
  {
    if cs != [] {
      EncodedNamespaces(cs[0].element, page, c);
      EncodedNamespacesAll(cs[1..], E.ElementBytes(cs[0].element, page, c).value.1, c);
    }
  }

  /** The stripped tree is within the decoder's limits. */
  predicate WithinLimits(root: Xml, ns: string) {
    Room(Initial([]), Depth(root), Count(root), SizeOf(EventsOf(root, Some(ns))))
  }

  lemma {:induction false} ShareKeeps(t: E.Table, texts: seq<string>, upTo: nat, s: string)
    requires upTo <= |texts| && s in t.offsets
    ensures s in E.Share(t, texts, upTo).offsets && E.Share(t, texts, upTo).offsets[s] == t.offsets[s]
  {
    hide E.Worthwhile; hide Utf8.Encode;
    if upTo > 0 { ShareKeeps(t, texts, upTo - 1, s); }
  }

  /** The loop over the body gives the events of the root, exactly when the root is within the limits. */
  lemma DecodeRoot(root: Xml, c: E.Coding, table: Bytes, body: Bytes)
    requires root.name == "SyncML" && (root.ns == "" || root.ns == c.syncmlNs) && c.syncmlNs != METINF_NS
    requires E.ElementBytes(root, 0, c).Some? && body == E.ElementBytes(root, 0, c).value.0 && |body| <= MAX_UINT32
    requires XmlText(root) && Agree(c, table)
    ensures var r := Loop(table, c.syncmlNs, Initial(body));
            if WithinLimits(root, c.syncmlNs) then r == Ok(EventsOf(root, Some(c.syncmlNs))) else r.Err?
  {
    hide E.ElementBytes;
    hide SizeOf;
    hide EventsOf;
    hide XmlText;
    var st, declares := Initial(body), Some(c.syncmlNs);
    assert body + [] == body;
    assert METINF_NS != "";
    assert AtElement(st, root, declares, c.syncmlNs);
    DecodeElement(root, declares, c, table, st, []);
    if WithinLimits(root, c.syncmlNs) {
      assert [] + EventsOf(root, declares) == EventsOf(root, declares);
      var after := Advance(st, [], E.ElementBytes(root, 0, c).value.1, Count(root), EventsOf(root, declares));
      assert Loop(table, c.syncmlNs, after) == Ok(EventsOf(root, declares));
    }
  }

  /**
   The round trip. Every tree that encodes, in any text mode, version and form of the public
   identifier, decodes to itself with the formatting white space gone and unqualified elements in
   the SyncML namespace; it does so exactly when it is within the decoder's limits, and is
   rejected otherwise.
   */
  lemma RoundTrip(tree: Xml, version: byte, choice: E.PublicChoice, useStringTable: bool, opaqueText: bool)
    requires XmlText(tree)
    requires E.Encode(tree, version, choice, useStringTable, opaqueText).Some?
    ensures var payload := E.Encode(tree, version, choice, useStringTable, opaqueText).value;
            var id := E.NumericId(tree, choice);
            && (id == PUBLIC_ID_11 || id == PUBLIC_ID_12)
            && (Decode(payload).Ok? <==>
                 |payload| <= MAX_INPUT_BYTES && WithinLimits(Stripped(tree), PublicNamespace(id)))
            && (Decode(payload).Ok? ==>
                  && Decode(payload).value.publicId == id
                  && ParseDocument(Decode(payload).value) == Some(Qualified(Stripped(tree), PublicNamespace(id))))
  {
    var id, root := E.NumericId(tree, choice), Stripped(tree);
    var ns := PublicNamespace(id);
    var table := E.StringTable(root, choice, useStringTable, opaqueText);
    var c := E.CodingFor(root, id, table, opaqueText);
    var body := E.ElementBytes(root, 0, c).value.0;
    StrippedIsText(tree);
    TableReady(tree, root, choice, useStringTable, opaqueText);
    HeaderOfPreamble(version, choice, id, table.bytes, body);
    DecodeRoot(root, c, table.bytes, body);
    EncodedNamespaces(root, 0, c);
    ParseRoot(root, id);
    hide SizeOf;
    hide EventsOf;
    hide Loop;
    hide E.ElementBytes;
    hide ReadHeader;
    hide ResolvePublicId;
    hide E.StringTable;
    hide Stripped;
    hide Parse;
    hide KnownNamespaces;
  }

  lemma TableReady(tree: Xml, root: Xml, choice: E.PublicChoice, useStringTable: bool, opaqueText: bool)
    requires XmlText(root)
    requires E.NumericId(tree, choice) == PUBLIC_ID_11 || E.NumericId(tree, choice) == PUBLIC_ID_12
    ensures var table := E.StringTable(root, choice, useStringTable, opaqueText);
            E.Resolves(table)
                && ResolvePublicId(RefOf(choice, E.NumericId(tree, choice)), table.bytes)
                   == Ok(E.NumericId(tree, choice))
  {
    var table := E.StringTable(root, choice, useStringTable, opaqueText);
    if choice.ByName? {
      PublicNameIsText(choice.name);
      ShareKeeps(E.AddEntry(E.Table([], map[]), choice.name), E.TextsOf(root, ""), |E.TextsOf(root, "")|, choice.name);
    }
    E.StringTableResolves(root, choice, useStringTable, opaqueText);
    PublicIdResolves(tree, choice, table);
  }

  lemma ParseRoot(root: Xml, id: nat)
    requires id == PUBLIC_ID_11 || id == PUBLIC_ID_12
    requires KnownNamespaces(root, PublicNamespace(id))
    ensures ParseDocument(Document(id, EventsOf(root, Some(PublicNamespace(id)))))
        == Some(Qualified(root, PublicNamespace(id)))
  {
    var ns := PublicNamespace(id);
    var events := EventsOf(root, Some(ns));
    assert events + [] == events;
    assert ns != METINF_NS;
    ParseElement(root, Some(ns), [], Parser([], None), ns);
    hide EventsOf;
    hide Qualified;
  }
}
