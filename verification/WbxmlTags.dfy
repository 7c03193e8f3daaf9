/**
 The tag tables on the wire: every byte that is a tag, by a document that holds it, and no other.
 WAP-192 (WBXML 1.3) section 5.8, the SyncML and MetInf tables, and src/acs/protocol/omadm/wbxml.py:40-134.

 The decoder's own constants and tables do not appear in these statements.
 */
module WbxmlTags {
  import opened Wrappers
  import opened Xml
  import opened WbxmlFormat
  import opened WbxmlDecoder
  import opened WbxmlParse
  import Utf8

  // ---- sizes: a short document is never too large ----

  lemma {:induction false} EscapeIsShort(text: string)
    ensures |Escape(text)| <= 5 * |text|
  {
    if text != "" { EscapeIsShort(text[1..]); }
  }

  lemma {:induction false} Utf8IsShort(s: string)
    ensures |Utf8.Encode(s)| <= 4 * |s|
  {
    hide Utf8.EncodeChar;
    if s != "" { Utf8IsShort(s[1..]); }
  }

  lemma EventIsShort(e: Event)
    ensures e.Text? ==> Size(e) <= 20 * |e.text|
    ensures e.End? ==> Size(e) <= 4 * (|e.tag.name| + 10)
    ensures e.Start? || e.Empty? ==>
              Size(e) <= 4 * (|e.tag.name| + 10 + (if e.declares.Some? then |e.declares.value| + 60 else 0))
  {
    Utf8IsShort(Rendered(e));
    if e.Text? { EscapeIsShort(e.text); }
    hide Utf8.Encode; hide Escape;
  }

  /** What the receiver makes of a payload, if anything. */
  function Received(payload: Bytes): Option<Xml> {
    var d := Decode(payload);
    if d.Err? then None else ParseDocument(d.value)
  }

  // ---- the tag tables ----

  const NS12 := "SYNCML:SYNCML1.2"

  /** A SyncML root with one empty element in it, as the receiver sees it. */
  function Holding(ns: string, name: string): Xml {
    Element(NS12, "SyncML", "", [Child(Element(ns, name, "", []), "")])
  }

  /**
   On this page this byte is the tag of this name: alone for an empty element, with bit 0x40 for one that is
   ended by 0x01.
   */
  predicate Carries(page: byte, token: byte, name: string)
    requires token < 0x40
  {
    var tree := Holding(if page == 1 then "syncml:metinf" else NS12, name);
    && Received([3, 0xA4, 1, 0x6A, 0, 0x6D, 0, page, token, 1]) == Some(tree)
    && Received([3, 0xA4, 1, 0x6A, 0, 0x6D, 0, page, token + 0x40, 1, 1]) == Some(tree)
  }

  lemma HeaderReads(body: Bytes)
    ensures ReadHeader([3, 0xA4, 1, 0x6A, 0] + body) == Ok(Header(Numeric(0x1201), [], body))
  {
    var payload := [3, 0xA4, 1, 0x6A, 0] + body;
    assert payload[1..] == MbUint32(0x1201) + (MbUint32(106) + (MbUint32(0) + body)) by {
      ShortInteger(106);
      ShortInteger(0);
      TwoBytes();
    }
    IntegerOfMbUint32(0x1201, MbUint32(106) + (MbUint32(0) + body));
    IntegerOfMbUint32(106, MbUint32(0) + body);
    IntegerOfMbUint32(0, body);
    hide MbUint32; hide Integer;
    assert body[..0] == [] && body[0..] == body;
  }

  lemma ShortInteger(v: nat)
    requires v < 128
    ensures MbUint32(v) == [v as byte]
  {
    assert v / 128 == 0;
  }

  lemma TwoBytes()
    ensures MbUint32(0x1201) == [0xA4, 1] && MbUint32(0x0FD3) == [0x9F, 0x53]
  {
    assert MbHigh(0x24) == MbHigh(0) + [0xA4];
    assert MbHigh(0x1F) == MbHigh(0) + [0x9F];
  }

  // ---- one turn after another ----

  lemma Turns(table: Bytes, ns: string, st: State, next: State)
    requires st.rest != [] && Step(table, ns, st) == Ok(next)
    ensures Loop(table, ns, st) == Loop(table, ns, next)
  {
    hide Step;
  }

  lemma TagStep(token: byte, st: State, name: string, content: bool)
    requires 5 <= token < 0x40 && TagName(st.page, token as nat) == Some(name)
    requires st.rest != [] && st.rest[0] == (if content then token + 0x40 else token)
    requires |st.stack| <= 1 && st.elements <= 1 && (st.elements == 0 ==> st.stack == [])
    requires st.elements == 0 ==> st.page == 0 && name == "SyncML"
    requires st.elements == 1 ==> st.stack != []
    requires st.size + 4 * (|name| + 100) <= 2000
    ensures var (tag, declares) := (Tag(st.page, name), if st.elements == 0 then Some(NS12) else None);
            var e := if content then Start(tag, declares) else Empty(tag, declares);
            && Size(e) <= 4 * (|name| + 100)
            && Step([], NS12, st)
               == Ok(st.(rest := st.rest[1..], elements := st.elements + 1, events := st.events + [e],
                         stack := if content then st.stack + [tag] else st.stack, size := st.size + Size(e)))
  {
    hide TagName; hide Size;
    var (tag, declares) := (Tag(st.page, name), if st.elements == 0 then Some(NS12) else None);
    EventIsShort(Start(tag, declares));
    EventIsShort(Empty(tag, declares));
    assert Step([], NS12, st) == StepTag(NS12, st.rest[0], st);
    hide Step;
  }

  lemma EndStep(st: State)
    requires st.stack != [] && st.rest != [] && st.rest[0] == 1
    requires st.size + 4 * (|st.stack[|st.stack| - 1].name| + 10) <= 2000
    ensures var e := Event.End(st.stack[|st.stack| - 1]);
            && Size(e) <= 4 * (|st.stack[|st.stack| - 1].name| + 10)
            && Step([], NS12, st)
               == Ok(st.(rest := st.rest[1..], stack := st.stack[..|st.stack| - 1], events := st.events + [e],
                         size := st.size + Size(e)))
  {
    hide Size;
    EventIsShort(Event.End(st.stack[|st.stack| - 1]));
  }

  lemma PageStep(st: State)
    requires st.stack != [] && |st.rest| >= 2 && st.rest[0] == 0 && st.rest[1] < 2
    ensures Step([], NS12, st) == Ok(st.(rest := st.rest[2..], page := st.rest[1] as nat))
  {
  }

  lemma RootName()
    ensures TagName(0, 0x2D) == Some("SyncML")
  {
  }

  /** The events of the two forms of a tag in an otherwise empty root. */
  function BareEvents(tag: Tag): seq<Event> {
    var root := Tag(0, "SyncML");
    [Start(root, Some(NS12)), Empty(tag, None), Event.End(root)]
  }

  function EndedEvents(tag: Tag): seq<Event> {
    var root := Tag(0, "SyncML");
    [Start(root, Some(NS12)), Start(tag, None), Event.End(tag), Event.End(root)]
  }

  /** The turns of the loop up to the tag. */
  lemma UpToTag(page: byte, more: Bytes) returns (st: State)
    requires page < 2
    ensures Loop([], NS12, Initial([0x6D, 0, page] + more)) == Loop([], NS12, st)
    ensures var e := Start(Tag(0, "SyncML"), Some(NS12));
            st == State(more, page as nat, [Tag(0, "SyncML")], 1, [e], Size(e)) && st.size <= 424
  {
    RootName();
    var s0 := Initial([0x6D, 0, page] + more);
    TagStep(0x2D, s0, "SyncML", true);
    hide Step; hide Size; hide Loop; hide TagName;
    var e := Start(Tag(0, "SyncML"), Some(NS12));
    assert [] + [e] == [e] && [] + [Tag(0, "SyncML")] == [Tag(0, "SyncML")];
    var s1 := State(s0.rest[1..], 0, [Tag(0, "SyncML")], 1, [e], Size(e));
    Turns([], NS12, s0, s1);
    PageStep(s1);
    assert s1.rest[2..] == more;
    st := s1.(rest := more, page := page as nat);
    Turns([], NS12, s1, st);
  }

  function Tagged(st: State, rest: Bytes, name: string, content: bool): State {
    var tag := Tag(st.page, name);
    var e := if content then Start(tag, None) else Empty(tag, None);
    st.(rest := rest, elements := st.elements + 1, events := st.events + [e], size := st.size + Size(e),
        stack := if content then st.stack + [tag] else st.stack)
  }

  function Ended(st: State, rest: Bytes, before: seq<Tag>, tag: Tag): State {
    st.(rest := rest, stack := before, events := st.events + [Event.End(tag)], size := st.size + Size(Event.End(tag)))
  }

  lemma TagGoes(token: byte, st: State, rest: Bytes, name: string, content: bool)
    requires 5 <= token < 0x40 && TagName(st.page, token as nat) == Some(name) && |name| <= 20
    requires st.rest == [if content then token + 0x40 else token] + rest
    requires |st.stack| == 1 && st.elements == 1 && st.size <= 500
    ensures Loop([], NS12, st) == Loop([], NS12, Tagged(st, rest, name, content))
    ensures Tagged(st, rest, name, content).size <= 1000
  {
    TagStep(token, st, name, content);
    assert st.rest[1..] == rest;
    hide Step; hide TagName; hide Size;
    Turns([], NS12, st, Tagged(st, rest, name, content));
  }

  lemma EndGoes(st: State, rest: Bytes, before: seq<Tag>, tag: Tag)
    requires st.stack == before + [tag] && st.rest == [1] + rest && |tag.name| <= 20 && st.size <= 1500
    ensures Loop([], NS12, st) == Loop([], NS12, Ended(st, rest, before, tag))
    ensures Ended(st, rest, before, tag).size <= st.size + 120
  {
    EndStep(st);
    assert st.rest[1..] == rest && st.stack[..|before|] == before;
    hide Step; hide Size;
    Turns([], NS12, st, Ended(st, rest, before, tag));
  }

  lemma Stops(st: State)
    requires st.rest == [] && st.stack == [] && st.elements > 0
    ensures Loop([], NS12, st) == Ok(st.events)
  {
  }

  lemma BareTag(page: byte, token: byte, name: string)
    requires page < 2 && 5 <= token < 0x40 && TagName(page as nat, token as nat) == Some(name) && |name| <= 20
    ensures Loop([], NS12, Initial([0x6D, 0, page] + [token, 1])) == Ok(BareEvents(Tag(page as nat, name)))
  {
    hide Loop; hide Size; hide TagName;
    var root := Tag(0, "SyncML");
    var s2 := UpToTag(page, [token, 1]);
    assert [token, 1] == [token] + [1] && [1] == [1] + [] && [root] == [] + [root];
    TagGoes(token, s2, [1], name, false);
    var s3 := Tagged(s2, [1], name, false);
    EndGoes(s3, [], [], root);
    Stops(Ended(s3, [], [], root));
    assert Ended(s3, [], [], root).events == BareEvents(Tag(page as nat, name));
  }

  lemma EndedTag(page: byte, token: byte, name: string)
    requires page < 2 && 5 <= token < 0x40 && TagName(page as nat, token as nat) == Some(name) && |name| <= 20
    ensures Loop([], NS12, Initial([0x6D, 0, page] + [token + 0x40, 1, 1])) == Ok(EndedEvents(Tag(page as nat, name)))
  {
    hide Loop; hide Size; hide TagName;
    var root, tag := Tag(0, "SyncML"), Tag(page as nat, name);
    var s2 := UpToTag(page, [token + 0x40, 1, 1]);
    assert [token + 0x40, 1, 1] == [token + 0x40] + [1, 1] && [1, 1] == [1] + [1];
    assert [1] == [1] + [] && [root] == [] + [root];
    TagGoes(token, s2, [1, 1], name, true);
    var s3 := Tagged(s2, [1, 1], name, true);
    EndGoes(s3, [1], [root], tag);
    var s4 := Ended(s3, [1], [root], tag);
    EndGoes(s4, [], [], root);
    Stops(Ended(s4, [], [], root));
    assert Ended(s4, [], [], root).events == EndedEvents(tag);
  }

  lemma TreeOf(tag: Tag)
    requires tag.page < 2
    ensures var tree := Holding(if tag.page == 1 then "syncml:metinf" else NS12, tag.name);
            && Parse(BareEvents(tag), Parser([], None), NS12) == Some(tree)
            && Parse(EndedEvents(tag), Parser([], None), NS12) == Some(tree)
  {
    var root := Tag(0, "SyncML");
    var p1 := Parser([Frame(root, "", [])], None);
    var c := Child(Closed(Frame(tag, "", []), NS12), "");
    var p2 := Parser([Frame(root, "", [c])], None);
    var p3 := Parser([Frame(root, "", []), Frame(tag, "", [])], None);
    var done := Parser([], Some(Element(NS12, "SyncML", "", [c])));
    var bare, ended := BareEvents(tag), EndedEvents(tag);
    FedTag(tag);
    hide Feed;
    ParsesOn(bare, 0, Parser([], None), p1);
    ParsesOn(bare, 1, p1, p2);
    ParsesOn(bare, 2, p2, done);
    ParsesOn(ended, 0, Parser([], None), p1);
    ParsesOn(ended, 1, p1, p3);
    ParsesOn(ended, 2, p3, p2);
    ParsesOn(ended, 3, p2, done);
  }

  lemma FedTag(tag: Tag)
    requires tag.page < 2
    ensures var root := Tag(0, "SyncML");
            var p1 := Parser([Frame(root, "", [])], None);
            var c := Child(Closed(Frame(tag, "", []), NS12), "");
            var p2 := Parser([Frame(root, "", [c])], None);
            var p3 := Parser([Frame(root, "", []), Frame(tag, "", [])], None);
            && Feed(Parser([], None), Start(root, Some(NS12)), NS12) == Some(p1)
            && Feed(p1, Empty(tag, None), NS12) == Some(p2)
            && Feed(p1, Start(tag, None), NS12) == Some(p3)
            && Feed(p3, Event.End(tag), NS12) == Some(p2)
            && Feed(p2, Event.End(root), NS12) == Some(Parser([], Some(Element(NS12, "SyncML", "", [c]))))
  {
    var root := Tag(0, "SyncML");
    var (f, g) := (Frame(root, "", []), Frame(tag, "", []));
    var c := Child(Closed(g, NS12), "");
    assert [] + [f] == [f] && [] + [c] == [c] && [f] + [g] == [f, g] && [f, g][..1] == [f];
    assert [f][0 := Frame(root, "", [c])] == [Frame(root, "", [c])];
    assert [Frame(root, "", [c])][..0] == [];
  }

  lemma ParsesOn(events: seq<Event>, i: nat, p: Parser, next: Parser)
    requires i < |events| && Feed(p, events[i], NS12) == Some(next)
    ensures Parse(events[i..], p, NS12) == Parse(events[i + 1..], next, NS12)
    ensures i == 0 ==> events[i..] == events
    ensures i + 1 == |events| ==> Parse(events[i + 1..], next, NS12) == if next.frames == [] then next.root else None
  {
    hide Feed;
    assert events[i..][1..] == events[i + 1..];
  }

  lemma TagIsRead(page: byte, token: byte, name: string)
    requires page < 2 && 5 <= token < 0x40 && TagName(page as nat, token as nat) == Some(name) && |name| <= 20
    ensures Carries(page, token, name)
  {
    hide Received; hide Loop; hide Parse; hide TagName; hide BareEvents; hide EndedEvents; hide Holding;
    var tag := Tag(page as nat, name);
    BareTag(page, token, name);
    EndedTag(page, token, name);
    BodyIsRead([0x6D, 0, page] + [token, 1], BareEvents(tag));
    BodyIsRead([0x6D, 0, page] + [token + 0x40, 1, 1], EndedEvents(tag));
    TreeOf(tag);
    Body(page, token);
    EndedBody(page, token);
  }

  lemma Body(page: byte, token: byte)
    ensures [3, 0xA4, 1, 0x6A, 0] + ([0x6D, 0, page] + [token, 1]) == [3, 0xA4, 1, 0x6A, 0, 0x6D, 0, page, token, 1]
  {
  }

  lemma EndedBody(page: byte, token: byte)
    requires token < 0x40
    ensures [3, 0xA4, 1, 0x6A, 0] + ([0x6D, 0, page] + [token + 0x40, 1, 1])
         == [3, 0xA4, 1, 0x6A, 0, 0x6D, 0, page, token + 0x40, 1, 1]
  {
  }

  lemma BodyIsRead(body: Bytes, events: seq<Event>)
    requires |body| < 100
    ensures Loop([], NS12, Initial(body)) == Ok(events) ==>
              Received([3, 0xA4, 1, 0x6A, 0] + body) == Parse(events, Parser([], None), NS12)
  {
    HeaderReads(body);
    hide Loop; hide ReadHeader; hide Parse;
    var payload := [3, 0xA4, 1, 0x6A, 0] + body;
    if Loop([], NS12, Initial(body)) == Ok(events) {
      assert Decode(payload) == Ok(Document(0x1201, events));
    }
  }

  // ---- every entry of both tables ----

  /** SyncML, page 0. */
  lemma SyncMlPageFirst()
    ensures
      && Carries(0, 0x05, "Add") && Carries(0, 0x06, "Alert") && Carries(0, 0x07, "Archive")
      && Carries(0, 0x08, "Atomic") && Carries(0, 0x09, "Chal") && Carries(0, 0x0A, "Cmd")
      && Carries(0, 0x0B, "CmdID") && Carries(0, 0x0C, "CmdRef") && Carries(0, 0x0D, "Copy")
      && Carries(0, 0x0E, "Cred") && Carries(0, 0x0F, "Data") && Carries(0, 0x10, "Delete")
      && Carries(0, 0x11, "Exec") && Carries(0, 0x12, "Final") && Carries(0, 0x13, "Get") && Carries(0, 0x14, "Item")
      && Carries(0, 0x15, "Lang") && Carries(0, 0x16, "LocName") && Carries(0, 0x17, "LocURI")
  {
    hide Carries;
    TagIsRead(0, 0x05, "Add"); TagIsRead(0, 0x06, "Alert"); TagIsRead(0, 0x07, "Archive");
    TagIsRead(0, 0x08, "Atomic"); TagIsRead(0, 0x09, "Chal"); TagIsRead(0, 0x0A, "Cmd"); TagIsRead(0, 0x0B, "CmdID");
    TagIsRead(0, 0x0C, "CmdRef"); TagIsRead(0, 0x0D, "Copy"); TagIsRead(0, 0x0E, "Cred"); TagIsRead(0, 0x0F, "Data");
    TagIsRead(0, 0x10, "Delete"); TagIsRead(0, 0x11, "Exec"); TagIsRead(0, 0x12, "Final"); TagIsRead(0, 0x13, "Get");
    TagIsRead(0, 0x14, "Item"); TagIsRead(0, 0x15, "Lang"); TagIsRead(0, 0x16, "LocName");
    TagIsRead(0, 0x17, "LocURI");
  }

  lemma SyncMlPageSecond()
    ensures
      && Carries(0, 0x18, "Map") && Carries(0, 0x19, "MapItem") && Carries(0, 0x1A, "Meta")
      && Carries(0, 0x1B, "MsgID") && Carries(0, 0x1C, "MsgRef") && Carries(0, 0x1D, "NoResp")
      && Carries(0, 0x1E, "NoResults") && Carries(0, 0x1F, "Put") && Carries(0, 0x20, "Replace")
      && Carries(0, 0x21, "RespURI") && Carries(0, 0x22, "Results") && Carries(0, 0x23, "Search")
      && Carries(0, 0x24, "Sequence") && Carries(0, 0x25, "SessionID") && Carries(0, 0x26, "SftDel")
      && Carries(0, 0x27, "Source") && Carries(0, 0x28, "SourceRef") && Carries(0, 0x29, "Status")
      && Carries(0, 0x2A, "Sync")
  {
    hide Carries;
    TagIsRead(0, 0x18, "Map"); TagIsRead(0, 0x19, "MapItem"); TagIsRead(0, 0x1A, "Meta");
    TagIsRead(0, 0x1B, "MsgID"); TagIsRead(0, 0x1C, "MsgRef"); TagIsRead(0, 0x1D, "NoResp");
    TagIsRead(0, 0x1E, "NoResults"); TagIsRead(0, 0x1F, "Put"); TagIsRead(0, 0x20, "Replace");
    TagIsRead(0, 0x21, "RespURI"); TagIsRead(0, 0x22, "Results"); TagIsRead(0, 0x23, "Search");
    TagIsRead(0, 0x24, "Sequence"); TagIsRead(0, 0x25, "SessionID"); TagIsRead(0, 0x26, "SftDel");
    TagIsRead(0, 0x27, "Source"); TagIsRead(0, 0x28, "SourceRef"); TagIsRead(0, 0x29, "Status");
    TagIsRead(0, 0x2A, "Sync");
  }

  lemma SyncMlPageThird()
    ensures
      && Carries(0, 0x2B, "SyncBody") && Carries(0, 0x2C, "SyncHdr") && Carries(0, 0x2D, "SyncML")
      && Carries(0, 0x2E, "Target") && Carries(0, 0x2F, "TargetRef") && Carries(0, 0x31, "VerDTD")
      && Carries(0, 0x32, "VerProto") && Carries(0, 0x33, "NumberOfChanges") && Carries(0, 0x34, "MoreData")
      && Carries(0, 0x35, "Field") && Carries(0, 0x36, "Filter") && Carries(0, 0x37, "Record")
      && Carries(0, 0x38, "FilterType") && Carries(0, 0x39, "SourceParent") && Carries(0, 0x3A, "TargetParent")
      && Carries(0, 0x3B, "Move") && Carries(0, 0x3C, "Correlator")
  {
    hide Carries;
    TagIsRead(0, 0x2B, "SyncBody"); TagIsRead(0, 0x2C, "SyncHdr"); TagIsRead(0, 0x2D, "SyncML");
    TagIsRead(0, 0x2E, "Target"); TagIsRead(0, 0x2F, "TargetRef"); TagIsRead(0, 0x31, "VerDTD");
    TagIsRead(0, 0x32, "VerProto"); TagIsRead(0, 0x33, "NumberOfChanges"); TagIsRead(0, 0x34, "MoreData");
    TagIsRead(0, 0x35, "Field"); TagIsRead(0, 0x36, "Filter"); TagIsRead(0, 0x37, "Record");
    TagIsRead(0, 0x38, "FilterType"); TagIsRead(0, 0x39, "SourceParent"); TagIsRead(0, 0x3A, "TargetParent");
    TagIsRead(0, 0x3B, "Move"); TagIsRead(0, 0x3C, "Correlator");
  }

  /** MetInf, page 1. */
  lemma MetInfPage()
    ensures
      && Carries(1, 0x05, "Anchor") && Carries(1, 0x06, "EMI") && Carries(1, 0x07, "Format")
      && Carries(1, 0x08, "FreeID") && Carries(1, 0x09, "FreeMem") && Carries(1, 0x0A, "Last")
      && Carries(1, 0x0B, "Mark") && Carries(1, 0x0C, "MaxMsgSize") && Carries(1, 0x0D, "Mem")
      && Carries(1, 0x0E, "MetInf") && Carries(1, 0x0F, "Next") && Carries(1, 0x10, "NextNonce")
      && Carries(1, 0x11, "SharedMem") && Carries(1, 0x12, "Size") && Carries(1, 0x13, "Type")
      && Carries(1, 0x14, "Version") && Carries(1, 0x15, "MaxObjSize") && Carries(1, 0x16, "FieldLevel")
  {
    hide Carries;
    TagIsRead(1, 0x05, "Anchor"); TagIsRead(1, 0x06, "EMI"); TagIsRead(1, 0x07, "Format");
    TagIsRead(1, 0x08, "FreeID"); TagIsRead(1, 0x09, "FreeMem"); TagIsRead(1, 0x0A, "Last");
    TagIsRead(1, 0x0B, "Mark"); TagIsRead(1, 0x0C, "MaxMsgSize"); TagIsRead(1, 0x0D, "Mem");
    TagIsRead(1, 0x0E, "MetInf"); TagIsRead(1, 0x0F, "Next"); TagIsRead(1, 0x10, "NextNonce");
    TagIsRead(1, 0x11, "SharedMem"); TagIsRead(1, 0x12, "Size"); TagIsRead(1, 0x13, "Type");
    TagIsRead(1, 0x14, "Version"); TagIsRead(1, 0x15, "MaxObjSize"); TagIsRead(1, 0x16, "FieldLevel");
  }

  predicate NoTag(page: byte, token: byte) {
    && token !in {0, 1, 3, 0x83, 0xC3}
    && (|| token >= 0x80 || token % 64 < 5
        || (page == 0 && (token % 64 == 0x30 || token % 64 > 0x3C)) || (page == 1 && token % 64 > 0x16))
  }

  lemma NoName(page: nat, low: nat)
    requires (page == 0 && (low == 0x30 || low > 0x3C)) || (page == 1 && low > 0x16)
    ensures TagName(page, low).None?
  {
  }

  lemma StepRefuses(page: byte, token: byte, st: State)
    requires page < 2 && NoTag(page, token) && st.rest != [] && st.rest[0] == token
    requires st.page == page as nat && st.stack != []
    ensures Loop([], NS12, st).Err?
  {
    var low := token as nat % 64;
    assert StepTag(NS12, token, st).Err? by {
      if token < 0x80 && low >= 5 { NoName(st.page, low); }
      hide TagName; hide Write; hide Loop; hide Step;
    }
    hide StepTag; hide StepText; hide Write;
    assert Step([], NS12, st) == StepTag(NS12, token, st);
    hide Step;
  }

  /** No other byte is a tag: what is past the tables, reserved, global or has attributes is refused. */
  lemma NoOtherTags(page: byte, token: byte)
    requires page < 2 && NoTag(page, token)
    ensures Decode([3, 0xA4, 1, 0x6A, 0, 0x6D, 0, page, token, 1]).Err?
  {
    hide Decode; hide NoTag; hide Size; hide Loop;
    var st := UpToTag(page, [token, 1]);
    StepRefuses(page, token, st);
    BodyIsRefused([0x6D, 0, page] + [token, 1]);
    Body(page, token);
  }

  lemma BodyIsRefused(body: Bytes)
    requires |body| < 100 && Loop([], NS12, Initial(body)).Err?
    ensures Decode([3, 0xA4, 1, 0x6A, 0] + body).Err?
  {
    HeaderReads(body);
    hide Loop; hide ReadHeader;
  }
}
