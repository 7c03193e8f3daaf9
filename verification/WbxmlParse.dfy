/**
 The XML parser that reads the WBXML decoder's output: `Parse` turns the events into a tree.
 Every output is parsed, and the events of a tree are parsed back to that tree.
 */
module WbxmlParse {
  import opened Wrappers
  import opened WbxmlFormat
  import opened Xml
  import opened WbxmlDecoder
  import E = WbxmlEncoder

  // ---- the XML parser on the decoder's output ----

  /** An element whose end has not been seen. */
  datatype Frame = Frame(tag: Tag, text: string, children: seq<Child>)

  function Namespace(tag: Tag, ns: string): string {
    if tag.page == 0 then ns else METINF_NS
  }

  function Closed(f: Frame, ns: string): Xml {
    Element(Namespace(f.tag, ns), f.tag.name, f.text, f.children)
  }

  /** Character data goes to the text before the first child, or to the tail of the last one. */
  function AddText(f: Frame, text: string): Frame {
    if f.children == [] then f.(text := f.text + text)
    else
      var last := |f.children| - 1;
      f.(children := f.children[last := Child(f.children[last].element, f.children[last].tail + text)])
  }

  function AddChild(f: Frame, e: Xml): Frame {
    f.(children := f.children + [Child(e, "")])
  }

  datatype Parser = Parser(frames: seq<Frame>, root: Option<Xml>)

  function OnTop(p: Parser, f: Frame): (q: Parser)
    requires p.frames != []
    ensures |q.frames| == |p.frames| && Top(q) == f
  {
    p.(frames := p.frames[|p.frames| - 1 := f])
  }

  function Top(p: Parser): Frame
    requires p.frames != []
  {
    p.frames[|p.frames| - 1]
  }

  function Complete(p: Parser, e: Xml): Option<Parser> {
    if p.frames == [] then (if p.root.Some? then None else Some(Parser([], Some(e))))
    else Some(OnTop(p, AddChild(Top(p), e)))
  }

  /** One event; None where a parser reports malformed XML. */
  function Feed(p: Parser, e: Event, ns: string): Option<Parser> {
    var top := |p.frames| - 1;
    match e
    case Start(tag, _) =>
      if p.frames == [] && p.root.Some? then None
      else Some(p.(frames := p.frames + [Frame(tag, "", [])]))
    case Empty(tag, _) => Complete(p, Closed(Frame(tag, "", []), ns))
    case Text(text) =>
      if p.frames == [] then None
      else Some(OnTop(p, AddText(Top(p), text)))
    case End(tag) =>
      if p.frames == [] || p.frames[top].tag != tag then None
      else Complete(p.(frames := p.frames[..top]), Closed(p.frames[top], ns))
  }

  function Parse(events: seq<Event>, p: Parser, ns: string): Option<Xml> {
    if events == [] then (if p.frames == [] then p.root else None)
    else
      var next := Feed(p, events[0], ns);
      if next.None? then None else Parse(events[1..], next.value, ns)
  }

  function ParseDocument(d: Document): Option<Xml>
    requires d.publicId == PUBLIC_ID_11 || d.publicId == PUBLIC_ID_12
  {
    Parse(d.events, Parser([], None), PublicNamespace(d.publicId))
  }

  // ---- decoder output is well-formed XML, whatever the bytes ----

  function Tags(frames: seq<Frame>): (tags: seq<Tag>)
    ensures |tags| == |frames|
    ensures forall i :: 0 <= i < |tags| ==> tags[i] == frames[i].tag
  {
    seq(|frames|, i requires 0 <= i < |frames| => frames[i].tag)
  }

  /** The parser p is where the decoder was after the first i events. */
  ghost predicate InStep(events: seq<Event>, i: nat, p: Parser, ns: string)
    requires i <= |events|
  {
    && Open(events[..i]) == Some(Tags(p.frames))
    && (p.root.Some? <==> i > 0 && p.frames == [])
    && (p.root.Some? ==> p.root.value.name == "SyncML" && p.root.value.ns == ns)
    && (p.frames != [] ==> p.frames[0].tag == Tag(0, "SyncML"))
  }

  lemma OneMore(events: seq<Event>, i: nat)
    requires i < |events| && Open(events[..i + 1]).Some?
    ensures Open(events[..i]).Some? && Open(events[..i + 1]) == Apply(Open(events[..i]).value, events[i])
  {
    assert events[..i + 1][..i] == events[..i];
  }

  lemma InStepNext(events: seq<Event>, i: nat, p: Parser, ns: string)
    requires Sound(events, ns) && i < |events| && InStep(events, i, p, ns)
    ensures Feed(p, events[i], ns).Some? && InStep(events, i + 1, Feed(p, events[i], ns).value, ns)
  {
    SoundPrefixes(events, ns, i + 1);
    if i > 0 { SoundPrefixes(events, ns, i); }
    OneMore(events, i);
    FeedMatches(p, events[i], ns);
  }

  lemma {:induction false} SoundParses(events: seq<Event>, i: nat, p: Parser, ns: string)
    requires Sound(events, ns) && i <= |events| && Open(events) == Some([]) && events != []
    requires InStep(events, i, p, ns)
    ensures var t := Parse(events[i..], p, ns);
            t.Some? && t.value.name == "SyncML" && t.value.ns == ns
    decreases |events| - i
  {
    if i == |events| {
      assert events[..i] == events;
      assert |Tags(p.frames)| == 0;
    } else {
      InStepNext(events, i, p, ns);
      assert events[i..][0] == events[i] && events[i..][1..] == events[i + 1..];
      SoundParses(events, i + 1, Feed(p, events[i], ns).value, ns);
    }
  }

  /** Whatever bytes the decoder accepts, its output is one well-formed SyncML document. */
  lemma DecodedParses(payload: Bytes)
    requires Decode(payload).Ok?
    ensures Decode(payload).value.publicId in {PUBLIC_ID_11, PUBLIC_ID_12}
    ensures var t := ParseDocument(Decode(payload).value);
            t.Some? && t.value.name == "SyncML" && t.value.ns == PublicNamespace(Decode(payload).value.publicId)
  {
    DecodeIsSound(payload);
    var d := Decode(payload).value;
    assert d.events[0..] == d.events && d.events[..0] == [];
    SoundParses(d.events, 0, Parser([], None), PublicNamespace(d.publicId));
  }

  /** The parser's open elements are the decoder's tag stack. */
  lemma FeedMatches(p: Parser, e: Event, ns: string)
    requires p.frames == [] ==> p.root.None? && OpensRoot(e, ns)
    requires p.frames != [] ==> p.root.None? && p.frames[0].tag == Tag(0, "SyncML")
    requires Apply(Tags(p.frames), e).Some?
    ensures var q := Feed(p, e, ns);
            && q.Some? && Apply(Tags(p.frames), e) == Some(Tags(q.value.frames))
            && (q.value.root.Some? <==> q.value.frames == [])
            && (q.value.root.Some? ==> q.value.root.value.name == "SyncML" && q.value.root.value.ns == ns)
            && (q.value.frames != [] ==> q.value.frames[0].tag == Tag(0, "SyncML"))
  {
    var q := Feed(p, e, ns);
    var top := |p.frames| - 1;
    match e
    case Start(tag, _) =>
      assert Tags(q.value.frames) == Tags(p.frames) + [tag];
    case Empty(tag, _) =>
      if p.frames != [] { assert Tags(q.value.frames) == Tags(p.frames); }
    case Text(_) =>
      assert Tags(q.value.frames) == Tags(p.frames);
    case End(tag) =>
      assert Tags(q.value.frames) == Tags(p.frames)[..top];
  }

  // ---- the events of a tree ----

  function PageOf(ns: string): nat {
    if ns == METINF_NS then 1 else 0
  }

  function TagOf(e: Xml): Tag {
    Tag(PageOf(e.ns), e.name)
  }

  function TextEvents(text: string): seq<Event> {
    if text == "" then [] else [Text(text)]
  }

  /** What the decoder writes for an element; only a root declares namespaces. */
  function EventsOf(e: Xml, declares: Option<string>): (r: seq<Event>)
    ensures r != []
    decreases e, 1
  {
    if !E.HasContent(e) then [Empty(TagOf(e), declares)]
    else [Start(TagOf(e), declares)] + TextEvents(e.text) + EventsOfAll(e.children) + [Event.End(TagOf(e))]
  }

  function EventsOfAll(cs: seq<Child>): seq<Event>
    decreases cs, 0
  {
    if cs == [] then []
    else EventsOf(cs[0].element, None) + TextEvents(cs[0].tail) + EventsOfAll(cs[1..])
  }

  // ---- parsing those events gives the tree back ----

  predicate KnownNamespaces(e: Xml, ns: string)
    decreases e, 1
  {
    (e.ns == "" || e.ns == ns || e.ns == METINF_NS) && KnownNamespacesAll(e.children, ns)
  }

  predicate KnownNamespacesAll(cs: seq<Child>, ns: string)
    decreases cs, 0
  {
    cs == [] || (KnownNamespaces(cs[0].element, ns) && KnownNamespacesAll(cs[1..], ns))
  }

  lemma ParseStep(e: Event, rest: seq<Event>, p: Parser, ns: string)
    requires Feed(p, e, ns).Some?
    ensures Parse([e] + rest, p, ns) == Parse(rest, Feed(p, e, ns).value, ns)
  {
    assert ([e] + rest)[1..] == rest;
  }

  lemma AddNoText(f: Frame)
    ensures AddText(f, "") == f
  {
    assert f.text + "" == f.text;
    if f.children != [] {
      var last := |f.children| - 1;
      assert f.children[last].tail + "" == f.children[last].tail;
      assert f.children[last := f.children[last]] == f.children;
    }
  }

  lemma Overwrite(p: Parser, f: Frame, g: Frame)
    requires p.frames != []
    ensures OnTop(OnTop(p, f), g) == OnTop(p, g)
    ensures OnTop(p, Top(p)) == p
  {
    assert p.frames[|p.frames| - 1 := Top(p)] == p.frames;
  }

  lemma ParseText(text: string, rest: seq<Event>, p: Parser, ns: string)
    requires p.frames != []
    ensures Parse(TextEvents(text) + rest, p, ns) == Parse(rest, OnTop(p, AddText(Top(p), text)), ns)
  {
    if text == "" {
      AddNoText(Top(p));
      Overwrite(p, Top(p), Top(p));
      assert TextEvents(text) + rest == rest;
    } else {
      ParseStep(Text(text), rest, p, ns);
    }
  }

  /** The frame after its content has been read. */
  function WithChildren(f: Frame, cs: seq<Child>): Frame {
    f.(children := f.children + cs)
  }

  lemma {:induction false} ParseElement(e: Xml, declares: Option<string>, rest: seq<Event>, p: Parser, ns: string)
    requires KnownNamespaces(e, ns) && ns != METINF_NS
    requires p.frames == [] ==> p.root.None?
    ensures Parse(EventsOf(e, declares) + rest, p, ns) == Parse(rest, Complete(p, Qualified(e, ns)).value, ns)
    decreases e, 1
  {
    hide Parse; hide TextEvents; hide KnownNamespacesAll; hide Qualified; hide QualifiedAll; hide Closed;
    hide WithChildren;
    hide PageOf; hide TagOf; hide Namespace;
    var tag := TagOf(e);
    if !E.HasContent(e) {
      ParseEmpty(e, declares, rest, p, ns);
    } else {
      var end := [Event.End(tag)] + rest;
      var inner := EventsOfAll(e.children) + end;
      assert EventsOf(e, declares) + rest == [Start(tag, declares)] + (TextEvents(e.text) + inner);
      ParseStep(Start(tag, declares), TextEvents(e.text) + inner, p, ns);
      var p1 := p.(frames := p.frames + [Frame(tag, "", [])]);
      ParseText(e.text, inner, p1, ns);
      var f := Frame(tag, e.text, []);
      assert AddText(Top(p1), e.text) == f by { assert "" + e.text == e.text; }
      var p2 := OnTop(p1, f);
      ParseChildren(e.children, end, p2, ns);
      ParseEnd(e, p, p1, rest, ns);
    }
  }

  lemma ParseEmpty(e: Xml, declares: Option<string>, rest: seq<Event>, p: Parser, ns: string)
    requires KnownNamespaces(e, ns) && ns != METINF_NS && !E.HasContent(e)
    requires p.frames == [] ==> p.root.None?
    ensures Parse(EventsOf(e, declares) + rest, p, ns) == Parse(rest, Complete(p, Qualified(e, ns)).value, ns)
  {
    hide Parse;
    assert QualifiedAll(e.children, ns) == [];
    ParseStep(Empty(TagOf(e), declares), rest, p, ns);
  }

  /** The end tag closes the element onto whatever is below it. */
  lemma ParseEnd(e: Xml, p: Parser, p1: Parser, rest: seq<Event>, ns: string)
    requires KnownNamespaces(e, ns) && ns != METINF_NS
    requires p.frames == [] ==> p.root.None?
    requires |p1.frames| == |p.frames| + 1 && p1.frames[..|p.frames|] == p.frames && p1.root == p.root
    ensures var f := Frame(TagOf(e), e.text, []);
            Parse([Event.End(TagOf(e))] + rest, OnTop(OnTop(p1, f), WithChildren(f, QualifiedAll(e.children, ns))), ns)
            == Parse(rest, Complete(p, Qualified(e, ns)).value, ns)
  {
    var f := Frame(TagOf(e), e.text, []);
    var g := WithChildren(f, QualifiedAll(e.children, ns));
    Overwrite(p1, f, g);
    var p3 := OnTop(p1, g);
    assert p3.frames[..|p.frames|] == p.frames;
    assert [] + QualifiedAll(e.children, ns) == QualifiedAll(e.children, ns);
    assert Closed(g, ns) == Qualified(e, ns);
    assert p3.(frames := p3.frames[..|p.frames|]) == p;
    ParseStep(Event.End(TagOf(e)), rest, p3, ns);
  }

  lemma {:induction false} ParseChildren(cs: seq<Child>, rest: seq<Event>, p: Parser, ns: string)
    requires KnownNamespacesAll(cs, ns) && ns != METINF_NS && p.frames != []
    ensures Parse(EventsOfAll(cs) + rest, p, ns)
        == Parse(rest, OnTop(p, WithChildren(Top(p), QualifiedAll(cs, ns))), ns)
    decreases cs, 0
  {
    hide Parse; hide EventsOf; hide Qualified; hide KnownNamespaces; hide OnTop; hide TextEvents;
    var f := Top(p);
    if cs == [] {
      assert f.children + [] == f.children;
      Overwrite(p, f, f);
      assert EventsOfAll(cs) + rest == rest;
    } else {
      var q := Qualified(cs[0].element, ns);
      var more := EventsOfAll(cs[1..]) + rest;
      assert EventsOfAll(cs) + rest == EventsOf(cs[0].element, None) + (TextEvents(cs[0].tail) + more);
      ParseElement(cs[0].element, None, TextEvents(cs[0].tail) + more, p, ns);
      ParseText(cs[0].tail, more, OnTop(p, AddChild(f, q)), ns);
      var f2 := WithChildren(f, [Child(q, cs[0].tail)]);
      assert AddText(AddChild(f, q), cs[0].tail) == f2 by { assert "" + cs[0].tail == cs[0].tail; }
      Overwrite(p, AddChild(f, q), f2);
      ParseChildren(cs[1..], rest, OnTop(p, f2), ns);
      var g := WithChildren(f2, QualifiedAll(cs[1..], ns));
      assert g == WithChildren(f, QualifiedAll(cs, ns));
      Overwrite(p, f2, g);
    }
  }
}
