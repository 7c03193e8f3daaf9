/**
 A server message as a whole: the SyncHdr status and the first entries of a queue, as the tree
 src/acs/protocol/omadm/session.py:627-638 builds. Reading its commands gives the entries back,
 and its WBXML encoding never shrinks as one more entry is appended, which is what `fill` assumes.
 */
module Messages {
  import opened Wrappers
  import opened Xml
  import opened Package
  import opened WbxmlFormat
  import B = SyncMlBuilder
  import S = SyncMl
  import W = SyncMlReads

  /** What the server sends in one message, apart from how it is encoded. */
  datatype Reply = Reply(envelope: B.Envelope, msgRef: string, targetRef: string, code: string,
                         challenge: Option<B.Challenge>, entries: seq<Entry>, final: bool)

  function HeaderStatus(r: Reply): Xml {
    B.StatusElement(1, "SyncHdr", r.msgRef, "0", r.code, r.targetRef, r.challenge)
  }

  function Commands(r: Reply): seq<Xml> {
    [HeaderStatus(r)] + CommandsOf(Groups(r.entries), 2)
  }

  function Tree(r: Reply): Xml {
    B.Document(r.envelope, Commands(r), r.final)
  }

  /** The message with the first n entries of a queue, Final on it when they are all. */
  function Prefix(base: Reply, queue: seq<Entry>, n: nat): Reply {
    base.(entries := if n <= |queue| then queue[..n] else queue, final := n == |queue|)
  }

  // ---- command ids ----

  function ValueOfDecimal(s: string): int {
    if s == "" then 0 else ValueOfDecimal(s[..|s| - 1]) * 10 + (s[|s| - 1] as int - '0' as int)
  }

  lemma {:induction false} DecimalReads(n: nat)
    ensures ValueOfDecimal(B.Decimal(n)) == n
  {
    if n >= 10 {
      DecimalReads(n / 10);
      assert B.Decimal(n)[..|B.Decimal(n)| - 1] == B.Decimal(n / 10);
    } else {
      assert B.Decimal(n)[..0] == "";
    }
  }

  /** A command begins with its id. */
  predicate HasId(x: Xml, id: nat) {
    x.children != [] && x.children[0] == Child(Leaf("CmdID", B.Decimal(id)), "")
  }

  lemma CommandHasId(g: Group, id: nat)
    ensures HasId(CommandOf(g, id), id)
  {
    hide B.Decimal;
    hide B.ItemsOf;
  }

  lemma HeaderHasId(r: Reply)
    ensures HasId(HeaderStatus(r), 1)
  {
    hide B.Decimal;
    hide B.Chal;
  }

  /** Every command carries its own number: 1 for the SyncHdr status, then 2, 3 and so on. */
  lemma CommandIds(r: Reply, i: nat)
    requires i < |Commands(r)|
    ensures HasId(Commands(r)[i], i + 1) && ValueOfDecimal(B.Decimal(i + 1)) == i + 1
  {
    DecimalReads(i + 1);
    hide HasId;
    hide B.Decimal;
    if i == 0 {
      HeaderHasId(r);
    } else {
      var gs := Groups(r.entries);
      CommandHasId(gs[i - 1], i + 1);
      assert Commands(r)[i] == CommandsOf(gs, 2)[i - 1] == CommandOf(gs[i - 1], 2 + (i - 1));
    }
  }

  // ---- reading the commands back ----

  function Raw(e: Option<Xml>): string {
    if e.None? then "" else e.value.text
  }

  function Inner(e: Option<Xml>, name: string): Option<Xml> {
    if e.None? then None else S.Find(e.value.children, name)
  }

  /** The first child of a name is found. */
  lemma {:induction false} FindAt(cs: seq<Child>, i: nat, name: string)
    requires i < |cs| && cs[i].element.name == name && forall j :: 0 <= j < i ==> cs[j].element.name != name
    ensures S.Find(cs, name) == Some(cs[i].element)
  {
    if i > 0 { FindAt(cs[1..], i - 1, name); }
  }

  /** The body of a document is its commands in their order, then Final exactly if asked for. */
  lemma BodyReadsBack(e: B.Envelope, commands: seq<Xml>, final: bool)
    ensures var body := S.Find(B.Document(e, commands, final).children, "SyncBody");
            && body.Some? && |body.value.children| == |commands| + (if final then 1 else 0)
            && (forall i :: 0 <= i < |commands| ==> body.value.children[i].element == commands[i])
            && (final ==> body.value.children[|commands|].element == Leaf("Final", ""))
  {
    FindAt(B.Document(e, commands, final).children, 1, "SyncBody");
  }

  /** The header of a document gives the envelope back. */
  lemma HeaderReadsBack(e: B.Envelope, commands: seq<Xml>, final: bool)
    ensures var hdr := S.Find(B.Document(e, commands, final).children, "SyncHdr");
            hdr.Some? &&
            (var cs := hdr.value.children;
             && Raw(S.Find(cs, "VerDTD")) == "1.2" && Raw(S.Find(cs, "VerProto")) == "DM/1.2"
             && Raw(S.Find(cs, "SessionID")) == e.sessionId
             && ValueOfDecimal(Raw(S.Find(cs, "MsgID"))) == e.msgId
             && Raw(Inner(S.Find(cs, "Target"), "LocURI")) == e.target
             && Raw(Inner(S.Find(cs, "Source"), "LocURI")) == e.source
             && ValueOfDecimal(Raw(Inner(S.Find(cs, "Meta"), "MaxMsgSize"))) == e.maxMsgSize)
  {
    hide ValueOfDecimal; hide B.Decimal; hide S.Find;
    FindAt(B.Document(e, commands, final).children, 0, "SyncHdr");
    var cs := B.HeaderElement(e).children;
    FindAt(cs, 0, "VerDTD");
    FindAt(cs, 1, "VerProto");
    FindAt(cs, 2, "SessionID");
    FindAt(cs, 3, "MsgID");
    FindAt(cs, 4, "Target");
    FindAt(cs, 5, "Source");
    FindAt(cs, 6, "Meta");
    FindAt(cs[4].element.children, 0, "LocURI");
    FindAt(cs[5].element.children, 0, "LocURI");
    FindAt(cs[6].element.children, 0, "MaxMsgSize");
    DecimalReads(e.msgId);
    DecimalReads(e.maxMsgSize);
  }

  /** The children of a Status, some of which may be absent. */
  function StatusParts(r: Reply): seq<(bool, Xml)> {
    [(true, Leaf("CmdID", B.Decimal(1))), (true, Leaf("MsgRef", B.Or(r.msgRef, "1"))), (true, Leaf("CmdRef", "0")),
     (true, Leaf("Cmd", "SyncHdr"))]
    + [(r.targetRef != "", Leaf("TargetRef", r.targetRef))]
    + [(r.challenge.Some?, B.Chal(if r.challenge.Some? then r.challenge.value else B.Challenge("", "")))]
    + [(true, Leaf("Data", r.code))]
  }

  lemma FourShown(a: Xml, b: Xml, c: Xml, d: Xml)
    ensures W.Shown([(true, a), (true, b), (true, c), (true, d)]) == Children([a, b, c, d])
  {
    W.ShownOne(true, a); W.ShownOne(true, b); W.ShownOne(true, c); W.ShownOne(true, d);
    W.ShownJoins([(true, a)], [(true, b)]);
    W.ShownJoins([(true, a)] + [(true, b)], [(true, c)]);
    W.ShownJoins([(true, a)] + [(true, b)] + [(true, c)], [(true, d)]);
    assert [(true, a)] + [(true, b)] + [(true, c)] + [(true, d)] == [(true, a), (true, b), (true, c), (true, d)];
    hide W.Shown;
  }

  lemma StatusIsShown(r: Reply)
    ensures HeaderStatus(r).children == W.Shown(StatusParts(r))
  {
    hide B.Decimal; hide B.Chal; hide B.Or; hide W.Shown;
    var chal := B.Chal(if r.challenge.Some? then r.challenge.value else B.Challenge("", ""));
    var four := [(true, Leaf("CmdID", B.Decimal(1))), (true, Leaf("MsgRef", B.Or(r.msgRef, "1"))),
                 (true, Leaf("CmdRef", "0")), (true, Leaf("Cmd", "SyncHdr"))];
    var (target, data) := (Leaf("TargetRef", r.targetRef), Leaf("Data", r.code));
    FourShown(four[0].1, four[1].1, four[2].1, four[3].1);
    W.ShownOne(r.targetRef != "", target);
    W.ShownOne(r.challenge.Some?, chal);
    W.ShownOne(true, data);
    W.ShownJoins(four, [(r.targetRef != "", target)]);
    W.ShownJoins(four + [(r.targetRef != "", target)], [(r.challenge.Some?, chal)]);
    W.ShownJoins(four + [(r.targetRef != "", target)] + [(r.challenge.Some?, chal)], [(true, data)]);
    var es := [four[0].1, four[1].1, four[2].1, four[3].1];
    var (os, cs) := (B.Optional(r.targetRef != "", target), if r.challenge.Some? then [chal] else []);
    ChildrenConcat(es, os);
    ChildrenConcat(es + os, cs);
    ChildrenConcat(es + os + cs, [data]);
    assert B.Or("0", "0") == "0" by { OrIs(); }
  }

  lemma OrIs()
    ensures B.Or("0", "0") == "0"
  {
  }

  /** The status of the header says which message it answers, how it went, and what the client is to sign next. */
  lemma HeaderStatusReadsBack(r: Reply)
    ensures var cs := HeaderStatus(r).children;
            && HeaderStatus(r).name == "Status"
            && Raw(S.Find(cs, "Cmd")) == "SyncHdr" && Raw(S.Find(cs, "CmdRef")) == "0"
            && Raw(S.Find(cs, "MsgRef")) == (if r.msgRef == "" then "1" else r.msgRef)
            && Raw(S.Find(cs, "Data")) == r.code && Raw(S.Find(cs, "TargetRef")) == r.targetRef
            && (S.Find(cs, "Chal").Some? <==> r.challenge.Some?)
            && (r.challenge.Some? ==>
                  var meta := Inner(S.Find(cs, "Chal"), "Meta");
                  && Raw(Inner(meta, "Format")) == "b64" && Raw(Inner(meta, "Type")) == r.challenge.value.authType
                  && Raw(Inner(meta, "NextNonce")) == r.challenge.value.nonce)
  {
    StatusIsShown(r);
    hide B.Decimal; hide W.Shown; hide S.Find; hide HeaderStatus;
    var parts := StatusParts(r);
    assert HeaderStatus(r).name == "Status" by { NamedStatus(r); }
    W.FindsPart(parts, 1, "MsgRef");
    W.FindsPart(parts, 2, "CmdRef");
    W.FindsPart(parts, 3, "Cmd");
    W.FindsPart(parts, 4, "TargetRef");
    W.FindsPart(parts, 5, "Chal");
    W.FindsPart(parts, 6, "Data");
    if r.challenge.Some? { ChallengeReads(r.challenge.value); }
    hide B.Chal;
  }

  lemma NamedStatus(r: Reply)
    ensures HeaderStatus(r).name == "Status"
  {
  }

  lemma ChallengeReads(c: B.Challenge)
    ensures var meta := S.Find(B.Chal(c).children, "Meta");
            && Raw(Inner(meta, "Format")) == "b64" && Raw(Inner(meta, "Type")) == c.authType
            && Raw(Inner(meta, "NextNonce")) == c.nonce
  {
    var (f, t, n) := (B.MetInf("Format", "b64"), B.MetInf("Type", c.authType), B.MetInf("NextNonce", c.nonce));
    var es := [f, t] + B.Optional(c.nonce != "", n);
    var meta := Parent("Meta", es);
    ChildrenOne(meta);
    FindOne(meta, "Meta");
    FindAt(Children(es), 0, "Format");
    FindAt(Children(es), 1, "Type");
    FindOptional([f, t], c.nonce != "", n, "NextNonce");
    assert [f, t] == [f] + [t];
    FindSnoc([f], t, "NextNonce");
    ChildrenOne(f);
    FindOne(f, "NextNonce");
    hide S.Find;
  }

  function ReadItem(command: string, item: Xml): Entry {
    Item(command,
         Raw(Inner(S.Find(item.children, "Target"), "LocURI")),
         Raw(S.Find(item.children, "Data")),
         Raw(Inner(S.Find(item.children, "Meta"), "Format")),
         Raw(Inner(S.Find(item.children, "Meta"), "Type")))
  }

  function ReadItems(command: string, cs: seq<Child>): seq<Entry> {
    if cs == [] then []
    else if cs[|cs| - 1].element.name == "Item"
    then ReadItems(command, cs[..|cs| - 1]) + [ReadItem(command, cs[|cs| - 1].element)]
    else ReadItems(command, cs[..|cs| - 1])
  }

  /** What a receiver reads from one command element. */
  function Read(x: Xml): seq<Entry> {
    if x.name == "Status" then
      [Status(Raw(S.Find(x.children, "Cmd")), Raw(S.Find(x.children, "MsgRef")), Raw(S.Find(x.children, "CmdRef")),
              Raw(S.Find(x.children, "Data")), Raw(S.Find(x.children, "TargetRef")))]
    else ReadItems(x.name, x.children)
  }

  function ReadAll(xs: seq<Xml>): seq<Entry> {
    if xs == [] then [] else ReadAll(xs[..|xs| - 1]) + Read(xs[|xs| - 1])
  }

  /** An entry as it travels: a Get has only its address, an Add of a node no data, defaults filled in. */
  function Wire(e: Entry): Entry {
    match e
    case Status(cmd, msgRef, cmdRef, code, targetRef) => Status(cmd, B.Or(msgRef, "1"), B.Or(cmdRef, "0"), code,
        targetRef)
    case Item(command, uri, data, format, type_) =>
      if command == "Get" then Item(command, uri, "", "", "")
      else if command == "Add" then
        Item(command, uri, if format == "node" then "" else data, format,
             B.Or(type_, if format == "node" then "node" else "text/plain"))
      else e
  }

  function WireAll(es: seq<Entry>): (r: seq<Entry>)
    ensures |r| == |es|
    ensures forall i :: 0 <= i < |es| ==> r[i] == Wire(es[i])
  {
    seq(|es|, i requires 0 <= i < |es| => Wire(es[i]))
  }

  /** First child by name, in a list of two parts. */
  lemma {:induction false} FindIn(a: seq<Child>, b: seq<Child>, name: string)
    ensures S.Find(a + b, name) == if S.Find(a, name).Some? then S.Find(a, name) else S.Find(b, name)
  {
    if a == [] {
      assert a + b == b;
    } else {
      assert (a + b)[1..] == a[1..] + b;
      FindIn(a[1..], b, name);
    }
  }

  lemma FindOne(e: Xml, name: string)
    ensures S.Find([Child(e, "")], name) == if e.name == name then Some(e) else None
  {
    assert [Child(e, "")][1..] == [];
  }

  lemma ChildrenConcat(a: seq<Xml>, b: seq<Xml>)
    ensures Children(a + b) == Children(a) + Children(b)
  {
  }

  lemma ChildrenOne(e: Xml)
    ensures Children([e]) == [Child(e, "")]
  {
  }

  /** Finding a name among elements, one more at the end. */
  lemma FindSnoc(es: seq<Xml>, e: Xml, name: string)
    ensures S.Find(Children(es + [e]), name)
         == if S.Find(Children(es), name).Some? then S.Find(Children(es), name)
            else if e.name == name then Some(e) else None
  {
    ChildrenConcat(es, [e]);
    ChildrenOne(e);
    FindIn(Children(es), [Child(e, "")], name);
    FindOne(e, name);
  }

  lemma FindNone(name: string)
    ensures S.Find(Children([]), name) == None
  {
  }

  lemma FindOptional(es: seq<Xml>, present: bool, e: Xml, name: string)
    ensures S.Find(Children(es + B.Optional(present, e)), name)
         == if S.Find(Children(es), name).Some? then S.Find(Children(es), name)
            else if present && e.name == name then Some(e) else None
  {
    if present {
      FindSnoc(es, e, name);
    } else {
      assert es + [] == es;
    }
  }

  /** The items of the three commands, found child by child. */
  lemma FindInItem(head: Xml, metas: seq<Xml>, present: bool, data: Xml, name: string)
    requires |metas| <= 1
    ensures S.Find(Children([head] + metas + B.Optional(present, data)), name)
         == if head.name == name then Some(head)
            else if metas != [] && metas[0].name == name then Some(metas[0])
            else if present && data.name == name then Some(data) else None
  {
    FindNone(name);
    assert [head] == [] + [head];
    FindSnoc([], head, name);
    FindOptional([head] + metas, present, data, name);
    if metas == [] {
      assert [head] + metas == [head];
    } else {
      assert metas == [metas[0]];
      FindSnoc([head], metas[0], name);
    }
  }

  lemma MetaReads(format: string, type_: string)
    ensures var m := B.Meta(format, type_);
            && |m| <= 1 && (m != [] ==> m[0].name == "Meta")
            && (m == [] ==> format == "" && type_ == "")
            && (m != [] ==>
                  && Raw(S.Find(m[0].children, "Format")) == format
                  && Raw(S.Find(m[0].children, "Type")) == type_)
  {
    var f, t := B.MetInf("Format", format), B.MetInf("Type", type_);
    var fs := B.Optional(format != "", f);
    assert [] + fs == fs;
    FindNone("Format");
    FindNone("Type");
    FindOptional([], format != "", f, "Format");
    FindOptional([], format != "", f, "Type");
    FindOptional(fs, type_ != "", t, "Format");
    FindOptional(fs, type_ != "", t, "Type");
  }

  lemma TargetReads(uri: string)
    ensures B.Target(uri).name == "Target" && Raw(S.Find(B.Target(uri).children, "LocURI")) == uri
  {
    ChildrenOne(Leaf("LocURI", uri));
    FindOne(Leaf("LocURI", uri), "LocURI");
  }

  /** An item of any of the three commands is read back as it travels. */
  lemma ItemReads(command: string, v: B.Value)
    requires command in {"Get", "Add", "Replace"}
    ensures B.ItemOf(command, v).name == "Item"
    ensures ReadItem(command, B.ItemOf(command, v)) == Wire(Item(command, v.uri, v.data, v.format, v.type_))
  {
    var head, data := B.Target(v.uri), Leaf("Data", v.data);
    TargetReads(v.uri);
    var type_ := B.Or(v.type_, if v.format == "node" then "node" else "text/plain");
    var metas := if command == "Get" then [] else if command == "Add" then B.Meta(v.format, type_)
        else B.Meta(v.format, v.type_);
    var present := command == "Replace" || (command == "Add" && v.format != "node");
    MetaReads(v.format, type_);
    MetaReads(v.format, v.type_);
    assert B.ItemOf(command, v) == Parent("Item", [head] + metas + B.Optional(present, data)) by {
      assert [head] == [head] + [] + [];
      assert [head] + metas == [head] + metas + [];
    }
    FindInItem(head, metas, present, data, "Target");
    FindInItem(head, metas, present, data, "Data");
    FindInItem(head, metas, present, data, "Meta");
    hide B.Meta;
    hide B.Target;
    hide S.Find;
    hide B.ItemOf;
  }

  lemma {:induction false} ItemsRead(command: string, id: string, values: seq<B.Value>)
    requires command in {"Get", "Add", "Replace"}
    ensures var es := ReadItems(command, Children([Leaf("CmdID", id)] + B.ItemsOf(command, values)));
            |es| == |values| && forall i :: 0 <= i < |es| ==>
              es[i] == Wire(Item(command, values[i].uri, values[i].data, values[i].format, values[i].type_))
  {
    hide ReadItem; hide B.ItemOf; hide Wire; hide ReadItems;
    var head := [Leaf("CmdID", id)];
    var items := B.ItemsOf(command, values);
    if values == [] {
      assert head + items == head;
      ChildrenOne(head[0]);
      NoItem(command, Children(head)[0]);
    } else {
      var last := |values| - 1;
      var v := values[last];
      ItemsRead(command, id, values[..last]);
      var before := head + B.ItemsOf(command, values[..last]);
      assert head + items == before + [B.ItemOf(command, v)];
      ChildrenConcat(before, [B.ItemOf(command, v)]);
      ChildrenOne(B.ItemOf(command, v));
      ItemReads(command, v);
      OneMoreItem(command, Children(before), Children([B.ItemOf(command, v)])[0]);
    }
  }

  lemma NoItem(command: string, c: Child)
    requires c.element.name != "Item"
    ensures ReadItems(command, [c]) == []
  {
    assert [c][..0] == [];
  }

  lemma OneMoreItem(command: string, cs: seq<Child>, c: Child)
    requires c.element.name == "Item"
    ensures ReadItems(command, cs + [c]) == ReadItems(command, cs) + [ReadItem(command, c.element)]
  {
    assert (cs + [c])[..|cs|] == cs;
    hide ReadItem;
  }

  /** The fields of a Status, found child by child. */
  lemma StatusReads(id: nat, s: Entry)
    requires s.Status?
    ensures Read(B.StatusElement(id, s.cmd, s.msgRef, s.cmdRef, s.code, s.targetRef, None)) == [Wire(s)]
  {
    hide B.Decimal;
    var a := Leaf("CmdID", B.Decimal(id));
    var b := Leaf("MsgRef", B.Or(s.msgRef, "1"));
    var c := Leaf("CmdRef", B.Or(s.cmdRef, "0"));
    var d := Leaf("Cmd", s.cmd);
    var t := Leaf("TargetRef", s.targetRef);
    var x := Leaf("Data", s.code);
    assert B.StatusElement(id, s.cmd, s.msgRef, s.cmdRef, s.code, s.targetRef, None)
        == Parent("Status", ([a, b, c, d] + B.Optional(s.targetRef != "", t)) + [x]) by {
      assert [a, b, c, d] + B.Optional(s.targetRef != "", t) + [] == [a, b, c, d] + B.Optional(s.targetRef != "", t);
    }
    StatusField(a, b, c, d, s.targetRef != "", t, x, "Cmd");
    StatusField(a, b, c, d, s.targetRef != "", t, x, "MsgRef");
    StatusField(a, b, c, d, s.targetRef != "", t, x, "CmdRef");
    StatusField(a, b, c, d, s.targetRef != "", t, x, "Data");
    StatusField(a, b, c, d, s.targetRef != "", t, x, "TargetRef");
    hide S.Find;
    hide B.StatusElement;
  }

  lemma StatusField(a: Xml, b: Xml, c: Xml, d: Xml, present: bool, t: Xml, x: Xml, name: string)
    requires a.name == "CmdID" && b.name == "MsgRef" && c.name == "CmdRef" && d.name == "Cmd"
    requires t.name == "TargetRef" && x.name == "Data" && (!present ==> t.text == "")
    requires name in {"Cmd", "MsgRef", "CmdRef", "Data", "TargetRef"}
    ensures Raw(S.Find(Children(([a, b, c, d] + B.Optional(present, t)) + [x]), name))
         == if name == "Cmd" then d.text else if name == "MsgRef" then b.text else if name == "CmdRef" then c.text
            else if name == "Data" then x.text else t.text
  {
    FindSnoc([a, b, c, d] + B.Optional(present, t), x, name);
    FindOptional([a, b, c, d], present, t, name);
    assert [a, b, c, d] == [a, b, c] + [d] && [a, b, c] == [a, b] + [c] && [a, b] == [a] + [b];
    FindSnoc([a, b, c], d, name);
    FindSnoc([a, b], c, name);
    FindSnoc([a], b, name);
    ChildrenOne(a);
    FindOne(a, name);
    hide S.Find;
  }

  /** The entries of a group are what its command element says. */
  lemma GroupReads(g: Group, id: nat)
    requires g.StatusGroup? ==> g.status.Status?
    requires g.ItemGroup? ==> g.command in {"Get", "Add", "Replace"}
    ensures Read(CommandOf(g, id)) == WireAll(EntriesOf(g))
  {
    match g
    case StatusGroup(s) =>
      StatusReads(id, s);
      assert WireAll([s]) == [Wire(s)];
    case ItemGroup(command, values) =>
      ItemsRead(command, B.Decimal(id), values);
      hide Wire;
      hide B.ItemsOf;
      assert command != "Status";
  }

  ghost predicate Proper(gs: seq<Group>) {
    forall i :: 0 <= i < |gs| ==>
      && (gs[i].StatusGroup? ==> gs[i].status.Status?)
      && (gs[i].ItemGroup? ==> gs[i].command in {"Get", "Add", "Replace"})
  }

  lemma {:induction false} GroupsAreProper(es: seq<Entry>)
    requires AllKnown(es)
    ensures Proper(Groups(es))
  {
    if es != [] {
      var before, e := es[..|es| - 1], es[|es| - 1];
      assert before + [e] == es;
      GroupsSnoc(before, e);
      GroupsAreProper(before);
      hide Groups;
      assert Known(e);
    }
  }

  lemma {:induction false} GroupsRead(gs: seq<Group>, firstId: nat)
    requires Proper(gs)
    ensures ReadAll(CommandsOf(gs, firstId)) == WireAll(Flatten(gs))
  {
    hide Read;
    hide CommandOf;
    hide EntriesOf;
    hide Wire;
    hide WireAll;
    if gs == [] {
      WireNone();
    } else {
      var last := |gs| - 1;
      GroupsRead(gs[..last], firstId);
      LastCommand(gs, firstId);
      GroupReads(gs[last], firstId + last);
      WireConcat(Flatten(gs[..last]), EntriesOf(gs[last]));
    }
  }

  lemma WireNone()
    ensures WireAll([]) == []
  {
  }

  lemma WireConcat(a: seq<Entry>, b: seq<Entry>)
    ensures WireAll(a + b) == WireAll(a) + WireAll(b)
  {
    hide Wire;
  }

  lemma LastCommand(gs: seq<Group>, firstId: nat)
    requires gs != []
    ensures var last := |gs| - 1;
            && CommandsOf(gs, firstId)[..last] == CommandsOf(gs[..last], firstId)
            && CommandsOf(gs, firstId)[last] == CommandOf(gs[last], firstId + last)
  {
    hide CommandOf;
  }

  /** What `apply` builds says exactly the entries, in order: reading the commands gives them back. */
  lemma CommandsReadBack(es: seq<Entry>, firstId: nat)
    requires AllKnown(es)
    ensures ReadAll(CommandsOf(Groups(es), firstId)) == WireAll(es)
  {
    GroupsAreProper(es);
    GroupsRead(Groups(es), firstId);
    GroupsFlatten(es);
  }
}
