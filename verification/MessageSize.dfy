/**
 The precondition of `fill`: a WBXML message never shrinks as one more queued entry is appended,
 through grouping, code page switches and the Final that the last entry brings.
 */
module MessageSize {
  import opened Wrappers
  import opened Xml
  import opened Package
  import opened Messages
  import opened WbxmlFormat
  import B = SyncMlBuilder
  import E = WbxmlEncoder
  import Fill

  // ---- what the builder makes always encodes, as it is ----

  predicate SyncTag(name: string) {
    TagToken(0, name).Some?
  }

  predicate MetTag(name: string) {
    TagToken(1, name).Some?
  }

  predicate KnownTag(ns: string, name: string) {
    (ns == "" && SyncTag(name)) || (ns == METINF_NS && MetTag(name))
  }

  /** Known tags, and text only in leaves: every element the builder makes. */
  predicate Regular(e: Xml)
    decreases e, 1
  {
    KnownTag(e.ns, e.name) && (e.children != [] ==> e.text == "") && RegularAll(e.children)
  }

  predicate RegularAll(cs: seq<Child>)
    decreases cs, 0
  {
    cs != [] ==> Regular(cs[0].element) && cs[0].tail == "" && RegularAll(cs[1..])
  }

  predicate AllRegular(es: seq<Xml>) {
    forall i :: 0 <= i < |es| ==> Regular(es[i])
  }

  lemma {:induction false} RegularChildren(es: seq<Xml>)
    requires AllRegular(es)
    ensures RegularAll(Children(es))
  {
    if es != [] {
      assert Children(es)[1..] == Children(es[1..]);
      RegularChildren(es[1..]);
    }
  }

  lemma RegularParent(name: string, es: seq<Xml>)
    requires SyncTag(name) && AllRegular(es)
    ensures Regular(Parent(name, es))
  {
    RegularChildren(es);
  }

  /** The builder's indentation-free trees are left alone by the encoder's stripping. */
  lemma {:induction false} RegularIsStripped(e: Xml)
    requires Regular(e)
    ensures Stripped(e) == e
    decreases e, 1
  {
    RegularAllIsStripped(e.children);
  }

  lemma {:induction false} RegularAllIsStripped(cs: seq<Child>)
    requires RegularAll(cs)
    ensures StrippedAll(cs) == cs
    decreases cs, 0
  {
    if cs != [] {
      RegularIsStripped(cs[0].element);
      RegularAllIsStripped(cs[1..]);
    }
  }

  lemma {:induction false} RegularEncodes(e: Xml, page: nat, c: E.Coding)
    requires Regular(e)
    ensures E.ElementBytes(e, page, c).Some?
    decreases e, 1
  {
    hide TagToken;
    TagEncodes(e, c);
    RegularAllEncodes(e.children, E.TagPage(e.ns, c.syncmlNs).value, c);
  }

  lemma TagEncodes(e: Xml, c: E.Coding)
    requires KnownTag(e.ns, e.name)
    ensures var page := E.TagPage(e.ns, c.syncmlNs); page.Some? && TagToken(page.value, e.name).Some?
  {
  }

  lemma {:induction false} RegularAllEncodes(cs: seq<Child>, page: nat, c: E.Coding)
    requires RegularAll(cs)
    ensures E.ChildrenBytes(cs, page, c).Some?
    decreases cs, 0
  {
    if cs != [] {
      RegularEncodes(cs[0].element, page, c);
      RegularAllEncodes(cs[1..], E.ElementBytes(cs[0].element, page, c).value.1, c);
    }
  }

  // ---- longer children, longer parent ----

  /** Begun on either page, x takes no more bytes than y. */
  ghost predicate NoLonger(x: Xml, y: Xml, c: E.Coding) {
    forall page: nat :: page < 2 ==>
      && E.ElementBytes(x, page, c).Some? && E.ElementBytes(y, page, c).Some?
      && |E.ElementBytes(x, page, c).value.0| <= |E.ElementBytes(y, page, c).value.0|
  }

  lemma {:induction false} ChildrenSplit(a: seq<Child>, b: seq<Child>, page: nat, c: E.Coding)
    requires E.ChildrenBytes(a, page, c).Some?
    requires E.ChildrenBytes(b, E.ChildrenBytes(a, page, c).value.1, c).Some?
    ensures var all := E.ChildrenBytes(a + b, page, c);
            var (first, middle) := E.ChildrenBytes(a, page, c).value;
            all.Some? && |all.value.0| == |first| + |E.ChildrenBytes(b, middle, c).value.0|
  {
    hide E.ElementBytes;
    hide E.TextToken;
    if a == [] {
      assert a + b == b;
    } else {
      assert (a + b)[1..] == a[1..] + b;
      ChildrenSplit(a[1..], b, E.ElementBytes(a[0].element, page, c).value.1, c);
    }
  }

  lemma OneChild(x: Xml, page: nat, c: E.Coding)
    requires E.ElementBytes(x, page, c).Some?
    ensures var r := E.ChildrenBytes([Child(x, "")], page, c);
            r.Some? && |r.value.0| == |E.ElementBytes(x, page, c).value.0|
  {
    hide E.ElementBytes;
    assert [Child(x, "")][1..] == [];
  }

  /** The children lists behind ParentGrows. */
  lemma ChildrenGrow(before: seq<Xml>, x: Xml, y: Xml, more: seq<Xml>, page: nat, c: E.Coding)
    requires page < 2 && NoLonger(x, y, c)
    requires AllRegular(before) && AllRegular(more) && Regular(x) && Regular(y)
    ensures var short := E.ChildrenBytes(Children(before + [x]), page, c);
            var long := E.ChildrenBytes(Children(before + [y] + more), page, c);
            short.Some? && long.Some? && |short.value.0| <= |long.value.0|
  {
    var a := Children(before);
    ChildrenConcat(before, [x]);
    ChildrenConcat(before, [y]);
    ChildrenConcat(before + [y], more);
    ChildrenOne(x);
    ChildrenOne(y);
    RegularChildren(before);
    RegularChildren(more);
    RegularAllEncodes(a, page, c);
    var middle := E.ChildrenBytes(a, page, c).value.1;
    OneChild(x, middle, c);
    OneChild(y, middle, c);
    ChildrenSplit(a, [Child(x, "")], page, c);
    ChildrenSplit(a, [Child(y, "")], page, c);
    var next := E.ChildrenBytes(a + [Child(y, "")], page, c).value.1;
    RegularAllEncodes(Children(more), next, c);
    ChildrenSplit(a + [Child(y, "")], Children(more), page, c);
    hide E.ChildrenBytes;
    hide E.ElementBytes;
  }

  /** An element whose last child is replaced by a longer one, with perhaps more after it, is no shorter. */
  lemma ParentGrows(name: string, before: seq<Xml>, x: Xml, y: Xml, more: seq<Xml>, c: E.Coding)
    requires SyncTag(name) && NoLonger(x, y, c)
    requires AllRegular(before) && AllRegular(more) && Regular(x) && Regular(y)
    ensures NoLonger(Parent(name, before + [x]), Parent(name, before + [y] + more), c)
  {
    var p, q := Parent(name, before + [x]), Parent(name, before + [y] + more);
    RegularParent(name, before + [x]);
    RegularParent(name, before + [y] + more);
    forall page: nat | page < 2
      ensures && E.ElementBytes(p, page, c).Some? && E.ElementBytes(q, page, c).Some?
              && |E.ElementBytes(p, page, c).value.0| <= |E.ElementBytes(q, page, c).value.0|
    {
      RegularEncodes(p, page, c);
      RegularEncodes(q, page, c);
      ChildrenGrow(before, x, y, more, 0, c);
      ParentBytes(p, page, c);
      ParentBytes(q, page, c);
    }
  }

  lemma ParentBytes(p: Xml, page: nat, c: E.Coding)
    requires p.ns == "" && p.text == "" && p.children != [] && page < 2
    requires E.ElementBytes(p, page, c).Some? && "" != METINF_NS
    ensures E.ChildrenBytes(p.children, 0, c).Some?
    ensures |E.ElementBytes(p, page, c).value.0|
        == |E.Switch(page, 0)| + 2 + |E.ChildrenBytes(p.children, 0, c).value.0|
  {
    hide E.ChildrenBytes;
    hide TagToken;
  }

  lemma NoLongerSelf(x: Xml, c: E.Coding)
    requires Regular(x)
    ensures NoLonger(x, x, c)
  {
    forall page: nat | page < 2
      ensures E.ElementBytes(x, page, c).Some?
    {
      RegularEncodes(x, page, c);
    }
  }

  // ---- every message is regular ----

  /** The builder's tags and where they stand in the tables. */
  lemma BuilderTags()
    ensures SyncTag("SyncML") && SyncTag("SyncHdr") && SyncTag("SyncBody") && SyncTag("VerDTD") && SyncTag("VerProto")
    ensures SyncTag("SessionID") && SyncTag("MsgID") && SyncTag("Target") && SyncTag("LocURI") && SyncTag("Source")
    ensures SyncTag("Meta") && SyncTag("Status") && SyncTag("CmdID") && SyncTag("MsgRef") && SyncTag("CmdRef")
    ensures SyncTag("Cmd") && SyncTag("TargetRef") && SyncTag("Chal") && SyncTag("Data") && SyncTag("Get")
    ensures SyncTag("Item") && SyncTag("Replace") && SyncTag("Add") && SyncTag("Final")
    ensures MetTag("Format") && MetTag("Type") && MetTag("NextNonce") && MetTag("MaxMsgSize")
  {
    hide SyncTag;
    hide MetTag;
    HeaderTags(); AddressTags(); StatusTags(); CommandTags(); ItemTags(); MetaTags();
  }

  lemma HeaderTags()
    ensures SyncTag("SyncML") && SyncTag("SyncHdr") && SyncTag("SyncBody") && SyncTag("VerDTD") && SyncTag("VerProto")
  {
    hide SyncTag;
    TagAt(0x2D, "SyncML"); TagAt(0x2C, "SyncHdr"); TagAt(0x2B, "SyncBody"); TagAt(0x31, "VerDTD");
    TagAt(0x32, "VerProto");
  }

  lemma AddressTags()
    ensures SyncTag("SessionID") && SyncTag("MsgID") && SyncTag("Target") && SyncTag("LocURI") && SyncTag("Source")
  {
    hide SyncTag;
    TagAt(0x25, "SessionID"); TagAt(0x1B, "MsgID"); TagAt(0x2E, "Target"); TagAt(0x17, "LocURI"); TagAt(0x27, "Source");
  }

  lemma StatusTags()
    ensures SyncTag("Meta") && SyncTag("Status") && SyncTag("CmdID") && SyncTag("MsgRef") && SyncTag("CmdRef")
  {
    hide SyncTag;
    TagAt(0x1A, "Meta"); TagAt(0x29, "Status"); TagAt(0x0B, "CmdID"); TagAt(0x1C, "MsgRef"); TagAt(0x0C, "CmdRef");
  }

  lemma CommandTags()
    ensures SyncTag("Cmd") && SyncTag("TargetRef") && SyncTag("Chal") && SyncTag("Data") && SyncTag("Get")
  {
    hide SyncTag;
    TagAt(0x0A, "Cmd"); TagAt(0x2F, "TargetRef"); TagAt(0x09, "Chal"); TagAt(0x0F, "Data"); TagAt(0x13, "Get");
  }

  lemma ItemTags()
    ensures SyncTag("Item") && SyncTag("Replace") && SyncTag("Add") && SyncTag("Final")
  {
    hide SyncTag;
    TagAt(0x14, "Item"); TagAt(0x20, "Replace"); TagAt(0x05, "Add"); TagAt(0x12, "Final");
  }

  lemma MetaTags()
    ensures MetTag("Format") && MetTag("Type") && MetTag("NextNonce") && MetTag("MaxMsgSize")
  {
    hide MetTag;
    MetAt(0x07, "Format"); MetAt(0x13, "Type"); MetAt(0x10, "NextNonce"); MetAt(0x0C, "MaxMsgSize");
  }

  lemma TagAt(token: nat, name: string)
    requires 5 <= token < 0x40 && TagName(0, token) == Some(name)
    ensures SyncTag(name)
  {
    hide Search;
  }

  lemma MetAt(token: nat, name: string)
    requires 5 <= token < 0x40 && TagName(1, token) == Some(name)
    ensures MetTag(name)
  {
    hide Search;
  }

  lemma RegularLeaf(name: string, text: string)
    requires SyncTag(name)
    ensures Regular(Leaf(name, text))
  {
  }

  lemma RegularMetInf(name: string, text: string)
    requires MetTag(name)
    ensures Regular(B.MetInf(name, text))
  {
  }

  lemma RegularTarget(uri: string)
    ensures Regular(B.Target(uri))
  {
    BuilderTags();
    hide SyncTag;
    hide MetTag;
    hide Regular;
    RegularLeaf("LocURI", uri);
    RegularParent("Target", [Leaf("LocURI", uri)]);
  }

  lemma RegularMeta(format: string, type_: string)
    ensures AllRegular(B.Meta(format, type_))
  {
    BuilderTags();
    hide SyncTag;
    hide MetTag;
    hide Regular;
    RegularMetInf("Format", format);
    RegularMetInf("Type", type_);
    RegularParent("Meta",
        B.Optional(format != "", B.MetInf("Format", format)) + B.Optional(type_ != "", B.MetInf("Type", type_)));
  }

  lemma RegularItem(command: string, v: B.Value)
    ensures Regular(B.ItemOf(command, v))
  {
    RegularTarget(v.uri);
    RegularMeta(v.format, v.type_);
    var addType := B.Or(v.type_, if v.format == "node" then "node" else "text/plain");
    RegularMeta(v.format, addType);
    RegularItemParts([], [], v);
    RegularItemParts(B.Meta(v.format, addType), B.Optional(v.format != "node", Leaf("Data", v.data)), v);
    RegularItemParts(B.Meta(v.format, v.type_), [Leaf("Data", v.data)], v);
    assert [B.Target(v.uri)] + [] + [] == [B.Target(v.uri)];
    hide Regular;
    hide B.Meta;
    hide B.Target;
  }

  lemma RegularItemParts(metas: seq<Xml>, data: seq<Xml>, v: B.Value)
    requires AllRegular(metas) && (data == [] || data == [Leaf("Data", v.data)])
    ensures Regular(Parent("Item", [B.Target(v.uri)] + metas + data))
  {
    BuilderTags();
    hide SyncTag;
    hide MetTag;
    hide Regular;
    hide B.Target;
    RegularTarget(v.uri);
    RegularLeaf("Data", v.data);
    RegularParent("Item", [B.Target(v.uri)] + metas + data);
  }

  lemma {:induction false} RegularItems(command: string, values: seq<B.Value>)
    ensures AllRegular(B.ItemsOf(command, values))
  {
    hide Regular;
    hide B.ItemOf;
    if values != [] {
      RegularItems(command, values[..|values| - 1]);
      RegularItem(command, values[|values| - 1]);
    }
  }

  /** The elements of an Add, Get or Replace command. */
  function ItemList(id: nat, command: string, values: seq<B.Value>): seq<Xml> {
    [Leaf("CmdID", B.Decimal(id))] + B.ItemsOf(command, values)
  }

  lemma RegularItemList(id: nat, command: string, values: seq<B.Value>)
    ensures AllRegular(ItemList(id, command, values))
  {
    BuilderTags();
    hide SyncTag;
    hide MetTag;
    hide Regular;
    RegularLeaf("CmdID", B.Decimal(id));
    RegularItems(command, values);
    hide B.ItemsOf;
  }

  lemma RegularChal(challenge: B.Challenge)
    ensures Regular(B.Chal(challenge))
  {
    BuilderTags();
    hide SyncTag;
    hide MetTag;
    hide Regular;
    RegularMetInf("Format", "b64");
    RegularMetInf("Type", challenge.authType);
    RegularMetInf("NextNonce", challenge.nonce);
    var metas := [B.MetInf("Format", "b64"), B.MetInf("Type", challenge.authType)]
                 + B.Optional(challenge.nonce != "", B.MetInf("NextNonce", challenge.nonce));
    RegularParent("Meta", metas);
    RegularParent("Chal", [Parent("Meta", metas)]);
  }

  lemma RegularStatus(id: nat, cmd: string, msgRef: string, cmdRef: string, code: string, targetRef: string,
                      challenge: Option<B.Challenge>)
    ensures Regular(B.StatusElement(id, cmd, msgRef, cmdRef, code, targetRef, challenge))
  {
    BuilderTags();
    hide SyncTag;
    hide MetTag;
    hide Regular;
    hide B.Decimal;
    hide B.Chal;
    RegularLeaf("CmdID", B.Decimal(id));
    RegularLeaf("MsgRef", B.Or(msgRef, "1"));
    RegularLeaf("CmdRef", B.Or(cmdRef, "0"));
    RegularLeaf("Cmd", cmd);
    RegularLeaf("TargetRef", targetRef);
    RegularLeaf("Data", code);
    if challenge.Some? { RegularChal(challenge.value); }
    RegularParent("Status",
                  [Leaf("CmdID", B.Decimal(id)), Leaf("MsgRef", B.Or(msgRef, "1")),
                      Leaf("CmdRef", B.Or(cmdRef, "0")), Leaf("Cmd", cmd)]
                  + B.Optional(targetRef != "", Leaf("TargetRef", targetRef))
                  + (if challenge.Some? then [B.Chal(challenge.value)] else [])
                  + [Leaf("Data", code)]);
  }

  lemma RegularCommand(g: Group, id: nat)
    requires g.StatusGroup? ==> g.status.Status?
    requires g.ItemGroup? ==> g.command in {"Get", "Add", "Replace"}
    ensures Regular(CommandOf(g, id))
  {
    BuilderTags();
    hide SyncTag;
    hide MetTag;
    hide Regular;
    match g
    case StatusGroup(s) => RegularStatus(id, s.cmd, s.msgRef, s.cmdRef, s.code, s.targetRef, None);
    case ItemGroup(command, values) =>
      RegularItemList(id, command, values);
      RegularParent(command, ItemList(id, command, values));
  }

  lemma RegularCommands(r: Reply)
    requires AllKnown(r.entries)
    ensures AllRegular(Commands(r))
  {
    GroupsAreProper(r.entries);
    hide Regular;
    hide Groups;
    hide CommandOf;
    RegularStatus(1, "SyncHdr", r.msgRef, "0", r.code, r.targetRef, r.challenge);
    var gs := Groups(r.entries);
    forall i | 0 <= i < |Commands(r)|
      ensures Regular(Commands(r)[i])
    {
      if i > 0 {
        RegularCommand(gs[i - 1], 2 + (i - 1));
        assert Commands(r)[i] == CommandsOf(gs, 2)[i - 1];
      }
    }
  }

  lemma RegularHeader(e: B.Envelope)
    ensures Regular(B.HeaderElement(e))
  {
    BuilderTags();
    hide SyncTag;
    hide MetTag;
    hide Regular;
    hide B.Decimal;
    hide B.Target;
    RegularLeaf("VerDTD", "1.2");
    RegularLeaf("VerProto", "DM/1.2");
    RegularLeaf("SessionID", e.sessionId);
    RegularLeaf("MsgID", B.Decimal(e.msgId));
    RegularTarget(e.target);
    RegularLeaf("LocURI", e.source);
    RegularParent("Source", [Leaf("LocURI", e.source)]);
    RegularMetInf("MaxMsgSize", B.Decimal(e.maxMsgSize));
    RegularParent("Meta", [B.MetInf("MaxMsgSize", B.Decimal(e.maxMsgSize))]);
    RegularParent("SyncHdr", [Leaf("VerDTD", "1.2"), Leaf("VerProto", "DM/1.2"), Leaf("SessionID", e.sessionId),
                       Leaf("MsgID", B.Decimal(e.msgId)), B.Target(e.target),
                       Parent("Source", [Leaf("LocURI", e.source)]),
                       Parent("Meta", [B.MetInf("MaxMsgSize", B.Decimal(e.maxMsgSize))])]);
  }

  lemma RegularBody(commands: seq<Xml>, final: bool)
    requires AllRegular(commands)
    ensures Regular(B.BodyElement(commands, final))
  {
    BuilderTags();
    hide SyncTag;
    hide MetTag;
    hide Regular;
    RegularLeaf("Final", "");
    RegularParent("SyncBody", commands + B.Optional(final, Leaf("Final", "")));
  }

  lemma RegularTree(r: Reply)
    requires AllKnown(r.entries)
    ensures Regular(Tree(r))
  {
    BuilderTags();
    hide SyncTag;
    hide MetTag;
    hide Regular;
    hide Commands;
    hide B.HeaderElement;
    hide B.BodyElement;
    RegularHeader(r.envelope);
    RegularCommands(r);
    RegularBody(Commands(r), r.final);
    RegularParent("SyncML", [B.HeaderElement(r.envelope), B.BodyElement(Commands(r), r.final)]);
  }

  // ---- one more entry ----

  /** A command with one more item is no shorter. */
  lemma ItemsGrow(id: nat, command: string, values: seq<B.Value>, v: B.Value, c: E.Coding)
    requires command in {"Get", "Add", "Replace"}
    ensures NoLonger(B.ItemsElement(id, command, values), B.ItemsElement(id, command, values + [v]), c)
  {
    BuilderTags();
    hide SyncTag;
    hide MetTag;
    hide Regular;
    hide NoLonger;
    var list := ItemList(id, command, values);
    RegularItemList(id, command, values);
    RegularItem(command, v);
    var last := |list| - 1;
    assert list == list[..last] + [list[last]];
    assert (values + [v])[..|values|] == values;
    assert ItemList(id, command, values + [v]) == list[..last] + [list[last]] + [B.ItemOf(command, v)];
    NoLongerSelf(list[last], c);
    ParentGrows(command, list[..last], list[last], list[last], [B.ItemOf(command, v)], c);
  }

  /** Two lists of commands that differ as one more entry makes them differ. */
  ghost predicate Grown(a: seq<Xml>, b: seq<Xml>, before: seq<Xml>, x: Xml, y: Xml, more: seq<Xml>, c: E.Coding) {
    && a == before + [x] && b == before + [y] + more
    && NoLonger(x, y, c) && Regular(x) && Regular(y) && AllRegular(before) && AllRegular(more)
  }

  /** One more entry either lengthens the last command or adds one. */
  lemma CommandsGrow(r: Reply, e: Entry, c: E.Coding) returns (before: seq<Xml>, x: Xml, y: Xml, more: seq<Xml>)
    requires AllKnown(r.entries) && Known(e)
    ensures Grown(Commands(r), Commands(r.(entries := r.entries + [e])), before, x, y, more, c)
  {
    hide Regular; hide AllRegular; hide NoLonger; hide Commands; hide Groups; hide Extend; hide Grown; hide Known;
    var r' := r.(entries := r.entries + [e]);
    GroupsSnoc(r.entries, e);
    assert AllKnown(r'.entries);
    RegularCommands(r);
    RegularCommands(r');
    if |Groups(r'.entries)| == |Groups(r.entries)| {
      before, x, y, more := LastGrows(r, r', e, c);
    } else {
      before, x, y, more := OneIsAdded(r, r', e, c);
    }
  }

  lemma ExtendLast(gs: seq<Group>, e: Entry)
    requires |Extend(gs, e)| == |gs|
    ensures var k := |gs| - 1;
            && gs != [] && e.Item? && gs[k].ItemGroup?
            && Extend(gs, e)[..k] == gs[..k]
            && Extend(gs, e)[k] == ItemGroup(gs[k].command, gs[k].values + [ValueOf(e)])
  {
  }

  lemma SameHeader(r: Reply, s: Reply)
    requires s == r.(entries := s.entries)
    ensures HeaderStatus(r) == HeaderStatus(s)
  {
  }

  lemma LastGrows(r: Reply, r': Reply, e: Entry, c: E.Coding) returns (before: seq<Xml>, x: Xml, y: Xml, more: seq<Xml>)
    requires AllKnown(r.entries) && r' == r.(entries := r.entries + [e])
    requires Groups(r'.entries) == Extend(Groups(r.entries), e) && |Groups(r'.entries)| == |Groups(r.entries)|
    requires AllRegular(Commands(r)) && AllRegular(Commands(r'))
    ensures Grown(Commands(r), Commands(r'), before, x, y, more, c)
  {
    hide Groups; hide Regular; hide CommandOf; hide NoLonger; hide Extend; hide HeaderStatus; hide Commands;
    hide Known;
    var gs, gs' := Groups(r.entries), Groups(r'.entries);
    GroupsAreProper(r.entries);
    ExtendLast(gs, e);
    var k := |gs| - 1;
    LastCommand(gs, 2);
    LastCommand(gs', 2);
    before := [HeaderStatus(r)] + CommandsOf(gs[..k], 2);
    x, y, more := CommandOf(gs[k], 2 + k), CommandOf(gs'[k], 2 + k), [];
    hide CommandsOf;
    Split(r, gs, before, x);
    SameHeader(r, r');
    Split(r', gs', before, y);
    assert before + [y] + [] == before + [y];
    ItemsCommand(gs[k], 2 + k);
    ItemsCommand(gs'[k], 2 + k);
    ItemsGrow(2 + k, gs[k].command, gs[k].values, ValueOf(e), c);
    RegularParts(before, x);
    RegularParts(before, y);
  }

  lemma OneIsAdded(r: Reply, r': Reply, e: Entry, c: E.Coding)
    returns (before: seq<Xml>, x: Xml, y: Xml, more: seq<Xml>)
    requires r' == r.(entries := r.entries + [e])
    requires Groups(r'.entries) == Extend(Groups(r.entries), e) && |Groups(r'.entries)| != |Groups(r.entries)|
    requires AllRegular(Commands(r)) && AllRegular(Commands(r'))
    ensures Grown(Commands(r), Commands(r'), before, x, y, more, c)
  {
    var gs, gs' := Groups(r.entries), Groups(r'.entries);
    hide Groups;
    hide Regular;
    hide CommandOf;
    hide NoLonger;
    var all := Commands(r);
    LastCommand(gs', 2);
    assert gs'[..|gs|] == gs;
    before, x := all[..|all| - 1], all[|all| - 1];
    y, more := x, [CommandOf(gs'[|gs|], 2 + |gs|)];
    Split(r', gs', all, more[0]);
    assert all == before + [x];
    RegularParts(all, more[0]);
    RegularParts(before, x);
    NoLongerSelf(x, c);
  }

  lemma ItemsCommand(g: Group, id: nat)
    requires g.ItemGroup?
    ensures CommandOf(g, id) == B.ItemsElement(id, g.command, g.values)
  {
  }

  lemma RegularParts(before: seq<Xml>, x: Xml)
    requires AllRegular(before + [x])
    ensures AllRegular(before) && Regular(x)
  {
    hide Regular;
    assert (before + [x])[|before|] == x;
    forall i | 0 <= i < |before|
      ensures Regular(before[i])
    {
      assert (before + [x])[i] == before[i];
    }
  }

  lemma Split(r: Reply, gs: seq<Group>, before: seq<Xml>, x: Xml)
    requires gs != [] && gs == Groups(r.entries)
    requires before == [HeaderStatus(r)] + CommandsOf(gs, 2)[..|gs| - 1] && x == CommandsOf(gs, 2)[|gs| - 1]
    ensures Commands(r) == before + [x]
  {
    hide Groups;
    hide CommandOf;
  }

  // ---- the size of a message ----

  function CodingOfReplies(): E.Coding {
    E.Coding(SYNCML_NS_12, false, map[])
  }

  /** The bytes of the WBXML encoding of a message, as the session layer encodes it. */
  function WbxmlSize(r: Reply, version: byte): nat {
    var root := E.ElementBytes(Tree(r), 0, CodingOfReplies());
    |E.Preamble(version, E.Derived, PUBLIC_ID_12, [])| + (if root.Some? then |root.value.0| else 0)
  }

  /** WbxmlSize is what it says: the length of what `encode` returns. */
  lemma WbxmlSizeIsLength(r: Reply, version: byte)
    requires AllKnown(r.entries)
    ensures var b := E.Encode(Tree(r), version, E.Derived, false, false);
            b.Some? ==> |b.value| == WbxmlSize(r, version)
  {
    RegularTree(r);
    RegularIsStripped(Tree(r));
    hide Tree;
    hide E.ElementBytes;
    hide E.TextsOf;
    hide Regular;
    assert Tree(r).ns == "" by { TreeUnqualified(r); }
    assert "" != SYNCML_NS_11;
  }

  lemma TreeUnqualified(r: Reply)
    ensures Tree(r).ns == ""
  {
  }

  /** A longer list of commands, and perhaps Final, makes a longer body. */
  lemma BodyGrows(a: seq<Xml>, b: seq<Xml>, final: bool, c: E.Coding, before: seq<Xml>, x: Xml, y: Xml, more: seq<Xml>)
    requires Grown(a, b, before, x, y, more, c)
    ensures NoLonger(B.BodyElement(a, false), B.BodyElement(b, final), c)
    ensures AllRegular(a) && AllRegular(b)
  {
    BuilderTags();
    RegularLeaf("Final", "");
    hide SyncTag;
    hide MetTag;
    hide Regular;
    hide NoLonger;
    var tail := B.Optional(final, Leaf("Final", ""));
    ParentGrows("SyncBody", before, x, y, more + tail, c);
    assert a + [] == before + [x];
    assert b + tail == before + [y] + (more + tail);
  }

  lemma DocumentGrows(e: B.Envelope, body: Xml, body': Xml, c: E.Coding)
    requires NoLonger(body, body', c) && Regular(body) && Regular(body')
    ensures NoLonger(Parent("SyncML", [B.HeaderElement(e), body]), Parent("SyncML", [B.HeaderElement(e), body']), c)
  {
    BuilderTags();
    RegularHeader(e);
    hide SyncTag;
    hide MetTag;
    hide Regular;
    hide NoLonger;
    hide B.HeaderElement;
    var header := B.HeaderElement(e);
    ParentGrows("SyncML", [header], body, body', [], c);
    assert [header] + [body'] + [] == [header, body'] && [header] + [body] == [header, body];
  }

  lemma OneMoreEntry(base: Reply, queue: seq<Entry>, n: nat, version: byte)
    requires AllKnown(queue) && n < |queue|
    ensures WbxmlSize(Prefix(base, queue, n), version) <= WbxmlSize(Prefix(base, queue, n + 1), version)
  {
    var r, r' := Prefix(base, queue, n), Prefix(base, queue, n + 1);
    var r1 := r.(entries := r.entries + [queue[n]]);
    assert r'.entries == r1.entries;
    SameCommands(r', r1);
    var c := CodingOfReplies();
    var before, x, y, more := CommandsGrow(r, queue[n], c);
    hide Regular;
    hide Commands;
    hide NoLonger;
    hide B.BodyElement;
    BodyGrows(Commands(r), Commands(r'), r'.final, c, before, x, y, more);
    RegularBody(Commands(r), false);
    RegularBody(Commands(r'), r'.final);
    DocumentGrows(base.envelope, B.BodyElement(Commands(r), false), B.BodyElement(Commands(r'), r'.final), c);
    NoLongerSizes(Tree(r), Tree(r'), c);
    hide B.HeaderElement;
  }

  lemma SameCommands(r: Reply, s: Reply)
    requires r == s.(final := r.final)
    ensures Commands(r) == Commands(s)
  {
  }

  lemma NoLongerSizes(x: Xml, y: Xml, c: E.Coding)
    requires NoLonger(x, y, c)
    ensures E.ElementBytes(x, 0, c).Some? && E.ElementBytes(y, 0, c).Some?
    ensures |E.ElementBytes(x, 0, c).value.0| <= |E.ElementBytes(y, 0, c).value.0|
  {
  }

  lemma {:induction false} MoreEntries(base: Reply, queue: seq<Entry>, m: nat, n: nat, version: byte)
    requires AllKnown(queue) && m <= n <= |queue|
    ensures WbxmlSize(Prefix(base, queue, m), version) <= WbxmlSize(Prefix(base, queue, n), version)
  {
    hide WbxmlSize;
    hide Prefix;
    if m < n {
      MoreEntries(base, queue, m, n - 1, version);
      OneMoreEntry(base, queue, n - 1, version);
    }
  }

  /**
   The precondition `fill` states and the server relies on: whatever the queue, the WBXML message
   that carries its first n entries never shrinks as n grows, the Final at the end included.
   */
  lemma MessagesNeverShrink(base: Reply, queue: seq<Entry>, version: byte)
    requires AllKnown(queue)
    ensures Fill.NonShrinking(n => Prefix(base, queue, n), r => WbxmlSize(r, version), |queue|)
  {
    forall m: nat, n: nat | m <= n <= |queue|
      ensures WbxmlSize(Prefix(base, queue, m), version) <= WbxmlSize(Prefix(base, queue, n), version)
    {
      MoreEntries(base, queue, m, n, version);
    }
    hide WbxmlSize;
    hide Prefix;
  }
}
