/**
 What the parser reads: a message written out as a tree, the way a client writes it, is read back field by
 field. src/acs/protocol/omadm/syncml.py:77-105 and :194-318.
 */
module SyncMlReads {
  import opened Wrappers
  import opened Xml
  import opened Utf8
  import S = SyncMl

  // ---- white space ----

  predicate Clean(s: string) {
    s == "" || (!IsSpaceChar(s[0]) && !IsSpaceChar(s[|s| - 1]))
  }

  ghost predicate AllSpace(s: string) {
    forall i :: 0 <= i < |s| ==> IsSpaceChar(s[i])
  }

  lemma {:induction false} StripLeftIs(s: string) returns (a: string)
    ensures s == a + S.StripLeft(s) && AllSpace(a)
    ensures S.StripLeft(s) == "" || !IsSpaceChar(S.StripLeft(s)[0])
  {
    hide IsSpaceChar;
    if s == "" || !IsSpaceChar(s[0]) {
      a := "";
    } else {
      var b := StripLeftIs(s[1..]);
      a := [s[0]] + b;
    }
  }

  lemma {:induction false} StripRightIs(s: string) returns (b: string)
    ensures s == S.StripRight(s) + b && AllSpace(b)
    ensures S.StripRight(s) == "" || !IsSpaceChar(S.StripRight(s)[|S.StripRight(s)| - 1])
  {
    hide IsSpaceChar;
    if s == "" || !IsSpaceChar(s[|s| - 1]) {
      b := "";
    } else {
      var a := StripRightIs(s[..|s| - 1]);
      b := a + [s[|s| - 1]];
      var t := S.StripRight(s[..|s| - 1]);
      assert t == S.StripRight(s);
      hide S.StripRight;
      assert s == s[..|s| - 1] + [s[|s| - 1]] && (t + a) + [s[|s| - 1]] == t + b;
    }
  }

  /** Stripping takes the white space off both ends and nothing else. */
  lemma StripIs(s: string) returns (a: string, b: string)
    ensures s == a + S.Strip(s) + b && AllSpace(a) && AllSpace(b) && Clean(S.Strip(s))
  {
    hide IsSpaceChar;
    a := StripLeftIs(s);
    var m := S.StripLeft(s);
    b := StripRightIs(m);
    if S.StripRight(m) != "" { assert m[0] == S.StripRight(m)[0]; }
    hide S.StripLeft; hide S.StripRight;
    assert a + (S.Strip(s) + b) == a + S.Strip(s) + b;
  }

  lemma CleanIsKept(s: string)
    requires Clean(s)
    ensures S.Strip(s) == s
  {
  }

  // ---- trees with parts that may be absent ----

  function Shown(parts: seq<(bool, Xml)>): seq<Child> {
    if parts == [] then [] else (if parts[0].0 then [Child(parts[0].1, "")] else []) + Shown(parts[1..])
  }

  ghost predicate NoneNamed(parts: seq<(bool, Xml)>, name: string) {
    forall j :: 0 <= j < |parts| ==> parts[j].1.name != name
  }

  /** Part i is the only one with its name. */
  ghost predicate OnlyAt(parts: seq<(bool, Xml)>, i: nat, name: string) {
    i < |parts| && parts[i].1.name == name && forall j :: 0 <= j < |parts| && j != i ==> parts[j].1.name != name
  }

  /** Parts one by one. */
  lemma ShownFirst(parts: seq<(bool, Xml)>, more: seq<Child>)
    requires parts != []
    ensures Shown(parts) + more == (if parts[0].0 then [Child(parts[0].1, "")] else []) + (Shown(parts[1..]) + more)
    ensures !parts[0].0 ==> Shown(parts) + more == Shown(parts[1..]) + more
  {
    var (first, rest) := (if parts[0].0 then [Child(parts[0].1, "")] else [], Shown(parts[1..]));
    assert Shown(parts) == first + rest;
    hide Shown;
    Joins(first, rest, more);
  }

  lemma Joins(a: seq<Child>, b: seq<Child>, c: seq<Child>)
    ensures (a + b) + c == a + (b + c)
    ensures a == [] ==> (a + b) + c == b + c
  {
  }

  lemma FindFirst(e: Xml, rest: seq<Child>, name: string)
    ensures S.Find([Child(e, "")] + rest, name) == if e.name == name then Some(e) else S.Find(rest, name)
    ensures S.FindAll([Child(e, "")] + rest, name)
         == (if e.name == name then [e] else []) + S.FindAll(rest, name)
  {
    assert ([Child(e, "")] + rest)[1..] == rest;
    assert [] + S.FindAll(rest, name) == S.FindAll(rest, name);
  }

  lemma {:induction false} FindsNone(parts: seq<(bool, Xml)>, more: seq<Child>, name: string)
    requires NoneNamed(parts, name)
    ensures S.Find(Shown(parts) + more, name) == S.Find(more, name)
    ensures S.FindAll(Shown(parts) + more, name) == S.FindAll(more, name)
  {
    if parts == [] {
      assert Shown(parts) + more == more;
    } else {
      hide Shown; hide S.Find; hide S.FindAll;
      FindsNone(parts[1..], more, name);
      ShownFirst(parts, more);
      FindFirst(parts[0].1, Shown(parts[1..]) + more, name);
      assert [] + S.FindAll(more, name) == S.FindAll(more, name);
    }
  }

  lemma {:induction false} FindsAt(parts: seq<(bool, Xml)>, more: seq<Child>, i: nat, name: string)
    requires OnlyAt(parts, i, name)
    ensures S.Find(Shown(parts) + more, name) == if parts[i].0 then Some(parts[i].1) else S.Find(more, name)
  {
    hide Shown; hide S.Find; hide S.FindAll;
    ShownFirst(parts, more);
    FindFirst(parts[0].1, Shown(parts[1..]) + more, name);
    if i > 0 {
      FindsAt(parts[1..], more, i - 1, name);
    } else if !parts[0].0 {
      FindsNone(parts[1..], more, name);
    }
  }

  lemma FindsPart(parts: seq<(bool, Xml)>, i: nat, name: string)
    requires OnlyAt(parts, i, name)
    ensures S.Find(Shown(parts), name) == if parts[i].0 then Some(parts[i].1) else None
  {
    FindsAt(parts, [], i, name);
    assert Shown(parts) + [] == Shown(parts);
  }

  lemma {:induction false} ShownJoins(a: seq<(bool, Xml)>, b: seq<(bool, Xml)>)
    ensures Shown(a + b) == Shown(a) + Shown(b)
  {
    if a == [] {
      assert a + b == b;
    } else {
      ShownJoins(a[1..], b);
      assert (a + b)[1..] == a[1..] + b;
      ShownFirst(a, Shown(b));
      var first := if a[0].0 then [Child(a[0].1, "")] else [];
      assert Shown(a + b) == first + Shown(a[1..] + b);
      hide Shown;
    }
  }

  lemma ShownOne(present: bool, e: Xml)
    ensures Shown([(present, e)]) == if present then [Child(e, "")] else []
  {
    assert [(present, e)][1..] == [];
  }

  /** Among leaves, looking deep is looking. */
  lemma {:induction false} DeepInLeaves(cs: seq<Child>, name: string)
    requires forall j :: 0 <= j < |cs| ==> cs[j].element.children == []
    ensures S.DeepAll(cs, name) == S.Find(cs, name)
  {
    if cs != [] {
      var e := cs[0].element;
      assert S.DeepAll(e.children, name) == None;
      assert S.Deep(e, name) == if e.name == name then Some(e) else None;
      DeepInLeaves(cs[1..], name);
    }
  }

  lemma {:induction false} ShownLeaves(parts: seq<(bool, Xml)>)
    requires forall j :: 0 <= j < |parts| ==> parts[j].1.children == []
    ensures forall j :: 0 <= j < |Shown(parts)| ==> Shown(parts)[j].element.children == []
  {
    if parts != [] { ShownLeaves(parts[1..]); }
  }

  /** The text of a leaf below an element whose parts are leaves. */
  lemma DeepReads(outer: string, parts: seq<(bool, Xml)>, i: nat, name: string)
    requires outer != name && OnlyAt(parts, i, name)
    requires forall j :: 0 <= j < |parts| ==> parts[j].1.children == []
    requires Clean(parts[i].1.text)
    ensures S.DeepText(Some(Element("", outer, "", Shown(parts))), name) == if parts[i].0 then parts[i].1.text else ""
  {
    ShownLeaves(parts);
    DeepInLeaves(Shown(parts), name);
    FindsPart(parts, i, name);
    CleanIsKept(parts[i].1.text);
    hide S.Strip; hide Clean; hide Shown;
  }

  // ---- a client's message as a tree ----

  /** A Target or Source. */
  function Loc(name: string, uri: string, locName: string): Xml {
    Element("", name, "", Shown([(uri != "", Leaf("LocURI", uri)), (locName != "", Leaf("LocName", locName))]))
  }

  function Typed(format: string, type_: string): Xml {
    Element("", "Meta", "", Shown([(format != "", Leaf("Format", format)), (type_ != "", Leaf("Type", type_))]))
  }

  function CredTree(c: S.Credentials): Xml {
    Element("", "Cred", "", [Child(Typed(if c.format == "b64" then "" else c.format, c.type_), ""),
                             Child(Leaf("Data", c.data), "")])
  }

  function SizeTree(text: string): Xml {
    Element("", "Meta", "", Shown([(true, Leaf("MaxMsgSize", text))]))
  }

  /** A number as it is written. */
  type Writer = nat -> string

  function CredOf(h: S.SyncHdr): S.Credentials {
    if h.credentials.Some? then h.credentials.value else S.Credentials("", "b64", "")
  }

  function HeaderParts(h: S.SyncHdr, write: Writer): seq<(bool, Xml)> {
    [(h.verDtd != "1.2", Leaf("VerDTD", h.verDtd)), (h.verProto != "DM/1.2", Leaf("VerProto", h.verProto)),
     (h.sessionId != "", Leaf("SessionID", h.sessionId)), (h.msgId != "", Leaf("MsgID", h.msgId)),
     (h.target != "", Loc("Target", h.target, "")),
     (h.source != "" || h.sourceName != "", Loc("Source", h.source, h.sourceName)),
     (h.credentials.Some?, CredTree(CredOf(h))), (h.maxMsgSize > 0, SizeTree(write(h.maxMsgSize)))]
  }

  function HeaderTree(h: S.SyncHdr, write: Writer): Xml {
    Element("", "SyncHdr", "", Shown(HeaderParts(h, write)))
  }

  function ItemParts(i: S.Item): seq<(bool, Xml)> {
    [(i.target != "", Loc("Target", i.target, "")), (i.source != "", Loc("Source", i.source, "")),
     (i.format != "" || i.type_ != "", Typed(i.format, i.type_)), (i.data != "", Leaf("Data", i.data))]
  }

  function ItemTree(i: S.Item): Xml {
    Element("", "Item", "", Shown(ItemParts(i)))
  }

  function ItemTrees(items: seq<S.Item>): (es: seq<Xml>)
    ensures |es| == |items|
    ensures forall k :: 0 <= k < |es| ==> es[k] == ItemTree(items[k])
  {
    seq(|items|, k requires 0 <= k < |items| => ItemTree(items[k]))
  }

  function CommandParts(c: S.Command, write: Writer): seq<(bool, Xml)> {
    [(true, Leaf("CmdID", write(c.cmdId))), (c.msgRef != "", Leaf("MsgRef", c.msgRef)),
     (c.cmdRef != "", Leaf("CmdRef", c.cmdRef)), (c.cmd != "", Leaf("Cmd", c.cmd)),
     (c.data != "", Leaf("Data", c.data))]
  }

  function CommandTree(c: S.Command, write: Writer): Xml {
    Element("", c.name, "", Shown(CommandParts(c, write)) + Children(ItemTrees(c.items)))
  }

  function CommandTrees(cs: seq<S.Command>, write: Writer): (es: seq<Xml>)
    ensures |es| == |cs|
    ensures forall k :: 0 <= k < |es| ==> es[k] == CommandTree(cs[k], write)
  {
    seq(|cs|, k requires 0 <= k < |cs| => CommandTree(cs[k], write))
  }

  function BodyTree(m: S.Message, write: Writer): Xml {
    Element("", "SyncBody", "", BodyChildren(m.commands, m.final, write))
  }

  function MessageTree(m: S.Message, write: Writer): Xml {
    Parent("SyncML", [HeaderTree(m.header, write), BodyTree(m, write)])
  }

  // ---- what can be written ----

  predicate CleanItem(i: S.Item) {
    Clean(i.target) && Clean(i.source) && Clean(i.data) && Clean(i.format) && Clean(i.type_)
  }

  predicate CleanCommand(c: S.Command) {
    && c.name != "Final" && Clean(c.data) && Clean(c.cmdRef) && Clean(c.msgRef) && Clean(c.cmd)
    && forall k :: 0 <= k < |c.items| ==> CleanItem(c.items[k])
  }

  predicate CleanHeader(h: S.SyncHdr) {
    && Clean(h.sessionId) && Clean(h.msgId) && Clean(h.target) && Clean(h.source) && Clean(h.sourceName)
    && h.verDtd != "" && Clean(h.verDtd) && h.verProto != "" && Clean(h.verProto)
    && (h.credentials.Some? ==>
          var c := h.credentials.value; Clean(c.type_) && c.format != "" && Clean(c.format) && Clean(c.data))
  }

  /** No text with white space at its ends, and no default spelled as nothing. */
  predicate CleanMessage(m: S.Message) {
    CleanHeader(m.header) && forall k :: 0 <= k < |m.commands| ==> CleanCommand(m.commands[k])
  }

  /** Reading numbers undoes writing them. */
  ghost predicate Agree(integer: S.Integer, write: Writer) {
    forall n: nat :: integer(write(n)) == Some(n) && Clean(write(n))
  }

  // ---- reading it back ----

  lemma LocReads(name: string, uri: string, locName: string)
    requires name != "LocURI" && name != "LocName" && Clean(uri) && Clean(locName)
    ensures S.DeepText(Some(Loc(name, uri, locName)), "LocURI") == uri
    ensures S.DeepText(Some(Loc(name, uri, locName)), "LocName") == locName
    ensures Loc(name, uri, locName).name == name
  {
    var parts := [(uri != "", Leaf("LocURI", uri)), (locName != "", Leaf("LocName", locName))];
    DeepReads(name, parts, 0, "LocURI");
    DeepReads(name, parts, 1, "LocName");
    hide S.DeepText; hide Shown; hide Clean;
  }

  lemma TypedReads(format: string, type_: string)
    requires Clean(format) && Clean(type_)
    ensures S.DeepText(Some(Typed(format, type_)), "Format") == format
    ensures S.DeepText(Some(Typed(format, type_)), "Type") == type_
    ensures Typed(format, type_).name == "Meta" && S.Deep(Typed(format, type_), "Data") == None
  {
    var parts := [(format != "", Leaf("Format", format)), (type_ != "", Leaf("Type", type_))];
    DeepReads("Meta", parts, 0, "Format");
    DeepReads("Meta", parts, 1, "Type");
    ShownLeaves(parts);
    DeepInLeaves(Shown(parts), "Data");
    FindsNone(parts, [], "Data");
    assert Shown(parts) + [] == Shown(parts);
    hide S.DeepText; hide Shown; hide Clean;
  }

  lemma CredReads(c: S.Credentials)
    requires Clean(c.type_) && c.format != "" && Clean(c.format) && Clean(c.data)
    ensures S.ParseCredentials(Some(CredTree(c))) == Some(c)
  {
    var format := if c.format == "b64" then "" else c.format;
    var (meta, data) := (Typed(format, c.type_), Leaf("Data", c.data));
    TypedReads(format, c.type_);
    CleanIsKept(c.data);
    var cs := [Child(meta, ""), Child(data, "")];
    assert cs[1..] == [Child(data, "")];
    assert S.DeepAll(data.children, "Data") == None;
    assert S.DeepAll(cs[1..], "Data") == Some(data);
    NotInLeaf(data, "Format");
    NotInLeaf(data, "Type");
    assert S.DeepAll(cs, "Format") == S.Deep(meta, "Format") && S.DeepAll(cs, "Type") == S.Deep(meta, "Type");
    assert S.DeepAll(cs, "Data") == Some(data);
    hide Typed; hide S.Strip; hide Clean;
  }

  lemma NotInLeaf(e: Xml, name: string)
    requires e.children == [] && e.name != name
    ensures S.DeepAll([Child(e, "")], name) == None && S.Deep(e, name) == None
  {
    assert S.DeepAll(e.children, name) == None;
    assert [Child(e, "")][1..] == [];
  }

  lemma SizeReads(text: string)
    requires Clean(text)
    ensures S.DeepText(Some(SizeTree(text)), "MaxMsgSize") == text
  {
    DeepReads("Meta", [(true, Leaf("MaxMsgSize", text))], 0, "MaxMsgSize");
  }

  /** The text of a leaf that is shown, or nothing. */
  lemma TextReads(parts: seq<(bool, Xml)>, more: seq<Child>, i: nat, name: string)
    requires OnlyAt(parts, i, name) && Clean(parts[i].1.text) && S.Find(more, name).None?
    ensures S.TextOf(S.Find(Shown(parts) + more, name)) == if parts[i].0 then parts[i].1.text else ""
  {
    FindsAt(parts, more, i, name);
    CleanIsKept(parts[i].1.text);
    hide S.Strip; hide Clean; hide Shown;
  }

  lemma HeaderNames(h: S.SyncHdr, write: Writer)
    ensures var parts := HeaderParts(h, write);
            && OnlyAt(parts, 0, "VerDTD") && OnlyAt(parts, 1, "VerProto")
            && OnlyAt(parts, 2, "SessionID") && OnlyAt(parts, 3, "MsgID")
            && OnlyAt(parts, 4, "Target") && OnlyAt(parts, 5, "Source")
            && OnlyAt(parts, 6, "Cred") && OnlyAt(parts, 7, "Meta")
  {
    hide OnlyAt; hide Shown;
    assert CredTree(CredOf(h)).name == "Cred" && SizeTree(write(h.maxMsgSize)).name == "Meta";
    assert Loc("Target", h.target, "").name == "Target" && Loc("Source", h.source, h.sourceName).name == "Source";
    hide CredTree; hide SizeTree; hide Loc; hide CredOf;
    EightNames(HeaderParts(h, write));
  }

  lemma EightNames(parts: seq<(bool, Xml)>)
    requires |parts| == 8
    requires parts[0].1.name == "VerDTD" && parts[1].1.name == "VerProto" && parts[2].1.name == "SessionID"
    requires parts[3].1.name == "MsgID" && parts[4].1.name == "Target" && parts[5].1.name == "Source"
    requires parts[6].1.name == "Cred" && parts[7].1.name == "Meta"
    ensures OnlyAt(parts, 0, "VerDTD") && OnlyAt(parts, 1, "VerProto") && OnlyAt(parts, 2, "SessionID")
    ensures OnlyAt(parts, 3, "MsgID") && OnlyAt(parts, 4, "Target") && OnlyAt(parts, 5, "Source")
    ensures OnlyAt(parts, 6, "Cred") && OnlyAt(parts, 7, "Meta")
  {
  }

  /** The leaves of a header, or their defaults. */
  lemma HeaderTexts(h: S.SyncHdr, write: Writer)
    requires CleanHeader(h)
    ensures var cs := HeaderTree(h, write).children;
            && S.Or(S.TextOf(S.Find(cs, "VerDTD")), "1.2") == h.verDtd
            && S.Or(S.TextOf(S.Find(cs, "VerProto")), "DM/1.2") == h.verProto
            && S.TextOf(S.Find(cs, "SessionID")) == h.sessionId && S.TextOf(S.Find(cs, "MsgID")) == h.msgId
  {
    HeaderNames(h, write);
    hide S.TextOf; hide S.Find; hide Clean; hide Shown; hide OnlyAt; hide Loc; hide CredTree; hide SizeTree;
    var parts := HeaderParts(h, write);
    assert Shown(parts) + [] == Shown(parts);
    NothingToFind();
    TextReads(parts, [], 0, "VerDTD");
    TextReads(parts, [], 1, "VerProto");
    TextReads(parts, [], 2, "SessionID");
    TextReads(parts, [], 3, "MsgID");
  }

  lemma NothingToFind()
    ensures forall name :: S.Find([], name) == None
  {
  }

  /** Its other parts, where they are shown. */
  lemma HeaderElements(h: S.SyncHdr, write: Writer)
    ensures var cs := HeaderTree(h, write).children;
            && S.Find(cs, "Target") == (if h.target != "" then Some(Loc("Target", h.target, "")) else None)
            && S.Find(cs, "Source") == (if h.source != "" || h.sourceName != ""
                                        then Some(Loc("Source", h.source, h.sourceName)) else None)
            && S.Find(cs, "Cred") == (if h.credentials.Some? then Some(CredTree(CredOf(h))) else None)
            && S.Find(cs, "Meta") == (if h.maxMsgSize > 0 then Some(SizeTree(write(h.maxMsgSize))) else None)
  {
    HeaderNames(h, write);
    hide S.Find; hide Shown; hide OnlyAt; hide Loc; hide CredTree; hide SizeTree; hide CredOf;
    var parts := HeaderParts(h, write);
    FindsPart(parts, 4, "Target");
    FindsPart(parts, 5, "Source");
    FindsPart(parts, 6, "Cred");
    FindsPart(parts, 7, "Meta");
  }

  lemma HeaderIsRead(h: S.SyncHdr, integer: S.Integer, write: Writer)
    requires CleanHeader(h) && Agree(integer, write) && integer(h.msgId).Some?
    ensures S.ParseHeader(HeaderTree(h, write), integer) == Some(h)
  {
    HeaderTexts(h, write);
    HeaderElements(h, write);
    hide S.TextOf; hide S.DeepText; hide S.ParseCredentials; hide Clean; hide HeaderTree; hide Loc; hide CredTree;
    hide SizeTree; hide S.Find; hide S.Or;
    NothingIsClean();
    LocReads("Target", h.target, "");
    LocReads("Source", h.source, h.sourceName);
    SizeReads(write(h.maxMsgSize));
    if h.credentials.Some? { CredReads(CredOf(h)); }
    Absent();
  }

  lemma NothingIsClean()
    ensures Clean("")
  {
  }

  /** What is not there reads as nothing. */
  lemma Absent()
    ensures forall name :: S.DeepText(None, name) == ""
    ensures S.ParseCredentials(None) == None
  {
  }

  lemma ItemNames(i: S.Item)
    ensures var parts := ItemParts(i);
            && OnlyAt(parts, 0, "Target") && OnlyAt(parts, 1, "Source") && OnlyAt(parts, 2, "Meta")
            && OnlyAt(parts, 3, "Data")
  {
    assert Typed(i.format, i.type_).name == "Meta";
    assert Loc("Target", i.target, "").name == "Target" && Loc("Source", i.source, "").name == "Source";
    hide Typed; hide Loc;
  }

  lemma ItemIsRead(i: S.Item)
    requires CleanItem(i)
    ensures S.ParseItem(ItemTree(i)) == i
  {
    ItemNames(i);
    hide S.TextOf; hide S.DeepText; hide Clean; hide Shown; hide OnlyAt; hide Loc; hide Typed; hide S.Find;
    var parts := ItemParts(i);
    assert Shown(parts) + [] == Shown(parts);
    NothingIsClean();
    NothingToFind();
    FindsPart(parts, 0, "Target");
    FindsPart(parts, 1, "Source");
    FindsPart(parts, 2, "Meta");
    TextReads(parts, [], 3, "Data");
    LocReads("Target", i.target, "");
    LocReads("Source", i.source, "");
    TypedReads(i.format, i.type_);
    Absent();
  }

  // ---- commands ----

  lemma {:induction false} ItemsAreFound(items: seq<S.Item>)
    ensures S.FindAll(Children(ItemTrees(items)), "Item") == ItemTrees(items)
    decreases |items|
  {
    hide ItemTree;
    if items != [] {
      ItemsAreFound(items[1..]);
      assert Children(ItemTrees(items))[1..] == Children(ItemTrees(items[1..]));
      assert ItemTrees(items) == [ItemTree(items[0])] + ItemTrees(items[1..]);
      assert ItemTree(items[0]).name == "Item" by { ItemName(items[0]); }
    }
  }

  lemma ItemName(i: S.Item)
    ensures ItemTree(i).name == "Item"
  {
  }

  lemma {:induction false} ItemsAreSkipped(items: seq<S.Item>, name: string)
    requires name != "Item"
    ensures S.Find(Children(ItemTrees(items)), name) == None
    decreases |items|
  {
    hide ItemTree;
    if items != [] {
      ItemsAreSkipped(items[1..], name);
      assert Children(ItemTrees(items))[1..] == Children(ItemTrees(items[1..]));
      ItemName(items[0]);
    }
  }

  lemma {:induction false} ItemsAreRead(items: seq<S.Item>)
    requires forall k :: 0 <= k < |items| ==> CleanItem(items[k])
    ensures S.ParseItems(ItemTrees(items)) == items
    decreases |items|
  {
    hide ItemTree; hide S.ParseItem; hide CleanItem;
    if items != [] {
      ItemsAreRead(items[1..]);
      ItemIsRead(items[0]);
      assert ItemTrees(items)[1..] == ItemTrees(items[1..]);
      assert items == [items[0]] + items[1..];
    }
  }

  lemma CommandNames(c: S.Command, write: Writer)
    ensures var parts := CommandParts(c, write);
            && OnlyAt(parts, 0, "CmdID") && OnlyAt(parts, 1, "MsgRef") && OnlyAt(parts, 2, "CmdRef")
            && OnlyAt(parts, 3, "Cmd") && OnlyAt(parts, 4, "Data") && NoneNamed(parts, "Item")
  {
  }

  lemma CommandIsRead(c: S.Command, integer: S.Integer, write: Writer)
    requires CleanCommand(c) && Agree(integer, write)
    ensures S.ParseCommand(CommandTree(c, write), integer) == Some(c)
  {
    CommandNames(c, write);
    hide S.TextOf; hide Clean; hide Shown; hide OnlyAt; hide S.Find; hide NoneNamed; hide CleanItem; hide ItemTree;
    hide S.ParseItems; hide S.FindAll;
    var (parts, items) := (CommandParts(c, write), Children(ItemTrees(c.items)));
    ItemsAreSkipped(c.items, "CmdID");
    ItemsAreSkipped(c.items, "MsgRef");
    ItemsAreSkipped(c.items, "CmdRef");
    ItemsAreSkipped(c.items, "Cmd");
    ItemsAreSkipped(c.items, "Data");
    TextReads(parts, items, 0, "CmdID");
    TextReads(parts, items, 1, "MsgRef");
    TextReads(parts, items, 2, "CmdRef");
    TextReads(parts, items, 3, "Cmd");
    TextReads(parts, items, 4, "Data");
    FindsNone(parts, items, "Item");
    ItemsAreFound(c.items);
    ItemsAreRead(c.items);
  }

  /** The children of a body. */
  function BodyChildren(cs: seq<S.Command>, final: bool, write: Writer): seq<Child> {
    Children(CommandTrees(cs, write)) + (if final then [Child(Leaf("Final", ""), "")] else [])
  }

  lemma {:induction false} CommandsAreRead(cs: seq<S.Command>, final: bool, integer: S.Integer, write: Writer)
    requires Agree(integer, write) && forall k :: 0 <= k < |cs| ==> CleanCommand(cs[k])
    ensures S.ParseCommands(BodyChildren(cs, final, write), integer) == Some(cs)
    ensures S.Find(BodyChildren(cs, final, write), "Final").Some? <==> final
    decreases |cs|
  {
    hide S.ParseCommand; hide Agree; hide CommandTree; hide CleanCommand;
    var children := BodyChildren(cs, final, write);
    if cs == [] {
      if final { assert children[1..] == []; }
    } else {
      CommandsAreRead(cs[1..], final, integer, write);
      CommandIsRead(cs[0], integer, write);
      FirstCommand(cs, final, write);
      hide BodyChildren;
      CommandName(cs[0], write);
      assert CleanCommand(cs[0]);
      NotFinal(cs[0]);
      assert cs == [cs[0]] + cs[1..];
    }
  }

  lemma FirstCommand(cs: seq<S.Command>, final: bool, write: Writer)
    requires cs != []
    ensures var children := BodyChildren(cs, final, write);
            children != [] && children[1..] == BodyChildren(cs[1..], final, write)
            && children[0].element == CommandTree(cs[0], write)
  {
    hide CommandTree;
    assert CommandTrees(cs, write)[1..] == CommandTrees(cs[1..], write);
    assert Children(CommandTrees(cs, write))[1..] == Children(CommandTrees(cs[1..], write));
  }

  lemma NotFinal(c: S.Command)
    requires CleanCommand(c)
    ensures c.name != "Final"
  {
  }

  lemma CommandName(c: S.Command, write: Writer)
    ensures CommandTree(c, write).name == c.name
  {
  }

  /**
   What a client writes is what the server reads: every header field, and every command with its
   fields and its items in their order, whichever of them are left out.
   */
  lemma MessageIsRead(m: S.Message, integer: S.Integer, write: Writer)
    requires CleanMessage(m) && Agree(integer, write) && integer(m.header.msgId).Some?
    ensures S.Parse(MessageTree(m, write), integer) == Some(m)
  {
    hide S.ParseHeader; hide S.ParseCommands; hide Agree; hide CleanHeader; hide CleanCommand;
    HeaderIsRead(m.header, integer, write);
    CommandsAreRead(m.commands, m.final, integer, write);
    var (hdr, body) := (HeaderTree(m.header, write), BodyTree(m, write));
    assert hdr.name == "SyncHdr" && body.name == "SyncBody";
    assert body.children == BodyChildren(m.commands, m.final, write);
    hide HeaderTree; hide BodyTree; hide BodyChildren;
    PartsAreFound(hdr, body);
    hide S.Find;
  }

  lemma PartsAreFound(hdr: Xml, body: Xml)
    requires hdr.name == "SyncHdr" && body.name == "SyncBody"
    ensures var root := Parent("SyncML", [hdr, body]);
            S.Find(root.children, "SyncHdr") == Some(hdr) && S.Find(root.children, "SyncBody") == Some(body)
  {
    var cs := Parent("SyncML", [hdr, body]).children;
    assert cs == [Child(hdr, ""), Child(body, "")] && cs[1..] == [Child(body, "")];
  }

  /** A tree that is not a SyncML message with a header and a body is refused. */
  lemma OtherTreesAreRefused(root: Xml, integer: S.Integer)
    requires
      || root.name != "SyncML"
      || (forall k :: 0 <= k < |root.children| ==> root.children[k].element.name != "SyncHdr")
      || (forall k :: 0 <= k < |root.children| ==> root.children[k].element.name != "SyncBody")
    ensures S.Parse(root, integer).None?
  {
    hide S.ParseHeader; hide S.ParseCommands;
    var hdr, body := S.Find(root.children, "SyncHdr"), S.Find(root.children, "SyncBody");
    if hdr.Some? { FoundIsThere(root.children, "SyncHdr"); }
    if body.Some? { FoundIsThere(root.children, "SyncBody"); }
  }

  lemma {:induction false} FoundIsThere(cs: seq<Child>, name: string)
    requires S.Find(cs, name).Some?
    ensures exists k :: 0 <= k < |cs| && cs[k].element.name == name
  {
    if cs[0].element.name != name {
      FoundIsThere(cs[1..], name);
      var k :| 0 <= k < |cs[1..]| && cs[1..][k].element.name == name;
      assert cs[k + 1].element.name == name;
    }
  }
}
