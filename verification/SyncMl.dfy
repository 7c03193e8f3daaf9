/**
 SyncML messages at tree level: src/acs/protocol/omadm/syncml.py, `parse` and its helpers. Reading
 a decimal integer is a parameter, so what is proved holds for any way of reading one.
 */
module SyncMl {
  import opened Wrappers
  import opened Xml
  import opened Utf8

  datatype Credentials = Credentials(type_: string, format: string, data: string)

  datatype Item = Item(target: string, source: string, data: string, format: string, type_: string) {
    function Uri(): string {
      if target != "" then target else source
    }
  }

  /** Command.first_uri is the first item's address. */
  datatype Command = Command(name: string, cmdId: nat, items: seq<Item>, data: string, cmdRef: string, msgRef: string,
                             cmd: string) {
    function FirstUri(): string {
      if items == [] then "" else items[0].Uri()
    }
  }

  datatype SyncHdr = SyncHdr(sessionId: string, msgId: string, target: string, source: string, sourceName: string,
                             maxMsgSize: nat, credentials: Option<Credentials>, verDtd: string, verProto: string)

  datatype Message = Message(header: SyncHdr, commands: seq<Command>, final: bool)

  predicate HasAlert(m: Message, code: string) {
    exists i :: 0 <= i < |m.commands| && m.commands[i].name == "Alert" && m.commands[i].data == code
  }

  /** _integer: None where it raises SyncMlParseError. */
  type Integer = string -> Option<nat>

  // ---- helpers ----

  function StripLeft(s: string): string {
    if s == "" || !IsSpaceChar(s[0]) then s else StripLeft(s[1..])
  }

  function StripRight(s: string): string {
    if s == "" || !IsSpaceChar(s[|s| - 1]) then s else StripRight(s[..|s| - 1])
  }

  /** str.strip */
  function Strip(s: string): string {
    StripRight(StripLeft(s))
  }

  function TextOf(e: Option<Xml>): string {
    if e.None? then "" else Strip(e.value.text)
  }

  /** _find: the first child with this name, whatever its namespace. */
  function Find(cs: seq<Child>, name: string): Option<Xml> {
    if cs == [] then None
    else if cs[0].element.name == name then Some(cs[0].element)
    else Find(cs[1..], name)
  }

  function FindAll(cs: seq<Child>, name: string): seq<Xml> {
    if cs == [] then []
    else if cs[0].element.name == name then [cs[0].element] + FindAll(cs[1..], name)
    else FindAll(cs[1..], name)
  }

  /** The first element with this name in document order, the parent itself included. */
  function Deep(e: Xml, name: string): Option<Xml>
    decreases e, 1
  {
    if e.name == name then Some(e) else DeepAll(e.children, name)
  }

  function DeepAll(cs: seq<Child>, name: string): Option<Xml>
    decreases cs, 0
  {
    if cs == [] then None
    else
      var first := Deep(cs[0].element, name);
      if first.Some? then first else DeepAll(cs[1..], name)
  }

  function DeepText(e: Option<Xml>, name: string): string {
    if e.None? then "" else TextOf(Deep(e.value, name))
  }

  function Or(s: string, default: string): string {
    if s == "" then default else s
  }

  // ---- parser ----

  function ParseItem(e: Xml): Item {
    Item(DeepText(Find(e.children, "Target"), "LocURI"),
         DeepText(Find(e.children, "Source"), "LocURI"),
         TextOf(Find(e.children, "Data")),
         DeepText(Find(e.children, "Meta"), "Format"),
         DeepText(Find(e.children, "Meta"), "Type"))
  }

  function ParseItems(es: seq<Xml>): (r: seq<Item>)
    ensures |r| == |es|
  {
    if es == [] then [] else [ParseItem(es[0])] + ParseItems(es[1..])
  }

  function ParseCommand(e: Xml, integer: Integer): Option<Command> {
    var cmdId := integer(TextOf(Find(e.children, "CmdID")));
    if cmdId.None? then None
    else
      Some(Command(e.name, cmdId.value, ParseItems(FindAll(e.children, "Item")),
                   TextOf(Find(e.children, "Data")),
                   TextOf(Find(e.children, "CmdRef")),
                   TextOf(Find(e.children, "MsgRef")),
                   TextOf(Find(e.children, "Cmd"))))
  }

  function ParseCommands(cs: seq<Child>, integer: Integer): Option<seq<Command>> {
    if cs == [] then Some([])
    else if cs[0].element.name == "Final" then ParseCommands(cs[1..], integer)
    else
      var first := ParseCommand(cs[0].element, integer);
      if first.None? then None
      else
        var rest := ParseCommands(cs[1..], integer);
        if rest.None? then None else Some([first.value] + rest.value)
  }

  function ParseCredentials(cred: Option<Xml>): Option<Credentials> {
    if cred.None? then None
    else Some(Credentials(DeepText(cred, "Type"), Or(DeepText(cred, "Format"), "b64"), DeepText(cred, "Data")))
  }

  function ParseHeader(e: Xml, integer: Integer): Option<SyncHdr> {
    var meta := Find(e.children, "Meta");
    var size := if meta.Some? then integer(DeepText(meta, "MaxMsgSize")) else Some(0);
    var msgId := TextOf(Find(e.children, "MsgID"));
    if size.None? || integer(msgId).None? then None
    else
      Some(SyncHdr(TextOf(Find(e.children, "SessionID")), msgId,
                   DeepText(Find(e.children, "Target"), "LocURI"),
                   DeepText(Find(e.children, "Source"), "LocURI"),
                   DeepText(Find(e.children, "Source"), "LocName"),
                   size.value, ParseCredentials(Find(e.children, "Cred")),
                   Or(TextOf(Find(e.children, "VerDTD")), "1.2"),
                   Or(TextOf(Find(e.children, "VerProto")), "DM/1.2")))
  }

  /** parse on the tree of a document; None where it raises SyncMlParseError. */
  function Parse(root: Xml, integer: Integer): Option<Message> {
    var hdr := Find(root.children, "SyncHdr");
    var body := Find(root.children, "SyncBody");
    if root.name != "SyncML" || hdr.None? || body.None? then None
    else
      var header := ParseHeader(hdr.value, integer);
      var commands := ParseCommands(body.value.children, integer);
      if header.None? || commands.None? then None
      else Some(Message(header.value, commands.value, Find(body.value.children, "Final").Some?))
  }

  /** The loop over the body, as the source runs it. */
  method ParseBody(body: Xml, integer: Integer) returns (commands: Option<seq<Command>>, final: bool)
    ensures commands == ParseCommands(body.children, integer)
    ensures commands.Some? ==> final == Find(body.children, "Final").Some?
  {
    var cs := body.children;
    var list: seq<Command> := [];
    final := false;
    assert cs[0..] == cs;
    After([], ParseCommands(cs, integer));
    for i := 0 to |cs|
      invariant ParseCommands(cs, integer) == Prepended(list, ParseCommands(cs[i..], integer))
      invariant Find(cs, "Final").Some? <==> final || Find(cs[i..], "Final").Some?
    {
      hide ParseCommand;
      assert cs[i..][0] == cs[i] && cs[i..][1..] == cs[i + 1..];
      if cs[i].element.name == "Final" {
        final := true;
      } else {
        var command := ParseCommand(cs[i].element, integer);
        if command.None? {
          return None, final;
        }
        PrependedOne(list, command.value, ParseCommands(cs[i + 1..], integer));
        list := list + [command.value];
      }
    }
    assert cs[|cs|..] == [];
    After(list, Some([]));
    commands := Some(list);
  }

  function Prepended(list: seq<Command>, rest: Option<seq<Command>>): Option<seq<Command>> {
    if rest.None? then None else Some(list + rest.value)
  }

  lemma After(list: seq<Command>, rest: Option<seq<Command>>)
    ensures Prepended([], rest) == rest && Prepended(list, Some([])) == Some(list)
  {
    assert rest.Some? ==> [] + rest.value == rest.value;
    assert list + [] == list;
  }

  lemma PrependedOne(list: seq<Command>, c: Command, rest: Option<seq<Command>>)
    ensures Prepended(list, Prepended([c], rest)) == Prepended(list + [c], rest)
  {
    assert rest.Some? ==> list + ([c] + rest.value) == (list + [c]) + rest.value;
  }

  // ---- the parser does not see what the WBXML codec changes ----

  /** What the codec makes of a tree. */
  function Carried(e: Xml, ns: string): (r: Xml)
    ensures r.name == e.name
  {
    Qualified(Stripped(e), ns)
  }

  function CarriedAll(cs: seq<Child>, ns: string): seq<Child> {
    QualifiedAll(StrippedAll(cs), ns)
  }

  function CarriedOption(e: Option<Xml>, ns: string): Option<Xml> {
    if e.None? then None else Some(Carried(e.value, ns))
  }

  lemma {:induction false} StripSpace(s: string)
    requires forall i :: 0 <= i < |s| ==> IsSpaceChar(s[i])
    ensures Strip(s) == ""
  {
    if s != "" {
      StripSpace(s[1..]);
    }
  }

  lemma CarriedText(e: Xml, ns: string)
    ensures Strip(Carried(e, ns).text) == Strip(e.text)
  {
    if e.children != [] && IsSpace(e.text) { StripSpace(e.text); }
  }

  lemma CarriedFirst(cs: seq<Child>, ns: string)
    requires cs != []
    ensures CarriedAll(cs, ns) != []
    ensures CarriedAll(cs, ns)[0].element == Carried(cs[0].element, ns)
    ensures CarriedAll(cs, ns)[1..] == CarriedAll(cs[1..], ns)
  {
    assert StrippedAll(cs)[1..] == StrippedAll(cs[1..]);
    assert QualifiedAll(StrippedAll(cs), ns)[1..] == QualifiedAll(StrippedAll(cs)[1..], ns);
  }

  lemma {:induction false} FindCarried(cs: seq<Child>, name: string, ns: string)
    ensures Find(CarriedAll(cs, ns), name) == CarriedOption(Find(cs, name), ns)
  {
    if cs != [] {
      CarriedFirst(cs, ns);
      FindCarried(cs[1..], name, ns);
    }
  }

  lemma {:induction false} DeepCarried(e: Xml, name: string, ns: string)
    ensures Deep(Carried(e, ns), name) == CarriedOption(Deep(e, name), ns)
    decreases e, 1
  {
    DeepAllCarried(e.children, name, ns);
  }

  lemma {:induction false} DeepAllCarried(cs: seq<Child>, name: string, ns: string)
    ensures DeepAll(CarriedAll(cs, ns), name) == CarriedOption(DeepAll(cs, name), ns)
    decreases cs, 0
  {
    if cs != [] {
      CarriedFirst(cs, ns);
      DeepCarried(cs[0].element, name, ns);
      DeepAllCarried(cs[1..], name, ns);
    }
  }

  /** The text of a named child, shallow. */
  lemma TextFound(e: Xml, name: string, ns: string)
    ensures TextOf(Find(Carried(e, ns).children, name)) == TextOf(Find(e.children, name))
    ensures Find(Carried(e, ns).children, name).Some? <==> Find(e.children, name).Some?
  {
    FindCarried(e.children, name, ns);
    var found := Find(e.children, name);
    if found.Some? { CarriedText(found.value, ns); }
  }

  /** The text of a named descendant of a named child. */
  lemma DeepFound(e: Xml, name: string, inner: string, ns: string)
    ensures DeepText(Find(Carried(e, ns).children, name), inner) == DeepText(Find(e.children, name), inner)
    ensures Find(Carried(e, ns).children, name).Some? <==> Find(e.children, name).Some?
  {
    FindCarried(e.children, name, ns);
    var found := Find(e.children, name);
    if found.Some? {
      DeepCarried(found.value, inner, ns);
      var d := Deep(found.value, inner);
      if d.Some? { CarriedText(d.value, ns); }
    }
  }

  lemma ItemCarried(e: Xml, ns: string)
    ensures ParseItem(Carried(e, ns)) == ParseItem(e)
  {
    DeepFound(e, "Target", "LocURI", ns);
    DeepFound(e, "Source", "LocURI", ns);
    TextFound(e, "Data", ns);
    DeepFound(e, "Meta", "Format", ns);
    DeepFound(e, "Meta", "Type", ns);
    hide Carried;
    hide Find;
    hide DeepText;
    hide TextOf;
  }

  lemma {:induction false} ItemsCarried(cs: seq<Child>, ns: string)
    ensures ParseItems(FindAll(CarriedAll(cs, ns), "Item")) == ParseItems(FindAll(cs, "Item"))
  {
    hide ParseItem;
    if cs != [] {
      CarriedFirst(cs, ns);
      ItemsCarried(cs[1..], ns);
      if cs[0].element.name == "Item" {
        ItemCarried(cs[0].element, ns);
        var e, e' := cs[0].element, CarriedAll(cs, ns)[0].element;
        assert ([e] + FindAll(cs[1..], "Item"))[1..] == FindAll(cs[1..], "Item");
        assert ([e'] + FindAll(CarriedAll(cs[1..], ns), "Item"))[1..] == FindAll(CarriedAll(cs[1..], ns), "Item");
      }
    }
  }

  lemma CommandCarried(e: Xml, integer: Integer, ns: string)
    ensures ParseCommand(Carried(e, ns), integer) == ParseCommand(e, integer)
  {
    TextFound(e, "CmdID", ns);
    TextFound(e, "Data", ns);
    TextFound(e, "CmdRef", ns);
    TextFound(e, "MsgRef", ns);
    TextFound(e, "Cmd", ns);
    ItemsCarried(e.children, ns);
    assert Carried(e, ns).children == CarriedAll(e.children, ns);
    hide Find;
    hide FindAll;
    hide TextOf;
    hide Carried;
    hide ParseItems;
  }

  lemma {:induction false} CommandsCarried(cs: seq<Child>, integer: Integer, ns: string)
    ensures ParseCommands(CarriedAll(cs, ns), integer) == ParseCommands(cs, integer)
  {
    hide ParseCommand;
    if cs != [] {
      CarriedFirst(cs, ns);
      CommandCarried(cs[0].element, integer, ns);
      CommandsCarried(cs[1..], integer, ns);
    }
  }

  lemma HeaderCarried(e: Xml, integer: Integer, ns: string)
    ensures ParseHeader(Carried(e, ns), integer) == ParseHeader(e, integer)
  {
    DeepFound(e, "Meta", "MaxMsgSize", ns);
    DeepFound(e, "Target", "LocURI", ns);
    DeepFound(e, "Source", "LocURI", ns);
    DeepFound(e, "Source", "LocName", ns);
    DeepFound(e, "Cred", "Type", ns);
    DeepFound(e, "Cred", "Format", ns);
    DeepFound(e, "Cred", "Data", ns);
    TextFound(e, "MsgID", ns);
    TextFound(e, "SessionID", ns);
    TextFound(e, "VerDTD", ns);
    TextFound(e, "VerProto", ns);
    hide Carried;
    hide Find;
    hide DeepText;
    hide TextOf;
  }

  /**
   An XML session and a WBXML session see the same message: for every tree, what the codec changes
   (formatting white space, namespaces) is invisible to the parser.
   */
  lemma SameMessage(root: Xml, integer: Integer, ns: string)
    ensures Parse(Carried(root, ns), integer) == Parse(root, integer)
  {
    FindCarried(root.children, "SyncHdr", ns);
    FindCarried(root.children, "SyncBody", ns);
    var hdr, body := Find(root.children, "SyncHdr"), Find(root.children, "SyncBody");
    if hdr.Some? && body.Some? {
      HeaderCarried(hdr.value, integer, ns);
      CommandsCarried(body.value.children, integer, ns);
      FindCarried(body.value.children, "Final", ns);
      assert Carried(body.value, ns).children == CarriedAll(body.value.children, ns);
    }
    assert Carried(root, ns).children == CarriedAll(root.children, ns);
    hide ParseHeader;
    hide ParseCommands;
    hide Carried;
    hide CarriedAll;
    hide Find;
  }
}
