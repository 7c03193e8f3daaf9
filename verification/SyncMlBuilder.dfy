/**
 The generator of server messages: src/acs/protocol/omadm/syncml.py, SyncMlBuilder. The element
 functions are the trees its methods append; the class keeps the running command id.
 */
module SyncMlBuilder {
  import opened Wrappers
  import opened Xml
  import opened WbxmlFormat

  /** One value of an Add or a Replace. */
  datatype Value = Value(uri: string, data: string, format: string, type_: string)

  /** What the constructor is given: the header of the message. */
  datatype Envelope = Envelope(sessionId: string, msgId: nat, target: string, source: string, maxMsgSize: nat)

  /** A Chal: authentication type and nonce. */
  datatype Challenge = Challenge(authType: string, nonce: string)

  function Decimal(n: nat): string {
    if n < 10 then [('0' as int + n) as char] else Decimal(n / 10) + [('0' as int + n % 10) as char]
  }

  function Or(s: string, default: string): string {
    if s == "" then default else s
  }

  function MetInf(name: string, text: string): Xml {
    Element(METINF_NS, name, text, [])
  }

  function Optional(present: bool, e: Xml): seq<Xml> {
    if present then [e] else []
  }

  function Meta(format: string, type_: string): seq<Xml> {
    Optional(format != "" || type_ != "",
             Parent("Meta",
                    Optional(format != "", MetInf("Format", format)) + Optional(type_ != "", MetInf("Type", type_))))
  }

  function Target(uri: string): Xml {
    Parent("Target", [Leaf("LocURI", uri)])
  }

  function Chal(challenge: Challenge): Xml {
    Parent("Chal", [Parent("Meta", [MetInf("Format", "b64"), MetInf("Type", challenge.authType)]
                                   + Optional(challenge.nonce != "", MetInf("NextNonce", challenge.nonce)))])
  }

  function StatusElement(id: nat, cmd: string, msgRef: string, cmdRef: string, code: string, targetRef: string,
                         challenge: Option<Challenge>): Xml {
    Parent("Status",
           [Leaf("CmdID", Decimal(id)), Leaf("MsgRef", Or(msgRef, "1")), Leaf("CmdRef", Or(cmdRef, "0")),
               Leaf("Cmd", cmd)]
           + Optional(targetRef != "", Leaf("TargetRef", targetRef))
           + (if challenge.Some? then [Chal(challenge.value)] else [])
           + [Leaf("Data", code)])
  }

  function GetItem(v: Value): Xml {
    Parent("Item", [Target(v.uri)])
  }

  function ReplaceItem(v: Value): Xml {
    Parent("Item", [Target(v.uri)] + Meta(v.format, v.type_) + [Leaf("Data", v.data)])
  }

  function AddItem(v: Value): Xml {
    Parent("Item", [Target(v.uri)]
                   + Meta(v.format, Or(v.type_, if v.format == "node" then "node" else "text/plain"))
                   + Optional(v.format != "node", Leaf("Data", v.data)))
  }

  function ItemOf(command: string, v: Value): Xml {
    if command == "Get" then GetItem(v) else if command == "Add" then AddItem(v) else ReplaceItem(v)
  }

  function ItemsOf(command: string, values: seq<Value>): (r: seq<Xml>)
    ensures |r| == |values|
  {
    if values == [] then [] else ItemsOf(command, values[..|values| - 1]) + [ItemOf(command, values[|values| - 1])]
  }

  /** A Get, Add or Replace with its items. */
  function ItemsElement(id: nat, command: string, values: seq<Value>): Xml {
    Parent(command, [Leaf("CmdID", Decimal(id))] + ItemsOf(command, values))
  }

  function HeaderElement(e: Envelope): Xml {
    Parent("SyncHdr", [Leaf("VerDTD", "1.2"), Leaf("VerProto", "DM/1.2"), Leaf("SessionID", e.sessionId),
                       Leaf("MsgID", Decimal(e.msgId)), Target(e.target),
                       Parent("Source", [Leaf("LocURI", e.source)]),
                       Parent("Meta", [MetInf("MaxMsgSize", Decimal(e.maxMsgSize))])])
  }

  function BodyElement(commands: seq<Xml>, final: bool): Xml {
    Parent("SyncBody", commands + Optional(final, Leaf("Final", "")))
  }

  function Document(e: Envelope, commands: seq<Xml>, final: bool): Xml {
    Parent("SyncML", [HeaderElement(e), BodyElement(commands, final)])
  }

  /** SyncMlBuilder: commands in order, ids from 1. */
  class Builder {
    const envelope: Envelope
    var commands: seq<Xml>
    var nextCmdId: nat

    ghost predicate Valid()
      reads this
    {
      nextCmdId == |commands| + 1
    }

    constructor (envelope: Envelope)
      ensures Valid() && this.envelope == envelope && commands == []
    {
      this.envelope := envelope;
      commands, nextCmdId := [], 1;
    }

    method CmdId() returns (id: nat)
      modifies `nextCmdId
      ensures id == old(nextCmdId) && nextCmdId == id + 1
    {
      id := nextCmdId;
      nextCmdId := nextCmdId + 1;
    }

    method Status(cmd: string, msgRef: string, cmdRef: string, code: string, targetRef: string,
                  challenge: Option<Challenge>)
      requires Valid()
      modifies this
      ensures Valid()
      ensures commands == old(commands)
                          + [StatusElement(|old(commands)| + 1, cmd, msgRef, cmdRef, code, targetRef, challenge)]
    {
      var id := CmdId();
      commands := commands + [StatusElement(id, cmd, msgRef, cmdRef, code, targetRef, challenge)];
    }

    /** get, add and replace: nothing for no values, else one command with all of them. */
    method Items(command: string, values: seq<Value>)
      requires Valid()
      modifies this
      ensures Valid()
      ensures commands == if values == [] then old(commands)
                          else old(commands) + [ItemsElement(|old(commands)| + 1, command, values)]
    {
      if values == [] {
        return;
      }
      var id := CmdId();
      var items: seq<Xml> := [];
      for i := 0 to |values|
        invariant items == ItemsOf(command, values[..i])
        invariant commands == old(commands)
      {
        assert values[..i + 1][..i] == values[..i];
        items := items + [ItemOf(command, values[i])];
      }
      assert values[..|values|] == values;
      commands := commands + [Parent(command, [Leaf("CmdID", Decimal(id))] + items)];
    }

    method Build(final: bool) returns (root: Xml)
      ensures root == Document(envelope, commands, final)
    {
      root := Document(envelope, commands, final);
    }
  }
}
