/**
 What a device reports about itself is recorded, and nothing else is: src/acs/protocol/omadm/session.py:721-743.
 */
module DmRecords {
  import opened Wrappers
  import opened DmModel
  import S = SyncMl
  import T = MoTree

  // ---- one report ----

  /** The address an item is about. */
  function About(i: S.Item): string {
    if i.target != "" then i.target else i.source
  }

  /** The address leads to a node that the device owns. */
  ghost predicate DeviceOwns(t: T.MoTree, uri: string) {
    uri != "" && exists i: nat :: T.NamesAt(t, uri, i) && T.AllNodes(t)[i].source == T.Device
  }

  lemma OwnsIs(t: T.MoTree, uri: string)
    ensures DeviceOwns(t, uri) <==> uri != "" && T.Node(t, uri).Some? && T.Node(t, uri).value.source == T.Device
  {
    T.NodeIsNamed(t, uri);
    if T.Node(t, uri).Some? { var i := T.WhichNode(t, uri); }
    hide T.Node; hide T.AllNodes; hide T.NamesAt;
    if DeviceOwns(t, uri) {
      var i: nat :| T.NamesAt(t, uri, i) && T.AllNodes(t)[i].source == T.Device;
      assert T.Node(t, uri) == Some(T.AllNodes(t)[i]);
    }
  }

  /** Item j says something about the address. */
  predicate Says(items: seq<S.Item>, uri: string, j: nat) {
    j < |items| && About(items[j]) == uri && items[j].data != ""
  }

  /** Item j of command i reports a value for the address. */
  predicate Reports(cs: seq<S.Command>, uri: string, i: nat, j: nat) {
    i < |cs| && cs[i].name in {"Replace", "Results", "Add"} && Says(cs[i].items, uri, j)
  }

  ghost predicate LastSaid(items: seq<S.Item>, uri: string, j: nat) {
    Says(items, uri, j) && forall k: nat :: j < k ==> !Says(items, uri, k)
  }

  /** It is the last to do so. */
  ghost predicate LastReport(cs: seq<S.Command>, uri: string, i: nat, j: nat) {
    Reports(cs, uri, i, j) && forall k: nat, l: nat :: k > i || (k == i && l > j) ==> !Reports(cs, uri, k, l)
  }

  ghost predicate SameAt(a: map<string, string>, b: map<string, string>, uri: string) {
    (uri in a <==> uri in b) && (uri in a ==> a[uri] == b[uri])
  }

  /** The values after a message, from those before it. */
  ghost predicate Recorded(t: T.MoTree, cs: seq<S.Command>, before: map<string, string>, after: map<string, string>,
                           uri: string) {
    && (forall i: nat, j: nat :: DeviceOwns(t, uri) && LastReport(cs, uri, i, j) ==>
          uri in after && after[uri] == cs[i].items[j].data)
    && (!DeviceOwns(t, uri) || (forall i: nat, j: nat :: !Reports(cs, uri, i, j)) ==> SameAt(after, before, uri))
  }

  // ---- the loops ----

  /** The same for the items of one command. */
  ghost predicate ItemsRecorded(t: T.MoTree, items: seq<S.Item>, before: map<string, string>,
                                after: map<string, string>, uri: string) {
    && (forall j: nat :: DeviceOwns(t, uri) && LastSaid(items, uri, j) ==>
          uri in after && after[uri] == items[j].data)
    && (!DeviceOwns(t, uri) || (forall j: nat :: !Says(items, uri, j)) ==> SameAt(after, before, uri))
  }

  lemma {:induction false} ItemsRecord(t: T.MoTree, items: seq<S.Item>, values: map<string, string>, uri: string)
    ensures ItemsRecorded(t, items, values, AbsorbItems(t, items, values), uri)
    decreases |items|
  {
    hide T.Node; hide DeviceOwns;
    if items != [] {
      hide ItemsRecorded;
      var i := items[0];
      OwnsIs(t, About(i));
      var next := if i.data != "" && DeviceOwns(t, About(i)) then values[About(i) := i.data] else values;
      assert AbsorbItems(t, items, values) == AbsorbItems(t, items[1..], next);
      ItemsRecord(t, items[1..], next, uri);
      OneMoreSays(t, items, values, AbsorbItems(t, items, values), uri);
    }
  }

  lemma OneMoreSays(t: T.MoTree, items: seq<S.Item>, before: map<string, string>, after: map<string, string>,
                    uri: string)
    requires items != []
    requires var i := items[0];
             ItemsRecorded(t, items[1..], if i.data != "" && DeviceOwns(t, About(i)) then before[About(i) := i.data]
                                          else before, after, uri)
    ensures ItemsRecorded(t, items, before, after, uri)
  {
    hide DeviceOwns; hide About;
    forall j: nat | DeviceOwns(t, uri) && LastSaid(items, uri, j)
      ensures uri in after && after[uri] == items[j].data
    {
      if j > 0 {
        LaterSaid(items, uri, j);
      } else {
        NoMoreSaid(items, uri);
      }
    }
    hide LastSaid;
    if forall j: nat :: !Says(items, uri, j) { Unsaid(items, uri); }
  }

  lemma Unsaid(items: seq<S.Item>, uri: string)
    requires items != [] && forall j: nat :: !Says(items, uri, j)
    ensures items[0].data == "" || About(items[0]) != uri
    ensures forall j: nat :: !Says(items[1..], uri, j)
  {
    assert !Says(items, uri, 0);
    forall j: nat
      ensures !Says(items[1..], uri, j)
    {
      assert !Says(items, uri, j + 1);
    }
  }

  lemma LaterSaid(items: seq<S.Item>, uri: string, j: nat)
    requires items != [] && 0 < j && LastSaid(items, uri, j)
    ensures LastSaid(items[1..], uri, j - 1)
  {
    forall k: nat | j - 1 < k
      ensures !Says(items[1..], uri, k)
    {
      assert !Says(items, uri, k + 1);
    }
  }

  lemma NoMoreSaid(items: seq<S.Item>, uri: string)
    requires items != [] && LastSaid(items, uri, 0)
    ensures forall k: nat :: !Says(items[1..], uri, k)
  {
    forall k: nat
      ensures !Says(items[1..], uri, k)
    {
      assert !Says(items, uri, k + 1);
    }
  }

  lemma {:induction false} CommandsRecord(t: T.MoTree, cs: seq<S.Command>, values: map<string, string>, uri: string)
    ensures Recorded(t, cs, values, AbsorbCommands(t, cs, values), uri)
    decreases |cs|
  {
    if cs == [] {
      hide DeviceOwns;
    } else {
      hide Recorded; hide AbsorbItems; hide ItemsRecorded;
      var (c, r) := (cs[0], AbsorbCommands(t, cs, values));
      var next := if c.name in {"Replace", "Results", "Add"} then AbsorbItems(t, c.items, values) else values;
      ItemsRecord(t, c.items, values, uri);
      CommandsRecord(t, cs[1..], next, uri);
      OneMoreRecords(t, cs, values, next, r, uri);
    }
  }

  lemma OneMoreRecords(t: T.MoTree, cs: seq<S.Command>, before: map<string, string>, next: map<string, string>,
                       after: map<string, string>, uri: string)
    requires cs != [] && Recorded(t, cs[1..], next, after, uri)
    requires if cs[0].name in {"Replace", "Results", "Add"} then ItemsRecorded(t, cs[0].items, before, next, uri)
             else next == before
    ensures Recorded(t, cs, before, after, uri)
  {
    hide DeviceOwns; hide About;
    forall i: nat, j: nat | DeviceOwns(t, uri) && LastReport(cs, uri, i, j)
      ensures uri in after && after[uri] == cs[i].items[j].data
    {
      LastDecides(t, cs, before, next, after, uri, i, j);
    }
    hide LastReport;
    if forall i: nat, j: nat :: !Reports(cs, uri, i, j) { Silent(cs, uri); }
    hide Reports; hide Says;
  }

  lemma LastDecides(t: T.MoTree, cs: seq<S.Command>, before: map<string, string>, next: map<string, string>,
                    after: map<string, string>, uri: string, i: nat, j: nat)
    requires cs != [] && Recorded(t, cs[1..], next, after, uri)
    requires cs[0].name in {"Replace", "Results", "Add"} ==> ItemsRecorded(t, cs[0].items, before, next, uri)
    requires DeviceOwns(t, uri) && LastReport(cs, uri, i, j)
    ensures i < |cs| && j < |cs[i].items| && uri in after && after[uri] == cs[i].items[j].data
  {
    hide DeviceOwns; hide About;
    if i > 0 {
      LaterReport(cs, uri, i, j);
      hide LastReport;
    } else {
      NoMoreReports(cs, uri, j);
      hide LastSaid;
      assert SameAt(after, next, uri);
    }
  }

  lemma LaterReport(cs: seq<S.Command>, uri: string, i: nat, j: nat)
    requires cs != [] && 0 < i && LastReport(cs, uri, i, j)
    ensures LastReport(cs[1..], uri, i - 1, j)
  {
    hide Says;
    forall k: nat, l: nat | k > i - 1 || (k == i - 1 && l > j)
      ensures !Reports(cs[1..], uri, k, l)
    {
      assert !Reports(cs, uri, k + 1, l);
    }
  }

  lemma NoMoreReports(cs: seq<S.Command>, uri: string, j: nat)
    requires cs != [] && LastReport(cs, uri, 0, j)
    ensures LastSaid(cs[0].items, uri, j) && forall k: nat, l: nat :: !Reports(cs[1..], uri, k, l)
  {
    hide Says;
    forall l: nat | j < l
      ensures !Says(cs[0].items, uri, l)
    {
      assert !Reports(cs, uri, 0, l);
    }
    forall k: nat, l: nat
      ensures !Reports(cs[1..], uri, k, l)
    {
      assert !Reports(cs, uri, k + 1, l);
    }
  }

  lemma Silent(cs: seq<S.Command>, uri: string)
    requires cs != [] && forall i: nat, j: nat :: !Reports(cs, uri, i, j)
    ensures forall i: nat, j: nat :: !Reports(cs[1..], uri, i, j)
    ensures cs[0].name in {"Replace", "Results", "Add"} ==> forall j: nat :: !Says(cs[0].items, uri, j)
  {
    hide Says;
    forall i: nat, j: nat
      ensures !Reports(cs[1..], uri, i, j)
    {
      assert !Reports(cs, uri, i + 1, j);
    }
    forall j: nat | cs[0].name in {"Replace", "Results", "Add"}
      ensures !Says(cs[0].items, uri, j)
    {
      assert !Reports(cs, uri, 0, j);
    }
  }

  // ---- a message ----

  /** What a message makes of the device's record. */
  ghost predicate RecordedFrom(s: Settings, m: S.Message, imsi: string, before: Option<Device>, after: Device) {
    var (was, values) := if before.Some? then (before.value.imsi, before.value.values) else ("", map[]);
    && after.imsi == (if imsi != "" then imsi else was)
    && forall uri :: Recorded(s.tree, m.commands, values, after.values, uri)
  }

  /**
   For an address the device owns, the last value that a Replace, Results or Add of the message
   reports is recorded; every other address keeps what was recorded before.
   */
  lemma LastReportIsRecorded(s: Settings, m: S.Message, imsi: string, device: Option<Device>)
    ensures RecordedFrom(s, m, imsi, device, Absorbed(s, m, imsi, device))
  {
    hide Recorded;
    var values := if device.Some? then device.value.values else map[];
    forall uri
      ensures Recorded(s.tree, m.commands, values, AbsorbCommands(s.tree, m.commands, values), uri)
    {
      CommandsRecord(s.tree, m.commands, values, uri);
    }
  }

  /** Whatever a device reports, only nodes it owns are recorded: what the server owns stays as it was. */
  lemma OnlyDeviceNodesAreRecorded(s: Settings, m: S.Message, imsi: string, device: Device, uri: string)
    requires !DeviceOwns(s.tree, uri)
    ensures SameAt(Absorbed(s, m, imsi, Some(device)).values, device.values, uri)
  {
    LastReportIsRecorded(s, m, imsi, Some(device));
    hide AbsorbCommands; hide DeviceOwns; hide LastReport; hide Reports;
    assert Recorded(s.tree, m.commands, device.values, Absorbed(s, m, imsi, Some(device)).values, uri);
  }
}
