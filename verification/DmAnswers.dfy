/**
 What is in the answers: each command of a request is acknowledged once, and the configuration
 package creates every interior node before anything below it.
 src/acs/protocol/omadm/session.py:365-405, :456-475, :707-719.
 */
module DmAnswers {
  import opened Wrappers
  import opened Package
  import opened Messages
  import opened DmModel
  import opened DmGuards
  import opened DmSafety
  import B = SyncMlBuilder
  import S = SyncMl
  import T = MoTree

  // ---- acknowledgements ----

  /** How many of the first i commands are answered; Status itself is not. */
  function Answered(cs: seq<S.Command>, i: nat): (n: nat)
    requires i <= |cs|
    ensures n <= i
  {
    if i == 0 then 0 else Answered(cs, i - 1) + (if cs[i - 1].name == "Status" then 0 else 1)
  }

  lemma {:induction false} AnsweredShift(cs: seq<S.Command>, i: nat)
    requires 0 < i <= |cs|
    ensures Answered(cs, i) == (if cs[0].name == "Status" then 0 else 1) + Answered(cs[1..], i - 1)
  {
    if i == 1 {
      assert Answered(cs, 1) == Answered(cs, 0) + (if cs[0].name == "Status" then 0 else 1);
    } else {
      AnsweredShift(cs, i - 1);
      assert cs[1..][i - 2] == cs[i - 1];
    }
  }

  lemma {:induction false} AnsweredGrows(cs: seq<S.Command>, i: nat, j: nat)
    requires i < j <= |cs|
    ensures Answered(cs, i) <= Answered(cs, j)
    ensures cs[i].name != "Status" ==> Answered(cs, i) < Answered(cs, j)
    decreases j
  {
    if i + 1 < j { AnsweredGrows(cs, i, j - 1); }
  }

  lemma {:induction false} AckAt(t: T.MoTree, msgId: string, cs: seq<S.Command>, i: nat)
    requires i < |cs|
    ensures |AcksFrom(t, msgId, cs)| == Answered(cs, |cs|)
    ensures cs[i].name != "Status" ==>
              Answered(cs, i) < |AcksFrom(t, msgId, cs)|
                  && AcksFrom(t, msgId, cs)[Answered(cs, i)] == AckOf(t, msgId, cs[i])
    decreases |cs|
  {
    AnsweredShift(cs, |cs|);
    AnsweredGrows(cs, i, |cs|);
    if i > 0 {
      AnsweredShift(cs, i);
      AckAt(t, msgId, cs[1..], i - 1);
    } else if |cs| > 1 {
      AckAt(t, msgId, cs[1..], 0);
    } else {
      assert cs[1..] == [];
    }
  }

  /** The acknowledgement of a command: what it refers to, and 200, 404 or 406. */
  ghost predicate Acknowledges(t: T.MoTree, msgId: string, c: S.Command, e: Entry) {
    var uri := if c.items == [] then "" else if c.items[0].target != "" then c.items[0].target else c.items[0].source;
    && e.Status? && e.cmd == c.name && e.msgRef == msgId && ValueOfDecimal(e.cmdRef) == c.cmdId && e.targetRef == uri
    && (c.name in {"Get", "Replace", "Add"} ==>
          e.code == if uri == "" || T.NamesOne(t, uri) then "200" else "404")
    && (c.name in {"Alert", "Results", "Put"} ==> e.code == "200")
    && (c.name !in {"Get", "Replace", "Add", "Alert", "Results", "Put"} ==> e.code == "406")
  }

  lemma AckSays(t: T.MoTree, msgId: string, c: S.Command)
    ensures Acknowledges(t, msgId, c, AckOf(t, msgId, c))
  {
    T.NodeIsNamed(t, c.FirstUri());
    DecimalReads(c.cmdId);
    hide B.Decimal; hide ValueOfDecimal; hide T.Node; hide T.NamesOne; hide T.NamesAt;
  }

  /**
   Each command but Status has one acknowledgement, at its own place, and there are no others: 404 for
   an address that names no node, 406 for a command that is not carried out, else 200.
   */
  lemma EachCommandIsAcknowledged(s: Settings, m: S.Message)
    ensures |Acks(s, m)| == Answered(m.commands, |m.commands|)
    ensures forall i :: 0 <= i < |m.commands| && m.commands[i].name != "Status" ==>
              var k := Answered(m.commands, i);
              k < |Acks(s, m)| && Acknowledges(s.tree, m.header.msgId, m.commands[i], Acks(s, m)[k])
    ensures forall i, j :: 0 <= i < j < |m.commands| && m.commands[i].name != "Status" ==>
              Answered(m.commands, i) < Answered(m.commands, j)
  {
    hide AckOf; hide Acknowledges;
    var cs := m.commands;
    if cs != [] { AckAt(s.tree, m.header.msgId, cs, 0); }
    forall i | 0 <= i < |cs| && cs[i].name != "Status"
      ensures var k := Answered(cs, i);
              k < |Acks(s, m)| && Acknowledges(s.tree, m.header.msgId, cs[i], Acks(s, m)[k])
    {
      AckAt(s.tree, m.header.msgId, cs, i);
      AckSays(s.tree, m.header.msgId, cs[i]);
    }
    forall i, j | 0 <= i < j < |cs| && cs[i].name != "Status"
      ensures Answered(cs, i) < Answered(cs, j)
    {
      AnsweredGrows(cs, i, j);
    }
  }

  function Statuses(es: seq<Entry>): seq<Entry> {
    if es == [] then [] else Statuses(es[..|es| - 1]) + (if es[|es| - 1].Status? then [es[|es| - 1]] else [])
  }

  lemma {:induction false} StatusesFirst(acks: seq<Entry>, items: seq<Entry>)
    requires forall i :: 0 <= i < |acks| ==> acks[i].Status?
    requires forall i :: 0 <= i < |items| ==> items[i].Item?
    ensures Statuses(acks + items) == acks
    decreases |acks| + |items|
  {
    var es := acks + items;
    if items != [] {
      assert es[..|es| - 1] == acks + items[..|items| - 1];
      StatusesFirst(acks, items[..|items| - 1]);
    } else if acks != [] {
      assert es[..|es| - 1] == acks[..|acks| - 1] + items;
      StatusesFirst(acks[..|acks| - 1], items);
    }
  }

  /** Over a whole package the statuses are those of the request that started it, each once and in order. */
  lemma PackageAcknowledges(s: Settings, phase: Phase, rq: Request)
    ensures Statuses(QueueFor(s, phase, rq)) == Acks(s, rq.message)
  {
    var acks := Acks(s, rq.message);
    AcksAreStatuses(s.tree, rq.message.header.msgId, rq.message.commands);
    hide Statuses; hide AcksFrom; hide T.InteriorNodesFor; hide T.DeviceQueryUris;
    match phase
    case Init => StatusesFirst(acks, Gets(T.DeviceQueryUris(s.tree)));
    case DevInfo =>
      var added, replaced := Adds(T.InteriorNodesFor(s.tree, Uris(rq.values))), Replaces(rq.values);
      Regroup(acks, added, replaced);
      StatusesFirst(acks, added + replaced);
    case _ =>
      assert acks + [] == acks;
      StatusesFirst(acks, []);
  }

  lemma Regroup(a: seq<Entry>, b: seq<Entry>, c: seq<Entry>)
    ensures a + b + c == a + (b + c)
  {
  }

  lemma ContinueAnswers(s: Settings, st: Stored, m: S.Message, session: Session, p: Pending, changes: Changes)
    requires p.rows != []
    ensures var out := ContinuePackage(s, st, m, session, p, changes);
            out.Answered? && out.kind.Continued? ==>
              var (remainder, n) := (FromStored(p.rows), out.kind.sent);
              out.reply.Some? && 0 < n <= |remainder| && out.reply.value.entries == Acks(s, m) + remainder[..n]
  {
    hide NextMessage; hide FromStored; hide ToRows; hide Messages.Prefix; hide BaseReply; hide MaxMsgSize;
    hide HeaderChallenge; hide Acks; hide Absorbed; hide Rest; hide FailuresIn;
    if p.messages < MAX_MESSAGES_PER_PACKAGE {
      var failures := if session.phase == Configure || session.phase == Done then FailuresIn(m.commands) else 0;
      var session' := session.(reportedFailures := session.reportedFailures + failures);
      var acks, remainder := Acks(s, m), FromStored(p.rows);
      var (code, challenge) := HeaderChallenge(s, session');
      var next := NextMessage(s, m, code, challenge, acks + remainder, |acks| + 1);
      if next.Some? {
        var n := next.value.1;
        PrefixIs(BaseReply(s, m, code, challenge), acks + remainder, n);
        ContinuedChunk(acks, remainder, n);
        assert (acks + remainder)[..n] == acks + remainder[..n - |acks|];
      }
    }
  }

  /**
   A continuation acknowledges its own request in full and then makes progress: at least one entry
   of what was stored.
   */
  lemma ContinuationMakesProgress(s: Settings, st: Stored, rq: Request)
    requires PendingOk(st.pending) && Remains(st)
    ensures var out := Handle(s, st, rq);
            out.Answered? && out.kind.Continued? ==>
              var (remainder, n) := (FromStored(st.pending.value.rows), out.kind.sent);
              && out.reply.Some? && 0 < n <= |remainder|
              && out.reply.value.entries == Acks(s, rq.message) + remainder[..n]
  {
    if WellAddressed(rq.message) && rq.auth.Accepted? {
      var session := SessionFor(s, st, rq);
      var n := s.number(rq.message.header.msgId);
      var x := session.(authenticated := true,
                        imsi := if rq.auth.username != "" then rq.auth.username else session.imsi,
                        lastMsgId := if n.Some? then n.value else 0);
      ContinueAnswers(s, st, rq.message, x, st.pending.value, NO_CHANGES);
      AcceptedContinues(s, st, rq, x);
    }
    hide HandleAccepted; hide FromStored; hide ContinuePackage; hide Acks; hide NextMessage;
  }

  lemma AcceptedContinues(s: Settings, st: Stored, rq: Request, session: Session)
    requires Remains(st) && session.phase == st.session.value.phase
    ensures var out := HandleAccepted(s, st, rq, session);
            out.Answered? && out.kind.Continued? ==>
              out == ContinuePackage(s, st, rq.message, session, st.pending.value, NO_CHANGES)
  {
    hide NextMessage; hide Acks; hide S.HasAlert; hide TooManyCommands; hide ContinuePackage; hide HeaderChallenge;
    hide HandleInit; hide HandleDevInfo; hide HandleFinish;
  }

  // ---- parents before children ----

  predicate AddsNode(e: Entry, uri: string) {
    e == Item("Add", uri, "", "node", "node")
  }

  /**
   In the configuration package, however it is split, every declared interior ancestor of a pushed
   leaf is added once, after its own declared ancestors and before any Replace; no other node is.
   */
  lemma ParentsBeforeChildren(s: Settings, rq: Request)
    ensures var queue := QueueFor(s, DevInfo, rq);
            && (forall i :: 0 <= i < |queue| && queue[i].Item? && queue[i].command == "Add" ==>
                  T.Needed(s.tree, Uris(rq.values), queue[i].uri) && AddsNode(queue[i], queue[i].uri))
            && (forall u :: T.Needed(s.tree, Uris(rq.values), u) ==>
                 exists i :: 0 <= i < |queue| && AddsNode(queue[i], u))
            && (forall i, j :: 0 <= i < j < |queue| && queue[i].Item? && queue[j].Item? && queue[j].command == "Add" ==>
                  queue[i].command == "Add" && queue[i].uri != queue[j].uri && !T.Ancestor(queue[j].uri, queue[i].uri))
  {
    var us := T.InteriorNodesFor(s.tree, Uris(rq.values));
    var acks, adds := Acks(s, rq.message), Adds(us);
    T.InteriorNodesAreNeeded(s.tree, Uris(rq.values));
    AcksAreStatuses(s.tree, rq.message.header.msgId, rq.message.commands);
    hide T.InteriorNodesFor; hide AcksFrom; hide T.Needed; hide T.Ancestor; hide T.Ordered; hide Uris;
    var queue := QueueFor(s, DevInfo, rq);
    assert queue == acks + adds + Replaces(rq.values);
    forall u | T.Needed(s.tree, Uris(rq.values), u)
      ensures exists i :: 0 <= i < |queue| && AddsNode(queue[i], u)
    {
      var k :| 0 <= k < |us| && us[k] == u;
      assert AddsNode(queue[|acks| + k], u);
    }
    forall i, j | 0 <= i < j < |queue| && queue[i].Item? && queue[j].Item? && queue[j].command == "Add"
      ensures queue[i].command == "Add" && queue[i].uri != queue[j].uri && !T.Ancestor(queue[j].uri, queue[i].uri)
    {
      assert queue[j].uri == us[j - |acks|] && queue[i].uri == us[i - |acks|];
      OrderIsStrict(s.tree, us, i - |acks|, j - |acks|);
    }
  }

  lemma OrderIsStrict(t: T.MoTree, us: seq<string>, i: nat, j: nat)
    requires T.Ordered(us) && i < j < |us|
    ensures us[i] != us[j] && !T.Ancestor(us[j], us[i])
  {
    if T.Ancestor(us[j], us[i]) { T.AncestorIsShallower(us[j], us[i]); }
    assert T.Less(us[i], us[j]);
    T.LessTotal(us[i], us[j]);
  }

  // ---- what each package asks and writes ----

  /** A leaf that the device owns. */
  predicate DeviceLeaf(n: T.MoNode) {
    n.source == T.Device && n.format != "node"
  }

  /** How many of the first i nodes are such leaves. */
  function Asked(nodes: seq<T.MoNode>, i: nat): (n: nat)
    requires i <= |nodes|
    ensures n <= i
  {
    if i == 0 then 0 else Asked(nodes, i - 1) + (if DeviceLeaf(nodes[i - 1]) then 1 else 0)
  }

  lemma {:induction false} UrisSnoc(nodes: seq<T.MoNode>, n: T.MoNode)
    ensures T.DeviceUris(nodes + [n]) == T.DeviceUris(nodes) + (if DeviceLeaf(n) then [n.uri] else [])
    decreases |nodes|
  {
    if nodes == [] {
      assert nodes + [n] == [n] && [n][1..] == [];
    } else {
      assert (nodes + [n])[1..] == nodes[1..] + [n];
      UrisSnoc(nodes[1..], n);
    }
  }

  lemma {:induction false} AskedCounts(nodes: seq<T.MoNode>, i: nat)
    requires i <= |nodes|
    ensures |T.DeviceUris(nodes[..i])| == Asked(nodes, i)
    ensures i > 0 ==> T.DeviceUris(nodes[..i - 1]) <= T.DeviceUris(nodes[..i])
    ensures i > 0 && DeviceLeaf(nodes[i - 1]) ==> T.DeviceUris(nodes[..i])[Asked(nodes, i - 1)] == nodes[i - 1].uri
  {
    if i > 0 {
      AskedCounts(nodes, i - 1);
      assert nodes[..i] == nodes[..i - 1] + [nodes[i - 1]];
      UrisSnoc(nodes[..i - 1], nodes[i - 1]);
      hide T.DeviceUris; hide DeviceLeaf;
    } else {
      assert nodes[..0] == [];
    }
  }

  lemma {:induction false} AskedAt(nodes: seq<T.MoNode>, i: nat, k: nat)
    requires k < i <= |nodes| && DeviceLeaf(nodes[k])
    ensures Asked(nodes, k) < Asked(nodes, i) == |T.DeviceUris(nodes[..i])|
    ensures T.DeviceUris(nodes[..i])[Asked(nodes, k)] == nodes[k].uri
  {
    AskedCounts(nodes, i);
    if k < i - 1 { AskedAt(nodes, i - 1, k); }
    hide T.DeviceUris; hide DeviceLeaf;
  }

  lemma AfterAcks(acks: seq<Entry>, more: seq<Entry>)
    ensures (acks + more)[..|acks|] == acks && |acks + more| == |acks| + |more|
    ensures forall k :: 0 <= k < |more| ==> (acks + more)[|acks| + k] == more[k]
  {
  }

  /** After the acknowledgements, a Get for every device leaf at its own place, in the order of the nodes. */
  ghost predicate AsksForAll(nodes: seq<T.MoNode>, acks: seq<Entry>, queue: seq<Entry>) {
    && |queue| == |acks| + Asked(nodes, |nodes|) && queue[..|acks|] == acks
    && (forall i :: 0 <= i < |nodes| && DeviceLeaf(nodes[i]) ==>
          var k := |acks| + Asked(nodes, i);
          k < |queue| && queue[k] == Item("Get", nodes[i].uri, "", "", ""))
    && (forall i, j :: 0 <= i < j < |nodes| && DeviceLeaf(nodes[i]) ==> Asked(nodes, i) < Asked(nodes, j))
  }

  lemma GetAt(nodes: seq<T.MoNode>, acks: seq<Entry>, i: nat)
    requires i < |nodes| && DeviceLeaf(nodes[i])
    ensures var (queue, k) := (acks + Gets(T.DeviceUris(nodes)), |acks| + Asked(nodes, i));
            k < |queue| && queue[k] == Item("Get", nodes[i].uri, "", "", "")
  {
    AskedAt(nodes, |nodes|, i);
    assert nodes[..|nodes|] == nodes;
    var uris := T.DeviceUris(nodes);
    hide T.DeviceUris; hide DeviceLeaf; hide Asked;
    AfterAcks(acks, Gets(uris));
    assert Gets(uris)[Asked(nodes, i)] == Item("Get", uris[Asked(nodes, i)], "", "", "");
  }

  lemma GetsAskForAll(nodes: seq<T.MoNode>, acks: seq<Entry>)
    ensures AsksForAll(nodes, acks, acks + Gets(T.DeviceUris(nodes)))
  {
    hide T.DeviceUris; hide DeviceLeaf; hide Asked;
    AskedCounts(nodes, |nodes|);
    assert nodes[..|nodes|] == nodes;
    AfterAcks(acks, Gets(T.DeviceUris(nodes)));
    hide Gets;
    forall i | 0 <= i < |nodes| && DeviceLeaf(nodes[i])
      ensures var (queue, k) := (acks + Gets(T.DeviceUris(nodes)), |acks| + Asked(nodes, i));
              k < |queue| && queue[k] == Item("Get", nodes[i].uri, "", "", "")
    {
      GetAt(nodes, acks, i);
    }
    forall i, j | 0 <= i < j < |nodes| && DeviceLeaf(nodes[i])
      ensures Asked(nodes, i) < Asked(nodes, j)
    {
      AskedAt(nodes, j, i);
    }
  }

  /** The inventory asks for every leaf the device owns, once each and in the order of the tree, and no more. */
  lemma InventoryAsks(s: Settings, rq: Request)
    ensures AsksForAll(T.AllNodes(s.tree), Acks(s, rq.message), QueueFor(s, Init, rq))
  {
    GetsAskForAll(T.AllNodes(s.tree), Acks(s, rq.message));
    hide Acks; hide AsksForAll; hide T.AllNodes; hide T.DeviceUris;
  }

  lemma InThree(a: seq<Entry>, b: seq<Entry>, c: seq<Entry>)
    ensures a <= a + b + c && |a + b + c| == |a| + |b| + |c|
    ensures forall i :: 0 <= i < |c| ==> (a + b + c)[|a| + |b| + i] == c[i]
    ensures forall i :: |a| <= i < |a| + |b| ==> (a + b + c)[i] == b[i - |a|]
  {
  }

  /** The configuration ends with a Replace of every value as it stands, and the last package only acknowledges. */
  lemma ValuesAreWritten(s: Settings, rq: Request)
    ensures var (queue, n) := (QueueFor(s, DevInfo, rq), |rq.values|);
            && n <= |queue| && Acks(s, rq.message) <= queue
            && (forall i :: 0 <= i < n ==>
                  var v := rq.values[i];
                  queue[|queue| - n + i] == Item("Replace", v.uri, v.data, v.format, v.type_))
            && (forall i :: |Acks(s, rq.message)| <= i < |queue| - n ==> queue[i].Item? && queue[i].command == "Add")
    ensures QueueFor(s, Configure, rq) == Acks(s, rq.message) == QueueFor(s, Done, rq)
  {
    var acks, adds := Acks(s, rq.message), Adds(T.InteriorNodesFor(s.tree, Uris(rq.values)));
    assert QueueFor(s, DevInfo, rq) == acks + adds + Replaces(rq.values);
    InThree(acks, adds, Replaces(rq.values));
    assert QueueFor(s, Configure, rq) == acks == QueueFor(s, Done, rq);
    hide QueueFor; hide Acks; hide T.InteriorNodesFor;
  }
}
