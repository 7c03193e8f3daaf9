/**
 From one end to the other: the server's queue, its messages, WBXML, and what the receiver reads.
 src/acs/protocol/omadm/session.py:153-221, with wbxml.py and syncml.py.
 */
module Transport {
  import opened Wrappers
  import opened Xml
  import opened Package
  import opened Messages
  import opened MessageSize
  import B = SyncMlBuilder
  import E = WbxmlEncoder
  import D = WbxmlDecoder
  import F = WbxmlFormat
  import P = WbxmlParse
  import R = WbxmlRoundTrip
  import S = SyncMl
  import M = DmModel
  import Fill
  import G = DmGuards
  import V = DmSafety
  import T = MoTree
  import W = SyncMlReads
  import X = WbxmlTags

  /** What the other side has of a tree that is sent over WBXML, if it is. */
  function Arrived(tree: Xml, version: byte, choice: E.PublicChoice, useStringTable: bool,
                   opaqueText: bool): Option<Xml> {
    match E.Encode(tree, version, choice, useStringTable, opaqueText)
    case None => None
    case Some(payload) => X.Received(payload)
  }

  /**
   A session over WBXML sees the message a session over XML does: what the encoder normalises away,
   indentation and the default namespace, the parser does not look at.
   */
  lemma BothTransportsCarryTheMessage(tree: Xml, version: byte, choice: E.PublicChoice, useStringTable: bool,
                                      opaqueText: bool, integer: S.Integer)
    requires XmlText(tree)
    ensures var b := E.Encode(tree, version, choice, useStringTable, opaqueText);
            var arrived := Arrived(tree, version, choice, useStringTable, opaqueText);
            && (arrived.Some? <==> b.Some? && D.Decode(b.value).Ok?)
            && (arrived.Some? ==> S.Parse(arrived.value, integer) == S.Parse(tree, integer))
  {
    if E.Encode(tree, version, choice, useStringTable, opaqueText).Some? {
      R.RoundTrip(tree, version, choice, useStringTable, opaqueText);
      S.SameMessage(tree, integer, F.PublicNamespace(E.NumericId(tree, choice)));
    }
    hide E.Encode; hide D.Decode; hide P.ParseDocument; hide S.Parse; hide Stripped; hide Qualified;
  }

  // ---- the largest message ----

  /** The message with the first n entries of a queue in place of its own. */
  function Holding(r: Reply, queue: seq<Entry>, n: nat): Reply
    requires n <= |queue|
  {
    r.(entries := queue[..n], final := n == |queue|)
  }

  /**
   Over WBXML the server sends as many entries as the limits allow: one more would not fit, and it
   gives up only where even the required ones do not.
   */
  lemma NextMessageIsLargest(s: M.Settings, m: S.Message, code: string, challenge: Option<B.Challenge>,
                             queue: seq<Entry>, required: nat, version: byte)
    requires s.size == (r => WbxmlSize(r, version))
    requires AllKnown(queue) && required <= |queue|
    ensures var next := M.NextMessage(s, m, code, challenge, queue, required);
            && (next.None? <==>
                  !G.Within(s, m, WbxmlSize(Holding(M.BaseReply(s, m, code, challenge), queue, required), version)))
            && (next.Some? ==>
                  && next.value.1 <= |queue| && next.value.0 == Holding(next.value.0, queue, next.value.1)
                  && G.Within(s, m, WbxmlSize(next.value.0, version))
                  && forall n: nat :: next.value.1 < n <= |queue| ==>
                       !G.Within(s, m, WbxmlSize(Holding(next.value.0, queue, n), version)))
  {
    var base := M.BaseReply(s, m, code, challenge);
    G.WithinIs(s, m);
    hide WbxmlSize; hide M.BaseReply; hide M.MaxMsgSize; hide G.Within;
    MessagesNeverShrink(base, queue, version);
    var build := (n: nat) => Prefix(base, queue, n);
    SameShape(base, queue, s.size, version);
    var limit := M.MaxMsgSize(s, m);
    Fill.SentIsLargest(build, s.size, limit, |queue|, required);
    hide Fill.Sent;
    var next := M.NextMessage(s, m, code, challenge, queue, required);
    if next.Some? {
      forall n: nat | next.value.1 < n <= |queue|
        ensures !G.Within(s, m, WbxmlSize(Holding(next.value.0, queue, n), version))
      {
        assert !Fill.Fits(build, s.size, limit, n);
        assert Holding(next.value.0, queue, n) == Prefix(base, queue, n);
      }
    }
  }

  lemma SameShape(base: Reply, queue: seq<Entry>, size: Reply -> nat, version: byte)
    requires size == (r => WbxmlSize(r, version))
    requires Fill.NonShrinking(n => Prefix(base, queue, n), r => WbxmlSize(r, version), |queue|)
    ensures Fill.NonShrinking(n => Prefix(base, queue, n), size, |queue|)
  {
    hide WbxmlSize; hide Prefix;
  }

  // ---- what the receiver reads ----

  lemma RegularKeepsText(e: Xml, ns: string)
    requires Regular(e)
    ensures S.Carried(e, ns).text == e.text
  {
  }

  lemma {:induction false} FindRegular(cs: seq<Child>, name: string)
    requires RegularAll(cs)
    ensures var e := S.Find(cs, name); e.Some? ==> Regular(e.value)
  {
    if cs != [] { FindRegular(cs[1..], name); }
    hide KnownTag;
  }

  /** A field of a command, found in the tree as it was received. */
  lemma FieldCarried(cs: seq<Child>, name: string, ns: string)
    requires RegularAll(cs)
    ensures Raw(S.Find(S.CarriedAll(cs, ns), name)) == Raw(S.Find(cs, name))
  {
    S.FindCarried(cs, name, ns);
    FindRegular(cs, name);
    var e := S.Find(cs, name);
    if e.Some? { RegularKeepsText(e.value, ns); }
    hide S.Carried; hide S.CarriedAll; hide Regular;
  }

  lemma InnerCarried(cs: seq<Child>, outer: string, inner: string, ns: string)
    requires RegularAll(cs)
    ensures Raw(Inner(S.Find(S.CarriedAll(cs, ns), outer), inner)) == Raw(Inner(S.Find(cs, outer), inner))
  {
    S.FindCarried(cs, outer, ns);
    FindRegular(cs, outer);
    var e := S.Find(cs, outer);
    if e.Some? {
      FieldCarried(e.value.children, inner, ns);
      assert S.Carried(e.value, ns).children == S.CarriedAll(e.value.children, ns);
    }
    hide S.Carried; hide S.CarriedAll; hide S.Find;
  }

  lemma ItemCarried(command: string, item: Xml, ns: string)
    requires Regular(item)
    ensures ReadItem(command, S.Carried(item, ns)) == ReadItem(command, item)
  {
    assert S.Carried(item, ns).children == S.CarriedAll(item.children, ns);
    InnerCarried(item.children, "Target", "LocURI", ns);
    FieldCarried(item.children, "Data", ns);
    InnerCarried(item.children, "Meta", "Format", ns);
    InnerCarried(item.children, "Meta", "Type", ns);
    hide S.Carried; hide S.CarriedAll; hide S.Find; hide Regular; hide RegularAll;
  }

  lemma {:induction false} RegularAt(cs: seq<Child>, i: nat)
    requires RegularAll(cs) && i < |cs|
    ensures Regular(cs[i].element)
  {
    hide KnownTag;
    if i > 0 { RegularAt(cs[1..], i - 1); }
  }

  lemma {:induction false} CarriedAt(cs: seq<Child>, ns: string, i: nat)
    requires i < |cs|
    ensures |S.CarriedAll(cs, ns)| == |cs| && S.CarriedAll(cs, ns)[i].element == S.Carried(cs[i].element, ns)
  {
    S.CarriedFirst(cs, ns);
    if i > 0 { CarriedAt(cs[1..], ns, i - 1); }
  }

  lemma {:induction false} ItemsCarried(command: string, cs: seq<Child>, ns: string, n: nat)
    requires RegularAll(cs) && n <= |cs|
    ensures |S.CarriedAll(cs, ns)| == |cs|
    ensures ReadItems(command, S.CarriedAll(cs, ns)[..n]) == ReadItems(command, cs[..n])
  {
    hide S.Carried; hide ReadItem; hide Regular; hide RegularAll;
    var ds := S.CarriedAll(cs, ns);
    if n > 0 {
      var last := n - 1;
      ItemsCarried(command, cs, ns, last);
      CarriedAt(cs, ns, last);
      RegularAt(cs, last);
      ItemCarried(command, cs[last].element, ns);
      hide S.CarriedAll;
      assert ds[..n][..last] == ds[..last] && cs[..n][..last] == cs[..last];
    }
  }

  /** A command reads the same after it has been carried. */
  lemma CommandCarried(x: Xml, ns: string)
    requires Regular(x)
    ensures Read(S.Carried(x, ns)) == Read(x)
  {
    assert S.Carried(x, ns).children == S.CarriedAll(x.children, ns);
    FieldCarried(x.children, "Cmd", ns);
    FieldCarried(x.children, "MsgRef", ns);
    FieldCarried(x.children, "CmdRef", ns);
    FieldCarried(x.children, "Data", ns);
    FieldCarried(x.children, "TargetRef", ns);
    ItemsCarried(x.name, x.children, ns, |x.children|);
    assert S.CarriedAll(x.children, ns)[..|x.children|] == S.CarriedAll(x.children, ns)
        && x.children[..|x.children|] == x.children;
    hide S.Carried; hide S.CarriedAll; hide S.Find; hide Regular; hide ReadItems;
  }

  /** The elements of a message's body. */
  function BodyOf(root: Xml): seq<Xml> {
    var body := S.Find(root.children, "SyncBody");
    if body.None? then []
    else seq(|body.value.children|, i requires 0 <= i < |body.value.children| => body.value.children[i].element)
  }

  /** What a receiver has of a package after a message: whether it was the last, and its entries. */
  function IsFinal(body: seq<Xml>): bool {
    body != [] && body[|body| - 1].name == "Final"
  }

  function Received(body: seq<Xml>): seq<Entry> {
    var n := |body| - (if IsFinal(body) then 1 else 0);
    if n < 1 then [] else ReadAll(body[1..n])
  }

  lemma {:induction false} ReadAllAlike(xs: seq<Xml>, ys: seq<Xml>)
    requires |xs| == |ys| && forall i :: 0 <= i < |xs| ==> Read(xs[i]) == Read(ys[i])
    ensures ReadAll(xs) == ReadAll(ys)
  {
    hide Read;
    if xs != [] { ReadAllAlike(xs[..|xs| - 1], ys[..|ys| - 1]); }
  }

  lemma BodyOfTree(r: Reply, ns: string)
    ensures var body := BodyOf(S.Carried(Tree(r), ns));
            var xs := Commands(r) + B.Optional(r.final, Leaf("Final", ""));
            |body| == |xs| && forall i :: 0 <= i < |xs| ==> body[i] == S.Carried(xs[i], ns)
  {
    hide Commands;
    var tree := Tree(r);
    var xs := Commands(r) + B.Optional(r.final, Leaf("Final", ""));
    assert S.Carried(tree, ns).children == S.CarriedAll(tree.children, ns);
    S.FindCarried(tree.children, "SyncBody", ns);
    var b := B.BodyElement(Commands(r), r.final);
    assert S.Find(tree.children, "SyncBody") == Some(b);
    assert S.Carried(b, ns).children == S.CarriedAll(b.children, ns);
    forall i | 0 <= i < |xs|
      ensures |S.CarriedAll(b.children, ns)| == |xs| && S.CarriedAll(b.children, ns)[i].element == S.Carried(xs[i], ns)
    {
      CarriedAt(b.children, ns, i);
    }
  }

  lemma NoCommandIsFinal(r: Reply, i: nat)
    requires AllKnown(r.entries) && i < |Commands(r)|
    ensures Commands(r)[i].name != "Final"
  {
    if i > 0 {
      GroupsAreProper(r.entries);
      var g := Groups(r.entries)[i - 1];
      assert Commands(r)[i] == CommandOf(g, 2 + (i - 1));
    }
  }

  /**
   Over WBXML the client reads exactly the entries the server put in the message, and Final exactly
   when the server set it.
   */
  lemma MessageIsReceived(r: Reply, version: byte)
    requires AllKnown(r.entries) && XmlText(Tree(r))
    requires var b := E.Encode(Tree(r), version, E.Derived, false, false); b.Some? && D.Decode(b.value).Ok?
    ensures var b := E.Encode(Tree(r), version, E.Derived, false, false);
            var root := P.ParseDocument(D.Decode(b.value).value);
            root.Some? && IsFinal(BodyOf(root.value)) == r.final && Received(BodyOf(root.value)) == WireAll(r.entries)
  {
    R.RoundTrip(Tree(r), version, E.Derived, false, false);
    var ns := F.PublicNamespace(E.NumericId(Tree(r), E.Derived));
    CarriedIsReceived(r, ns);
    hide Tree; hide E.Encode; hide D.Decode; hide P.ParseDocument; hide Received; hide IsFinal; hide BodyOf;
    hide Stripped; hide Qualified;
  }

  lemma NameCarried(x: Xml, ns: string)
    ensures S.Carried(x, ns).name == x.name
  {
  }

  lemma CarriedIsReceived(r: Reply, ns: string)
    requires AllKnown(r.entries)
    ensures var body := BodyOf(S.Carried(Tree(r), ns));
            IsFinal(body) == r.final && Received(body) == WireAll(r.entries)
  {
    hide Tree; hide BodyOf; hide S.Carried; hide CommandsOf; hide Groups; hide HeaderStatus; hide Read;
    hide Known; hide Wire; hide Regular;
    BodyOfTree(r, ns);
    RegularCommands(r);
    var body := BodyOf(S.Carried(Tree(r), ns));
    var cs := Commands(r);
    var n := |cs|;
    NoCommandIsFinal(r, n - 1);
    NameCarried(cs[n - 1], ns);
    NameCarried(Leaf("Final", ""), ns);
    var xs := cs + B.Optional(r.final, Leaf("Final", ""));
    assert xs[n - 1] == cs[n - 1];
    CommandsReadBack(r.entries, 2);
    forall i | 0 <= i < |cs| - 1
      ensures Read(body[1..n][i]) == Read(cs[1..][i])
    {
      assert xs[i + 1] == cs[i + 1];
      CommandCarried(cs[i + 1], ns);
    }
    ReadAllAlike(body[1..n], cs[1..]);
    assert cs[1..] == CommandsOf(Groups(r.entries), 2);
  }

  // ---- whole runs over WBXML ----

  /** Every package is made of commands the builder knows. */
  lemma PackagesAreKnown(s: M.Settings, phase: M.Phase, rq: M.Request)
    ensures AllKnown(M.QueueFor(s, phase, rq)) && AllKnown(M.Acks(s, rq.message))
  {
    V.AcksAreStatuses(s.tree, rq.message.header.msgId, rq.message.commands);
    hide M.AcksFrom; hide T.InteriorNodesFor; hide T.DeviceQueryUris; hide M.Uris;
  }

  lemma SuffixIsKnown(queue: seq<Entry>, received: seq<Entry>, rest: seq<Entry>)
    requires AllKnown(queue) && queue == received + rest
    ensures AllKnown(rest)
  {
    forall i | 0 <= i < |rest|
      ensures Known(rest[i])
    {
      assert rest[i] == queue[|received| + i];
    }
    hide Known;
  }

  lemma KnownConcat(a: seq<Entry>, b: seq<Entry>)
    requires AllKnown(a) && AllKnown(b)
    ensures AllKnown(a + b)
  {
    hide Known;
  }

  lemma PrefixIsKnown(base: Reply, queue: seq<Entry>, n: nat)
    requires AllKnown(queue)
    ensures AllKnown(Prefix(base, queue, n).entries)
  {
    hide Known;
  }

  /** So is what is stored of one, in every orderly run. */
  lemma RemaindersAreKnown(s: M.Settings, attempts: seq<M.Attempt>)
    requires V.Orderly(s, V.FRESH, attempts)
    ensures var st := V.Run(s, V.FRESH, attempts).st;
            G.PendingOk(st.pending) && (G.Remains(st) ==> AllKnown(FromStored(st.pending.value.rows)))
  {
    hide V.Run; hide V.Orderly; hide V.Sourced; hide FromStored; hide V.CompletedOk; hide V.FlightOk;
    hide AllKnown; hide V.PhaseOk;
    FreshIsInv();
    V.RunKeeps(s, V.FRESH, attempts);
    V.QueuesAnswerRequests(s, attempts);
    var w := V.Run(s, V.FRESH, attempts);
    if G.Remains(w.st) {
      var t := w.current.value;
      SourcedIsKnown(s, t, attempts);
      SuffixIsKnown(t.queue, t.received, FromStored(w.st.pending.value.rows));
    }
  }

  lemma FreshIsInv()
    ensures V.Inv(V.FRESH)
  {
  }

  lemma SourcedIsKnown(s: M.Settings, t: V.Transfer, sent: seq<M.Attempt>)
    requires V.Sourced(s, t, sent)
    ensures AllKnown(t.queue)
  {
    hide M.QueueFor; hide AllKnown;
    var k :| 0 <= k < |sent| && t.queue == M.QueueFor(s, V.Before(t.phase), sent[k].request);
    PackagesAreKnown(s, V.Before(t.phase), sent[k].request);
  }

  /** The message fits, holds the first `sent` entries of the queue, and would not fit with one more or any number. */
  ghost predicate Full(s: M.Settings, m: S.Message, r: Reply, queue: seq<Entry>, sent: nat, version: byte) {
    && sent <= |queue| && r == Holding(r, queue, sent) && G.Within(s, m, WbxmlSize(r, version))
    && forall n: nat :: sent < n <= |queue| ==> !G.Within(s, m, WbxmlSize(Holding(r, queue, n), version))
  }

  /** What an orderly run leaves, once the records that expired by a request's clocks are gone. */
  function StoreFor(s: M.Settings, attempts: seq<M.Attempt>, rq: M.Request): M.Stored {
    M.Swept(s, V.Run(s, V.FRESH, attempts).st, rq)
  }

  lemma StoreIsKnown(s: M.Settings, attempts: seq<M.Attempt>, rq: M.Request)
    requires V.Orderly(s, V.FRESH, attempts)
    ensures var st := StoreFor(s, attempts, rq);
            G.PendingOk(st.pending) && (G.Remains(st) ==> AllKnown(FromStored(st.pending.value.rows)))
  {
    RemaindersAreKnown(s, attempts);
    hide V.Run; hide V.Orderly; hide AllKnown; hide FromStored; hide M.TooManyCommands;
  }

  /**
   In every run over WBXML each message of a package is as full as it can be: one more entry of the
   queue, or of the remainder, would have made it larger than the server sends or the client accepts.
   */
  lemma EveryMessageIsFull(s: M.Settings, attempts: seq<M.Attempt>, rq: M.Request, version: byte)
    requires s.size == (r => WbxmlSize(r, version)) && V.Orderly(s, V.FRESH, attempts)
    ensures var st := StoreFor(s, attempts, rq);
            var out := M.Handle(s, st, rq);
            && (out.Answered? && out.kind.Started? ==>
                  && out.reply.Some?
                  && Full(s, rq.message, out.reply.value, M.QueueFor(s, G.PhaseOf(st), rq), out.kind.sent, version))
            && (out.Answered? && out.kind.Continued? ==>
                  && G.Remains(st) && out.reply.Some?
                  && Full(s, rq.message, out.reply.value, G.RestOf(s, st, rq.message), out.kind.acks + out.kind.sent,
                          version))
  {
    hide M.Handle; hide StoreFor; hide WbxmlSize; hide AllKnown; hide M.QueueFor; hide V.Orderly;
    hide M.NextMessage; hide G.Within; hide Holding;
    hide G.BaseFor; hide Prefix; hide G.Remains; hide M.Acks; hide G.Leaves; hide G.Opens;
    hide M.ReadsRemainder; hide FromStored;
    hide G.Fits;
    var st, m := StoreFor(s, attempts, rq), rq.message;
    StoreIsKnown(s, attempts, rq);
    PackagesAreKnown(s, G.PhaseOf(st), rq);
    G.StartsWhen(s, st, rq);
    G.ContinuesWith(s, st, rq);
    var out, base := M.Handle(s, st, rq), G.BaseFor(s, st, m);
    if out.Answered? && out.kind.Started? {
      var queue := M.QueueFor(s, G.PhaseOf(st), rq);
      NextMessageIsLargest(s, m, base.code, base.challenge, queue, if queue == [] then 0 else 1, version);
    }
    if out.Answered? && out.kind.Continued? {
      G.RemainsNeeds(st);
      KnownConcat(M.Acks(s, m), FromStored(st.pending.value.rows));
      NextMessageIsLargest(s, m, base.code, base.challenge, G.RestOf(s, st, m), |M.Acks(s, m)| + 1, version);
    }
  }

  lemma FoundIsKnown(s: M.Settings, m: S.Message, code: string, challenge: Option<B.Challenge>, queue: seq<Entry>,
                     required: nat)
    requires AllKnown(queue)
    ensures var next := M.NextMessage(s, m, code, challenge, queue, required); next.Some? ==>
        AllKnown(next.value.0.entries)
  {
    hide M.BaseReply; hide M.MaxMsgSize; hide AllKnown; hide Prefix; hide Fill.Sent;
    var next := M.NextMessage(s, m, code, challenge, queue, required);
    if next.Some? { PrefixIsKnown(M.BaseReply(s, m, code, challenge), queue, next.value.1); }
  }

  /** An answer without a package: a challenge, or the acknowledgements of a client that leaves. */
  lemma OthersAreKnown(s: M.Settings, st: M.Stored, rq: M.Request)
    requires G.PendingOk(st.pending)
    ensures var out := M.Handle(s, st, rq);
            out.Answered? && !out.kind.Started? && !out.kind.Continued? && out.reply.Some? ==>
                AllKnown(out.reply.value.entries)
  {
    hide M.NextMessage; hide AllKnown; hide M.Acks; hide M.HandleInit; hide M.HandleDevInfo; hide M.HandleFinish;
    hide M.ContinuePackage; hide M.HandleAccepted; hide G.Leaves; hide M.HeaderChallenge;
    hide M.TooManyCommands; hide G.SessionNow;
    PackagesAreKnown(s, M.Done, rq);
    G.EachKind(s, st, rq);
    NoneKnown();
    if M.ReadsRemainder(s, rq) {
      G.BranchOf(s, st, rq);
      var x := G.SessionNow(s, st, rq);
      var (code, challenge) := M.HeaderChallenge(s, x);
      FoundIsKnown(s, rq.message, code, challenge, M.Acks(s, rq.message), |M.Acks(s, rq.message)|);
      NoReplyWithoutAPackage(s, st, rq, x, M.NO_CHANGES.(deletePending := G.Stale(st)));
      AbandonedIsBare(s, st, rq);
    } else if rq.auth.Rejected? {
      FoundIsKnown(s, rq.message, rq.auth.code, Some(B.Challenge(rq.auth.authType, rq.auth.nonce)), [], 0);
    } else if M.WellAddressed(rq.message) {
      G.AcceptedIsHandled(s, st, rq);
      TooManyIsBare(s, st, rq, G.SessionNow(s, st, rq));
    }
  }

  lemma NoneKnown()
    ensures AllKnown([])
  {
  }

  lemma AbandonedIsBare(s: M.Settings, st: M.Stored, rq: M.Request)
    requires G.PendingOk(st.pending)
    ensures var out := M.Handle(s, st, rq); out.Answered? && out.kind.Abandoned? ==> out.reply.None?
  {
    hide M.Handle; hide V.StartOk; hide V.ContinueOk;
    V.HandleHasShape(s, st, rq);
  }

  lemma TooManyIsBare(s: M.Settings, st: M.Stored, rq: M.Request, x: M.Session)
    requires M.TooManyCommands(s, rq.message)
    ensures var out := M.HandleAccepted(s, st, rq, x); out.Answered? && out.reply.None?
  {
    hide M.Acks;
  }

  lemma NoReplyWithoutAPackage(s: M.Settings, st: M.Stored, rq: M.Request, x: M.Session, changes: M.Changes)
    ensures var out := M.HandleInit(s, st, rq.message, x, changes); out.Answered? && !out.kind.Started? ==>
        out.reply.None?
    ensures var out := M.HandleDevInfo(s, st, rq, x, changes); out.Answered? ==> out.kind.Started?
    ensures var out := M.HandleFinish(s, rq.message, x, changes); out.Answered? ==> out.kind.Started?
  {
    hide M.NextMessage; hide M.Acks; hide M.Absorbed; hide M.HeaderChallenge; hide M.FailuresIn; hide ToStored;
    hide M.Rest;
    hide M.Gets; hide M.Adds; hide M.Replaces; hide M.Uris; hide T.InteriorNodesFor; hide T.DeviceQueryUris;
    hide S.HasAlert;
  }

  lemma RepliesAreKnown(s: M.Settings, st: M.Stored, rq: M.Request)
    requires G.PendingOk(st.pending) && (G.Remains(st) ==> AllKnown(FromStored(st.pending.value.rows)))
    ensures var out := M.Handle(s, st, rq); out.Answered? && out.reply.Some? ==> AllKnown(out.reply.value.entries)
  {
    hide M.Handle; hide AllKnown; hide M.QueueFor; hide M.NextMessage; hide G.BaseFor; hide G.Remains;
    hide M.Acks; hide G.Leaves;
    hide G.Opens; hide M.ReadsRemainder; hide FromStored; hide G.Fits;
    var m := rq.message;
    PackagesAreKnown(s, G.PhaseOf(st), rq);
    G.StartsWhen(s, st, rq);
    G.ContinuesWith(s, st, rq);
    OthersAreKnown(s, st, rq);
    var out, base := M.Handle(s, st, rq), G.BaseFor(s, st, m);
    var queue := M.QueueFor(s, G.PhaseOf(st), rq);
    FoundIsKnown(s, m, base.code, base.challenge, queue, if queue == [] then 0 else 1);
    if out.Answered? && out.kind.Continued? {
      G.RemainsNeeds(st);
      KnownConcat(M.Acks(s, m), FromStored(st.pending.value.rows));
      FoundIsKnown(s, m, base.code, base.challenge, G.RestOf(s, st, m), |M.Acks(s, m)| + 1);
    }
  }

  /** The reply is encoded, and the client's decoder and parser make this document of it. */
  predicate Arrives(reply: Reply, version: byte, root: Xml) {
    XmlText(Tree(reply)) &&
    match E.Encode(Tree(reply), version, E.Derived, false, false)
    case None => false
    case Some(sent) => D.Decode(sent).Ok? && P.ParseDocument(D.Decode(sent).value) == Some(root)
  }

  /** A request after an orderly run is answered with this message. */
  ghost predicate AnsweredWith(s: M.Settings, attempts: seq<M.Attempt>, rq: M.Request, reply: Reply) {
    var out := M.Handle(s, StoreFor(s, attempts, rq), rq);
    V.Orderly(s, V.FRESH, attempts) && out.Answered? && out.reply == Some(reply)
  }

  lemma ArrivesMeans(reply: Reply, version: byte, root: Xml)
    requires Arrives(reply, version, root) && AllKnown(reply.entries)
    ensures IsFinal(BodyOf(root)) == reply.final && Received(BodyOf(root)) == WireAll(reply.entries)
  {
    hide Tree; hide E.Encode; hide D.Decode; hide P.ParseDocument; hide Received; hide IsFinal; hide BodyOf;
    hide AllKnown;
    MessageIsReceived(reply, version);
  }

  lemma AnswersAreKnown(s: M.Settings, attempts: seq<M.Attempt>, rq: M.Request, reply: Reply)
    requires AnsweredWith(s, attempts, rq, reply)
    ensures AllKnown(reply.entries)
  {
    hide V.Orderly; hide M.Handle; hide AllKnown; hide StoreFor; hide G.PendingOk; hide G.Remains; hide FromStored;
    StoreIsKnown(s, attempts, rq);
    RepliesAreKnown(s, StoreFor(s, attempts, rq), rq);
  }

  /**
   In every run over WBXML the client reads from each message that reaches it exactly the entries the
   server sent, and Final exactly when it was set.
   */
  lemma EveryMessageIsReceived(s: M.Settings, attempts: seq<M.Attempt>, rq: M.Request, version: byte, reply: Reply,
                               root: Xml)
    requires AnsweredWith(s, attempts, rq, reply) && Arrives(reply, version, root)
    ensures IsFinal(BodyOf(root)) == reply.final && Received(BodyOf(root)) == WireAll(reply.entries)
  {
    hide *;
    AnswersAreKnown(s, attempts, rq, reply);
    ArrivesMeans(reply, version, root);
  }

  // ---- what the server reads ----

  /** What a client writes is what the server reads, over either transport. */
  lemma ClientMessageArrives(m: S.Message, integer: S.Integer, write: W.Writer, version: byte, choice: E.PublicChoice,
                             useStringTable: bool, opaqueText: bool)
    requires W.CleanMessage(m) && W.Agree(integer, write) && integer(m.header.msgId).Some?
    ensures var tree := W.MessageTree(m, write);
            var arrived := Arrived(tree, version, choice, useStringTable, opaqueText);
            && S.Parse(tree, integer) == Some(m)
            && (XmlText(tree) && arrived.Some? ==> S.Parse(arrived.value, integer) == Some(m))
  {
    hide Arrived; hide E.Encode; hide S.Parse; hide W.MessageTree; hide W.CleanMessage;
    W.MessageIsRead(m, integer, write);
    var tree := W.MessageTree(m, write);
    if XmlText(tree) { BothTransportsCarryTheMessage(tree, version, choice, useStringTable, opaqueText, integer); }
  }
}
