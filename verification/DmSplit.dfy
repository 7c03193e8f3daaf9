/**
 A split package is the unsplit one: src/acs/protocol/omadm/session.py:607-667, as the client loop
 of tools/dm_client_sim.py:219-244 collects it.

 The client sends a request and asks for more until a message carries Final. Whatever MaxMsgSize
 each request carries, if none is refused the loop ends, and it has received exactly what one
 message without a limit would have carried.
 */
module DmSplit {
  import opened Wrappers
  import opened Package
  import opened Messages
  import opened DmModel
  import opened DmGuards
  import opened DmSafety
  import opened DmRetry
  import S = SyncMl
  import T = MoTree

  /** What an exchange leaves: the store, what the client collected, and whether it saw Final or an error. */
  datatype Exchange = Exchange(st: Stored, received: seq<Entry>, messages: nat, final: bool, refused: bool)

  predicate IsMessage(out: Outcome) {
    out.Answered? && out.status == 200 && out.reply.Some?
  }

  /** Ask for the rest of the package until it is complete, with the requests in `more`. */
  function Follow(s: Settings, st: Stored, received: seq<Entry>, messages: nat, more: seq<Request>): Exchange
    decreases |more|, 0
  {
    if more == [] then Exchange(st, received, messages, false, false)
    else
      var e := Perform(s, st, Attempt(more[0], None));
      Collect(s, e, received, messages, more[1..])
  }

  function Collect(s: Settings, e: Effect, received: seq<Entry>, messages: nat, more: seq<Request>): Exchange
    decreases |more|, 1
  {
    if e.answer.None? || !IsMessage(e.answer.value) then Exchange(e.st, received, messages, false, true)
    else
      var got := received + Chunk(e.answer.value);
      if e.answer.value.reply.value.final then Exchange(e.st, got, messages + 1, true, false)
      else Follow(s, e.st, got, messages + 1, more)
  }

  /** DmClientSimulator.exchange: one request, and as many more as its answer takes. */
  function Send(s: Settings, st: Stored, first: Request, more: seq<Request>): Exchange {
    Collect(s, Perform(s, st, Attempt(first, None)), [], 0, more)
  }

  /** A request for more: authenticated, of an acceptable size, and not the end of the session. */
  predicate Asks(s: Settings, rq: Request) {
    ReadsRemainder(s, rq) && !Leaves(rq.message)
  }

  predicate Timely(rq: Request, expiresAt: int) {
    !Expired(expiresAt, rq.sessionClock) && !Expired(expiresAt, rq.pendingClock)
  }

  ghost predicate AllAsk(s: Settings, more: seq<Request>, expiresAt: int) {
    forall i :: 0 <= i < |more| ==> Asks(s, more[i]) && Timely(more[i], expiresAt)
  }

  /** What is left to see once the package of a phase is complete. */
  function EndView(v: SessionView): View {
    if v.phase == Done then View(None, None) else View(Some(v), None)
  }

  /** A store in the middle of a package. */
  ghost predicate MidPackage(st: Stored, v: SessionView) {
    && PendingOk(st.pending) && Remains(st)
    && ViewOfSession(st.session) == Some(v) && st.pending.value.expiresAt == v.expiresAt
  }

  lemma AskContinues(s: Settings, st: Stored, rq: Request)
    requires Remains(st) && Asks(s, rq)
    ensures var out := Handle(s, st, rq); out.Answered? ==> out.kind.Continued? || out.kind.Abandoned?
  {
    hide NextMessage; hide Acks; hide Absorbed; hide HeaderChallenge; hide S.HasAlert; hide TooManyCommands;
    hide FailuresIn;
    AlertsAreFound(rq.message);
    hide Leaves;
  }

  /** One request for more: part of the remainder arrives, and what is stored shrinks by it. */
  lemma AskStep(s: Settings, st: Stored, v: SessionView, rq: Request)
    requires MidPackage(st, v) && Asks(s, rq) && Timely(rq, v.expiresAt)
    ensures var e := Perform(s, st, Attempt(rq, None));
            e.answer.Some? &&
            (var out := e.answer.value;
             IsMessage(out) ==>
               && st.pending.value.messages < MAX_MESSAGES_PER_PACKAGE
               && (if out.reply.value.final then
                     Chunk(out) == FromStored(st.pending.value.rows) && ViewOf(e.st) == EndView(v)
                   else
                     && MidPackage(e.st, v)
                     && |e.st.pending.value.rows| < |st.pending.value.rows|
                     && Chunk(out) + FromStored(e.st.pending.value.rows) == FromStored(st.pending.value.rows)
                     && e.st.pending.value.messages == st.pending.value.messages + 1))
  {
    assert Swept(s, st, rq) == st by { hide TooManyCommands; hide Handle; }
    PerformSplits(s, st, Attempt(rq, None));
    var out := Handle(s, st, rq);
    HandleHasShape(s, st, rq);
    AskContinues(s, st, rq);
    hide Perform; hide Swept; hide Handle; hide Chunk; hide QueueFor; hide Asks; hide FromStored;
    if IsMessage(out) {
      CommitLeaves(s, st, rq, out);
      var remainder := FromStored(st.pending.value.rows);
      Extended(remainder, [], remainder, out.kind.sent);
      hide Committed;
    }
  }

  /** The view a package's last message leaves, and its first as well when it is the only one. */
  function ViewAfterStart(s: Settings, st: Stored, rq: Request): SessionView {
    var session := SessionFor(s, st, rq);
    SessionView(After(session.phase), session.nonce, session.expiresAt)
  }

  /** The request that starts a package: the queue splits into what is sent and what is stored. */
  lemma StartStep(s: Settings, st: Stored, rq: Request)
    requires PendingOk(st.pending) && Swept(s, st, rq) == st
    requires var out := Handle(s, st, rq); IsMessage(out) && out.kind.Started?
    ensures var e := Perform(s, st, Attempt(rq, None));
            var v := ViewAfterStart(s, st, rq);
            e.answer == Some(Handle(s, st, rq)) &&
            (var out := e.answer.value;
             var queue := QueueFor(s, PhaseOf(st), rq);
             if out.reply.value.final then Chunk(out) == queue && ViewOf(e.st) == EndView(v)
             else
               && MidPackage(e.st, v)
               && |e.st.pending.value.rows| < |queue|
               && Chunk(out) + FromStored(e.st.pending.value.rows) == queue
               && e.st.pending.value.messages == 1)
  {
    PerformSplits(s, st, Attempt(rq, None));
    var out := Handle(s, st, rq);
    HandleHasShape(s, st, rq);
    hide Perform; hide Swept; hide Handle; hide QueueFor; hide FromStored;
    CommitLeaves(s, st, rq, out);
    var queue := out.kind.queue;
    Extended(queue, [], queue, out.kind.sent);
    hide Committed;
  }

  /** What is claimed of an exchange that goes on from the middle of a package with `left` requests. */
  ghost predicate Delivers(x: Exchange, v: SessionView, rest: seq<Entry>, sent: nat, received: seq<Entry>,
                           messages: nat, left: nat) {
    !x.refused ==>
      && (x.final ==> && x.received == received + rest
                      && ViewOf(x.st) == EndView(v)
                      && x.messages <= messages + |rest|
                      && x.messages + sent <= messages + MAX_MESSAGES_PER_PACKAGE)
      && (!x.final ==> left < |rest|)
  }

  lemma FollowUnfolds(s: Settings, st: Stored, received: seq<Entry>, messages: nat, more: seq<Request>)
    requires more != []
    ensures var e := Perform(s, st, Attempt(more[0], None));
            Follow(s, st, received, messages, more) ==
            if e.answer.None? || !IsMessage(e.answer.value) then Exchange(e.st, received, messages, false, true)
            else if e.answer.value.reply.value.final
              then Exchange(e.st, received + Chunk(e.answer.value), messages + 1, true, false)
            else Follow(s, e.st, received + Chunk(e.answer.value), messages + 1, more[1..])
  {
    hide Perform; hide Chunk;
  }

  lemma AllAskRest(s: Settings, more: seq<Request>, expiresAt: int)
    requires more != [] && AllAsk(s, more, expiresAt)
    ensures Asks(s, more[0]) && Timely(more[0], expiresAt) && AllAsk(s, more[1..], expiresAt)
  {
    hide Asks; hide Timely;
  }

  /**
   From the middle of a package the loop collects the rest of it, in at most as many messages as there are
   entries.
   */
  lemma {:induction false} FollowDelivers(s: Settings, st: Stored, p: Pending, v: SessionView, received: seq<Entry>,
                                          messages: nat,
                                          more: seq<Request>)
    requires MidPackage(st, v) && st.pending == Some(p) && AllAsk(s, more, v.expiresAt)
    ensures Delivers(Follow(s, st, received, messages, more), v, FromStored(p.rows), p.messages, received, messages,
        |more|)
    decreases |more|
  {
    hide FromStored; hide Chunk; hide Perform; hide AllAsk; hide MidPackage; hide ViewOf; hide EndView;
    hide Asks; hide Timely;
    MidPackageHasRest(st, v);
    if more != [] {
      AllAskRest(s, more, v.expiresAt);
      AskStep(s, st, v, more[0]);
      FollowUnfolds(s, st, received, messages, more);
      hide Follow;
      var e := Perform(s, st, Attempt(more[0], None));
      var out := e.answer.value;
      if IsMessage(out) && !out.reply.value.final {
        MidPackageHasRest(e.st, v);
        FollowDelivers(s, e.st, e.st.pending.value, v, received + Chunk(out), messages + 1, more[1..]);
        Sequenced(received, Chunk(out), FromStored(e.st.pending.value.rows));
      }
    }
  }

  lemma MidPackageHasRest(st: Stored, v: SessionView)
    requires MidPackage(st, v)
    ensures st.pending.Some? && 0 < |FromStored(st.pending.value.rows)| == |st.pending.value.rows|
  {
    hide FromStored;
  }

  lemma Sequenced(a: seq<Entry>, b: seq<Entry>, c: seq<Entry>)
    ensures a + b + c == a + (b + c)
  {
  }

  /**
   A request that starts the next package of its session, in time: authentic and of an acceptable size,
   not leaving, with nothing of a package left to send, opening the session if it is new; and a first
   message fits it.
   */
  ghost predicate Starts(s: Settings, st: Stored, first: Request) {
    && PendingOk(st.pending) && Swept(s, st, first) == st
    && Asks(s, first) && !Remains(st) && (PhaseOf(st) == Init ==> Opens(first.message))
    && CanStart(s, st, first)
  }

  /** Those are exactly the requests that are answered with the first message of a package. */
  lemma StartsMeans(s: Settings, st: Stored, first: Request)
    requires PendingOk(st.pending) && Swept(s, st, first) == st
    ensures var (out, queue) := (Handle(s, st, first), QueueFor(s, PhaseOf(st), first));
            && (Starts(s, st, first) <==> IsMessage(out) && out.kind.Started?)
            && (Starts(s, st, first) ==> (out.reply.value.final <==> Fits(s, st, first.message, queue)))
  {
    hide Handle; hide Swept; hide ReadsRemainder; hide Leaves; hide Opens; hide Fits; hide CanStart;
    hide FirstMessage; hide QueueFor;
    hide Remains; hide PendingOk;
    StartsWhen(s, st, first);
    if Starts(s, st, first) { FirstIsFinal(s, st, first); }
  }

  lemma FirstIsFinal(s: Settings, st: Stored, first: Request)
    requires CanStart(s, st, first)
    ensures var m := FirstMessage(s, st, first).value;
            m.0.final <==> m.1 == |QueueFor(s, PhaseOf(st), first)|
  {
    hide QueueFor; hide BaseReply; hide ToRows; hide MaxMsgSize;
  }

  /**
   One exchange. Whatever MaxMsgSize each request carries, if none is refused and the client does
   not stop asking, it ends with Final after at most as many messages as there are entries, and at
   most 128; it has received the whole package; and the session stands where one message would have
   left it.
   */
  lemma ExchangeDelivers(s: Settings, st: Stored, first: Request, more: seq<Request>)
    requires Starts(s, st, first)
    requires AllAsk(s, more, SessionFor(s, st, first).expiresAt)
    ensures var x := Send(s, st, first, more);
            var queue := QueueFor(s, PhaseOf(st), first);
            !x.refused ==>
              && (|queue| <= |more| + 1 ==> x.final)
              && (x.final ==> && x.received == queue
                              && x.messages <= 128
                              && (x.messages <= |queue| || x.messages == 1)
                              && ViewOf(x.st) == EndView(ViewAfterStart(s, st, first)))
  {
    StartsMeans(s, st, first);
    StartStep(s, st, first);
    var e := Perform(s, st, Attempt(first, None));
    var out := e.answer.value;
    var v := ViewAfterStart(s, st, first);
    hide Starts; hide Perform; hide QueueFor; hide ViewOf; hide EndView; hide Handle; hide FromStored; hide AllAsk;
    SendUnfolds(s, st, first, more);
    hide Send;
    if !out.reply.value.final {
      MidPackageHasRest(e.st, v);
      hide MidPackage;
      FollowDelivers(s, e.st, e.st.pending.value, v, Chunk(out), 1, more);
      assert |Chunk(out)| + |FromStored(e.st.pending.value.rows)| == |QueueFor(s, PhaseOf(st), first)|;
    }
  }

  lemma SendUnfolds(s: Settings, st: Stored, first: Request, more: seq<Request>)
    requires var e := Perform(s, st, Attempt(first, None)); e.answer.Some? && IsMessage(e.answer.value)
    ensures var e := Perform(s, st, Attempt(first, None));
            var got := Chunk(e.answer.value);
            Send(s, st, first, more) ==
            if e.answer.value.reply.value.final then Exchange(e.st, got, 1, true, false)
                else Follow(s, e.st, got, 1, more)
  {
    hide Perform; hide Follow;
    var e := Perform(s, st, Attempt(first, None));
    assert [] + Chunk(e.answer.value) == Chunk(e.answer.value);
    hide Chunk;
  }

  // ---- a whole session ----

  /** One exchange of a session: the request that starts a package, and those that ask for the rest. */
  datatype Turn = Turn(first: Request, more: seq<Request>)

  function Packages(s: Settings, st: Stored, turns: seq<Turn>): seq<seq<Entry>>
    decreases |turns|
  {
    if turns == [] then []
    else
      var x := Send(s, st, turns[0].first, turns[0].more);
      [x.received] + Packages(s, x.st, turns[1..])
  }

  function AfterTurns(s: Settings, st: Stored, turns: seq<Turn>): Stored
    decreases |turns|
  {
    if turns == [] then st else AfterTurns(s, Send(s, st, turns[0].first, turns[0].more).st, turns[1..])
  }

  /** Every exchange starts the next package, is not refused, and asks until it is complete. */
  ghost predicate Smooth(s: Settings, st: Stored, turns: seq<Turn>)
    decreases |turns|
  {
    turns != [] ==>
      var t := turns[0];
      && Starts(s, st, t.first)
      && AllAsk(s, t.more, SessionFor(s, st, t.first).expiresAt)
      && |QueueFor(s, PhaseOf(st), t.first)| <= |t.more| + 1
      && !Send(s, st, t.first, t.more).refused
      && Smooth(s, Send(s, st, t.first, t.more).st, turns[1..])
  }

  /** A session in which every package fits one message, and no request comes too late. */
  ghost predicate Roomy(s: Settings, st: Stored, turns: seq<Turn>)
    decreases |turns|
  {
    turns != [] ==>
      var t := turns[0];
      && Swept(s, st, t.first) == st
      && Fits(s, st, t.first.message, QueueFor(s, PhaseOf(st), t.first))
      && Roomy(s, Send(s, st, t.first, t.more).st, turns[1..])
  }

  /** The same request with another MaxMsgSize. */
  predicate Resized(a: Request, b: Request) {
    b == a.(message := a.message.(header := a.message.header.(maxMsgSize := b.message.header.maxMsgSize)))
  }

  lemma ResizedQueue(s: Settings, n: nat, phase: Phase, a: Request, b: Request)
    requires Resized(a, b)
    ensures QueueFor(s, phase, a) == QueueFor(s.(maxMsgSize := n), phase, b)
  {
    hide AcksFrom; hide Gets; hide Adds; hide Replaces; hide Uris; hide T.InteriorNodesFor; hide T.DeviceQueryUris;
  }

  /** A server with room accepts the same request, and sends the whole package at once. */
  lemma UnsplitStep(s: Settings, st: Stored, t: Turn)
    requires Starts(s, st, t.first) && Fits(s, st, t.first.message, QueueFor(s, PhaseOf(st), t.first))
    ensures var x := Send(s, st, t.first, t.more);
            x.received == QueueFor(s, PhaseOf(st), t.first) && x.messages == 1 && x.final
            && ViewOf(x.st) == EndView(ViewAfterStart(s, st, t.first)) && PendingOk(x.st.pending)
  {
    StartsMeans(s, st, t.first);
    StartStep(s, st, t.first);
    KeepsPendingOk(s, st, t.first);
    hide Starts; hide Perform; hide QueueFor; hide ViewOf; hide EndView; hide Handle;
    SendUnfolds(s, st, t.first, t.more);
  }

  lemma ResizedAlerts(a: S.Message, b: S.Message)
    requires a.commands == b.commands
    ensures Leaves(a) == Leaves(b) && Opens(a) == Opens(b)
  {
  }

  /** With room, what starts at one server starts at another that looks the same. */
  lemma RoomMeansStarts(s: Settings, n: nat, a: Stored, b: Stored, x: Request, y: Request)
    requires Starts(s, a, x) && Resized(x, y) && ViewOf(a) == ViewOf(b) && PendingOk(b.pending)
    requires var u := s.(maxMsgSize := n); Swept(u, b, y) == b && Fits(u, b, y.message, QueueFor(u, PhaseOf(b), y))
    ensures Starts(s.(maxMsgSize := n), b, y)
  {
    hide CanStart; hide Fits; hide QueueFor; hide Swept; hide AcksFrom;
    ResizedAlerts(x.message, y.message);
    FitsMeansCanStart(s.(maxMsgSize := n), b, y);
  }

  lemma KeepsPendingOk(s: Settings, st: Stored, rq: Request)
    requires PendingOk(st.pending)
    ensures PendingOk(Perform(s, st, Attempt(rq, None)).st.pending)
  {
    var st1 := Swept(s, st, rq);
    assert PendingOk(st1.pending) by { hide Handle; }
    PerformSplits(s, st, Attempt(rq, None));
    var out := Handle(s, st1, rq);
    HandleHasShape(s, st1, rq);
    hide Perform; hide Handle; hide Swept; hide Shape; hide Committed; hide PendingOk;
    if out.Answered? { CommitLeaves(s, st1, rq, out); }
  }

  lemma {:induction false} FollowKeepsPendingOk(s: Settings, st: Stored, received: seq<Entry>, messages: nat,
                                                more: seq<Request>)
    requires PendingOk(st.pending)
    ensures PendingOk(Follow(s, st, received, messages, more).st.pending)
    decreases |more|
  {
    hide PendingOk; hide Perform; hide Chunk;
    if more != [] {
      FollowUnfolds(s, st, received, messages, more);
      KeepsPendingOk(s, st, more[0]);
      hide Follow;
      var e := Perform(s, st, Attempt(more[0], None));
      if e.answer.Some? && IsMessage(e.answer.value) && !e.answer.value.reply.value.final {
        FollowKeepsPendingOk(s, e.st, received + Chunk(e.answer.value), messages + 1, more[1..]);
      }
    }
  }

  lemma SplitStep(s: Settings, st: Stored, t: Turn)
    requires Starts(s, st, t.first) && AllAsk(s, t.more, SessionFor(s, st, t.first).expiresAt)
    requires |QueueFor(s, PhaseOf(st), t.first)| <= |t.more| + 1
    requires !Send(s, st, t.first, t.more).refused
    ensures var x := Send(s, st, t.first, t.more);
            x.received == QueueFor(s, PhaseOf(st), t.first)
            && ViewOf(x.st) == EndView(ViewAfterStart(s, st, t.first)) && PendingOk(x.st.pending)
  {
    ExchangeDelivers(s, st, t.first, t.more);
    StartsMeans(s, st, t.first);
    StartStep(s, st, t.first);
    KeepsPendingOk(s, st, t.first);
    var e := Perform(s, st, Attempt(t.first, None));
    hide Starts; hide Perform; hide QueueFor; hide ViewOf; hide EndView; hide Handle; hide FromStored;
    hide AllAsk; hide PendingOk;
    SendUnfolds(s, st, t.first, t.more);
    hide Send; hide Follow; hide MidPackage; hide ViewAfterStart; hide Chunk;
    FollowKeepsPendingOk(s, e.st, Chunk(e.answer.value), 1, t.more);
  }

  lemma ViewFixesPhase(s: Settings, n: nat, a: Stored, b: Stored, x: Request, y: Request)
    requires ViewOf(a) == ViewOf(b) && Resized(x, y)
    ensures PhaseOf(a) == PhaseOf(b) && ViewAfterStart(s, a, x) == ViewAfterStart(s.(maxMsgSize := n), b, y)
  {
  }

  /**
   A split session refines the unsplit one. For every MaxMsgSize of every request, as long as none
   is refused, the session delivers the same packages in the same order as a server that sends each
   in one message, and ends in the same place.
   */
  lemma {:induction false} SplitRefinesUnsplit(s: Settings, n: nat, a: Stored, b: Stored, split: seq<Turn>,
                                               whole: seq<Turn>)
    requires ViewOf(a) == ViewOf(b)
    requires |split| == |whole| && forall i :: 0 <= i < |split| ==> Resized(split[i].first, whole[i].first)
    requires Smooth(s, a, split) && Roomy(s.(maxMsgSize := n), b, whole) && PendingOk(b.pending)
    ensures Packages(s, a, split) == Packages(s.(maxMsgSize := n), b, whole)
    ensures ViewOf(AfterTurns(s, a, split)) == ViewOf(AfterTurns(s.(maxMsgSize := n), b, whole))
    decreases |split|
  {
    hide Send; hide Handle; hide QueueFor; hide ViewOf; hide EndView; hide ViewAfterStart; hide Starts;
    hide AllAsk; hide Resized;
    hide Fits; hide PendingOk; hide Swept;
    if split != [] {
      var u := s.(maxMsgSize := n);
      var t, t' := split[0], whole[0];
      SplitStep(s, a, t);
      RoomMeansStarts(s, n, a, b, t.first, t'.first);
      UnsplitStep(u, b, t');
      ViewFixesPhase(s, n, a, b, t.first, t'.first);
      ResizedQueue(s, n, PhaseOf(a), t.first, t'.first);
      var x, y := Send(s, a, t.first, t.more), Send(u, b, t'.first, t'.more);
      SplitRefinesUnsplit(s, n, x.st, y.st, split[1..], whole[1..]);
    }
  }
}
