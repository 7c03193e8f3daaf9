/**
 What every run of a client keeps, whatever requests it sends, however each is authenticated,
 whatever MaxMsgSize it carries, and whichever single write of a commit fails.

 An observer follows the package in flight from the answers alone. Its entries are compared with
 the queue the package was started with.
 */
module DmSafety {
  import opened Wrappers
  import opened Package
  import opened Messages
  import opened DmModel
  import opened DmCommit
  import opened DmGuards
  import S = SyncMl
  import T = MoTree

  /** A package on its way: what it was started with, what the client has received of it, in how many messages. */
  datatype Transfer = Transfer(phase: Phase, queue: seq<Entry>, received: seq<Entry>, messages: nat)

  /**
   The store, the package in flight, the packages of this session whose Final the client has seen, in
   order, and how many packages were given up for the one after them.
   */
  datatype World = World(st: Stored, current: Option<Transfer>, completed: seq<Transfer>, skipped: nat)

  /** The entries of the package in an answer: a continuation opens with the acknowledgements of its own request. */
  function Chunk(out: Outcome): seq<Entry>
    requires out.Answered? && out.reply.Some?
  {
    match out.kind
    case Continued(acks, _, _) => if acks <= |out.reply.value.entries| then out.reply.value.entries[acks..] else []
    case _ => out.reply.value.entries
  }

  function Delivered(st: Stored, completed: seq<Transfer>, t: Transfer, final: bool, skipped: nat): World {
    if final then World(st, None, completed + [t], skipped) else World(st, Some(t), completed, skipped)
  }

  /** What the client has after an answer. The package that asks for the inventory opens a new session. */
  function Observe(w: World, st: Stored, out: Outcome): World
    requires out.Answered?
  {
    if out.reply.None? then w.(st := st)
    else
      match out.kind
      case Started(phase, queue, _) =>
        Delivered(st, if phase == DevInfo then [] else w.completed, Transfer(phase, queue, Chunk(out), 1),
                  out.reply.value.final, w.skipped + if phase != DevInfo && w.current.Some? then 1 else 0)
      case Continued(_, _, _) =>
        var t := if w.current.Some? then w.current.value else Transfer(Init, [], [], 0);
        Delivered(st, w.completed, t.(received := t.received + Chunk(out), messages := t.messages + 1),
                  out.reply.value.final, w.skipped)
      case _ => w.(st := st)
  }

  function Next(s: Settings, w: World, a: Attempt): World {
    var e := Perform(s, w.st, a);
    if e.answer.None? || e.answer.value.Refused? then w.(st := e.st) else Observe(w, e.st, e.answer.value)
  }

  function Run(s: Settings, w: World, attempts: seq<Attempt>): World
    decreases |attempts|
  {
    if attempts == [] then w else Run(s, Next(s, w, attempts[0]), attempts[1..])
  }

  /** A server that has never seen this session key. */
  const FRESH := World(Stored(None, None, None), None, [], 0)

  // ---- the invariant ----

  function PhaseAt(i: nat): Phase {
    if i == 0 then DevInfo else if i == 1 then Configure else Done
  }

  /** What is stored for the phase the session is in is exactly what has not been sent of the package in flight. */
  ghost predicate RemainderOk(w: World) {
    Remains(w.st) ==>
      && w.current.Some?
      && w.current.value.phase == w.st.session.value.phase
      && w.current.value.messages == w.st.pending.value.messages
      && w.current.value.queue == w.current.value.received + FromStored(w.st.pending.value.rows)
      && w.st.pending.value.expiresAt == w.st.session.value.expiresAt
  }

  /** A session past its first phase with nothing left to send has delivered the package of its phase. */
  ghost predicate PhaseOk(w: World) {
    w.st.session.Some? && !Remains(w.st) && w.st.session.value.phase != Init ==>
      && w.st.session.value.phase != Done
      && w.current.None? && w.completed != []
      && w.completed[|w.completed| - 1].phase == w.st.session.value.phase
  }

  /** Only the configuration package writes to the device. */
  ghost predicate Pushes(queue: seq<Entry>) {
    exists i :: 0 <= i < |queue| && queue[i].Item? && queue[i].command != "Get"
  }

  /** A completed package is its queue: nothing lost, repeated or reordered, in at most 128 messages. */
  ghost predicate Whole(t: Transfer, phase: Phase) {
    && t.phase == phase && t.received == t.queue
    && 1 <= t.messages <= MAX_MESSAGES_PER_PACKAGE
    && (Pushes(t.queue) ==> phase == Configure)
  }

  /** The next package of a session, so far: what has arrived of it is a prefix. */
  ghost predicate NextOk(completed: seq<Transfer>, t: Transfer) {
    && |completed| < 3 && t.phase == PhaseAt(|completed|)
    && t.received <= t.queue
    && 1 <= t.messages <= MAX_MESSAGES_PER_PACKAGE
    && (Pushes(t.queue) ==> t.phase == Configure)
  }

  /** The package in flight is the next of the session, and something of it has yet to come. */
  ghost predicate FlightOk(w: World) {
    w.current.Some? ==> NextOk(w.completed, w.current.value) && w.current.value.received != w.current.value.queue
  }

  /** The session's packages complete in the order inventory, configuration, closing. */
  ghost predicate CompletedOk(completed: seq<Transfer>) {
    |completed| <= 3 && forall i :: 0 <= i < |completed| ==> Whole(completed[i], PhaseAt(i))
  }

  ghost predicate Inv(w: World) {
    && PendingOk(w.st.pending) && RemainderOk(w) && PhaseOk(w) && FlightOk(w) && CompletedOk(w.completed)
    && w.skipped == 0
  }

  // ---- what Handle can answer ----

  /** Nothing but a stale remainder's deletion is to be saved. */
  ghost predicate Untouched(c: Changes) {
    c.session.None? && c.device.None? && c.pending.None? && !c.deleteSession && !c.progressInRemainder
  }

  /** The first message of a package, and what is to be saved with it. */
  ghost predicate StartOk(out: Outcome, nonce: string, expiresAt: int) {
    out.Answered? && out.kind.Started? && out.reply.Some? && !out.changes.progressInRemainder &&
    (var (phase, queue, n) := (out.kind.phase, out.kind.queue, out.kind.sent);
     && n <= |queue| && (queue != [] ==> 0 < n) && phase != Init
     && out.reply.value.entries == queue[..n] && (out.reply.value.final <==> n == |queue|)
     && (if n == |queue| then out.changes.pending.None?
         else out.changes.pending.Some? && out.changes.pending.value.phase == phase
              && out.changes.pending.value.messages == 1
              && out.changes.pending.value.rows != [] && FromStored(out.changes.pending.value.rows) == queue[n..]
              && out.changes.pending.value.expiresAt == expiresAt)
     && (if n == |queue| && phase == Done then out.changes.session.None? && out.changes.deleteSession
         else out.changes.session.Some? && !out.changes.deleteSession
              && out.changes.session.value.phase == phase && out.changes.session.value.nonce == nonce
              && out.changes.session.value.expiresAt == expiresAt))
  }

  ghost predicate AllStorable(es: seq<Entry>) {
    forall i :: 0 <= i < |es| ==> Storable(es[i])
  }

  lemma StoredSuffix(es: seq<Entry>, n: nat)
    requires n <= |es| && AllStorable(es)
    ensures FromStored(ToRows(es[n..])) == es[n..]
  {
    StoredRoundTrip(es[n..]);
  }

  /** What is read from the store can be stored again. */
  lemma ReadIsStorable(rows: seq<seq<string>>)
    ensures AllStorable(FromStored(rows))
  {
  }

  lemma StartIsOk(s: Settings, m: S.Message, session: Session, queue: seq<Entry>, changes: Changes)
    requires session.phase != Init && AllStorable(queue)
    requires Untouched(changes.(device := None))
    ensures var out := StartPackage(s, m, session, queue, changes);
            out.Answered? ==>
              && out.kind.Started? && StartOk(out, session.nonce, session.expiresAt)
              && out.changes.deletePending == changes.deletePending && out.changes.device == changes.device
              && out.kind.phase == session.phase && out.kind.queue == queue
  {
    hide NextMessage;
    hide FromStored;
    hide ToRows;
    hide Messages.Prefix;
    hide BaseReply;
    hide MaxMsgSize;
    hide Storable;
    hide HeaderChallenge;
    var (code, challenge) := HeaderChallenge(s, session);
    var next := NextMessage(s, m, code, challenge, queue, if queue == [] then 0 else 1);
    if next.Some? {
      PrefixIs(BaseReply(s, m, code, challenge), queue, next.value.1);
      StoredSuffix(queue, next.value.1);
    }
  }

  lemma PrefixIs(base: Reply, queue: seq<Entry>, n: nat)
    requires n <= |queue|
    ensures Messages.Prefix(base, queue, n).entries == queue[..n]
        && Messages.Prefix(base, queue, n).final == (n == |queue|)
  {
  }

  /** The answer that continues one. */
  ghost predicate ContinueOk(out: Outcome, session: Session, p: Pending) {
    out.Answered? && out.kind.Continued? && out.reply.Some? && out.changes.progressInRemainder
        && out.changes.device.Some? &&
    (var (acks, remainder, n) := (out.kind.acks, out.kind.remainder, out.kind.sent);
     && remainder == FromStored(p.rows) && 0 < n <= |remainder| && acks <= |out.reply.value.entries|
     && Chunk(out) == remainder[..n] && (out.reply.value.final <==> n == |remainder|)
     && p.messages < MAX_MESSAGES_PER_PACKAGE
     && (if n == |remainder| then out.changes.pending.None? && out.changes.deletePending
         else !out.changes.deletePending && out.changes.pending.Some?
              && out.changes.pending.value == p.(rows := out.changes.pending.value.rows, messages := p.messages + 1)
              && out.changes.pending.value.rows != [] && FromStored(out.changes.pending.value.rows) == remainder[n..])
     && (if n == |remainder| && session.phase == Done then out.changes.session.None? && out.changes.deleteSession
         else out.changes.session.Some? && !out.changes.deleteSession
              && out.changes.session.value.phase == session.phase && out.changes.session.value.nonce == session.nonce
              && out.changes.session.value.expiresAt == session.expiresAt))
  }

  lemma ContinuedChunk(acks: seq<Entry>, remainder: seq<Entry>, n: nat)
    requires |acks| < n <= |acks + remainder|
    ensures (acks + remainder)[..n][|acks|..] == remainder[..n - |acks|]
    ensures (acks + remainder)[..n][..|acks|] == acks
    ensures Rest(acks + remainder, n) == remainder[n - |acks|..]
  {
  }

  lemma ContinueIsOk(s: Settings, st: Stored, m: S.Message, session: Session, p: Pending, changes: Changes)
    requires p.rows != []
    requires Untouched(changes) && !changes.deletePending
    ensures var out := ContinuePackage(s, st, m, session, p, changes);
            out.Answered? ==> if p.messages >= MAX_MESSAGES_PER_PACKAGE
                              then out.kind.Abandoned? && out.changes == NO_CHANGES.(deleteSession := true)
                                  && out.reply.None?
                              else out.kind.Continued? && ContinueOk(out, session, p)
  {
    hide NextMessage;
    hide FromStored;
    hide ToRows;
    hide Messages.Prefix;
    hide BaseReply;
    hide MaxMsgSize;
    hide Storable;
    hide HeaderChallenge;
    hide Acks;
    hide Absorbed;
    hide Rest;
    hide FailuresIn;
    if p.messages < MAX_MESSAGES_PER_PACKAGE {
      var failures := if session.phase == Configure || session.phase == Done then FailuresIn(m.commands) else 0;
      var session' := session.(reportedFailures := session.reportedFailures + failures);
      var acks, remainder := Acks(s, m), FromStored(p.rows);
      var (code, challenge) := HeaderChallenge(s, session');
      var next := NextMessage(s, m, code, challenge, acks + remainder, |acks| + 1);
      if next.Some? {
        var n := next.value.1;
        PrefixIs(BaseReply(s, m, code, challenge), acks + remainder, n);
        ContinuedChunk(acks, remainder, n);
        ReadIsStorable(p.rows);
        StoredSuffix(remainder, n - |acks|);
      }
    }
  }

  // ---- the queue of each package ----

  lemma {:induction false} AcksAreStatuses(t: T.MoTree, msgId: string, cs: seq<S.Command>)
    ensures forall i :: 0 <= i < |AcksFrom(t, msgId, cs)| ==> AcksFrom(t, msgId, cs)[i].Status?
    decreases |cs|
  {
    if cs != [] { AcksAreStatuses(t, msgId, cs[1..]); }
  }

  /** Every package can be stored, and none but the one of the inventory phase writes to the device. */
  lemma QueueIsOk(s: Settings, phase: Phase, rq: Request)
    ensures AllStorable(QueueFor(s, phase, rq))
    ensures Pushes(QueueFor(s, phase, rq)) ==> phase == DevInfo
  {
    AcksAreStatuses(s.tree, rq.message.header.msgId, rq.message.commands);
    hide AcksFrom;
  }

  // ---- what Handle can answer ----

  /** What can come out of one message, by the branch that answered. */
  ghost predicate Shape(s: Settings, st: Stored, rq: Request, out: Outcome) {
    var session := SessionFor(s, st, rq);
    out.Answered? ==>
      (out.changes.deletePending && !out.kind.Continued? ==> Stale(st)) &&
      match out.kind
      case NoPackage => out.reply.None? && Untouched(out.changes)
      case Challenged =>
        out.reply.Some? && out.changes.session.Some? && out.changes == NO_CHANGES.(session := out.changes.session)
        && out.changes.session.value.phase == session.phase && out.changes.session.value.expiresAt == session.expiresAt
      case ClosedByClient =>
        out.reply.Some? && out.changes == NO_CHANGES.(deletePending := out.changes.deletePending, deleteSession := true)
      case Abandoned => out.reply.None? && Remains(st) && out.changes == NO_CHANGES.(deleteSession := true)
      case Started(phase, queue, _) =>
        !Remains(st) && phase == After(session.phase) && queue == QueueFor(s, session.phase, rq)
        && (out.changes.deletePending <==> st.pending.Some?)
        && (phase == Done ==> out.changes.device.None?) && StartOk(out, session.nonce, session.expiresAt)
      case Continued(_, _, _) =>
        && Remains(st)
        && exists x: Session ::
             && x.phase == session.phase && x.expiresAt == session.expiresAt && x.nonce == session.nonce
             && ContinueOk(out, x, st.pending.value)
  }

  lemma HandleHasShape(s: Settings, st: Stored, rq: Request)
    requires PendingOk(st.pending)
    ensures Shape(s, st, rq, Handle(s, st, rq))
  {
    if WellAddressed(rq.message) && rq.auth.Accepted? {
      var n := s.number(rq.message.header.msgId);
      var session := SessionFor(s, st, rq);
      var session' := session.(authenticated := true,
                               imsi := if rq.auth.username != "" then rq.auth.username else session.imsi,
                               lastMsgId := if n.Some? then n.value else 0);
      AcceptedHasShape(s, st, rq, session');
    }
  }

  lemma AcceptedHasShape(s: Settings, st: Stored, rq: Request, session: Session)
    requires PendingOk(st.pending)
    requires var x := SessionFor(s, st, rq);
             session.phase == x.phase && session.expiresAt == x.expiresAt && session.nonce == x.nonce
    ensures Shape(s, st, rq, HandleAccepted(s, st, rq, session))
  {
    hide NextMessage;
    hide S.HasAlert;
    hide Acks;
    hide Absorbed;
    hide ContinuePackage;
    hide StartPackage;
    hide ContinueOk;
    hide StartOk;
    hide Gets;
    hide Adds;
    hide Replaces;
    hide Uris;
    hide AllStorable;
    hide HeaderChallenge;
    hide FailuresIn;
    hide Pushes;
    hide T.InteriorNodesFor;
    hide T.DeviceQueryUris;
    var m := rq.message;
    var stale := st.pending.Some? && !Matches(st.pending, session.phase);
    var changes := NO_CHANGES.(deletePending := stale);
    if Matches(st.pending, session.phase) {
      ContinueIsOk(s, st, m, session, st.pending.value, changes);
    } else {
      QueueIsOk(s, session.phase, rq);
      StartCasesAreOk(s, st, rq, session, changes);
    }
  }

  lemma StartCasesAreOk(s: Settings, st: Stored, rq: Request, session: Session, changes: Changes)
    requires AllStorable(QueueFor(s, session.phase, rq)) && Untouched(changes)
    ensures var out := match session.phase
                       case Init => HandleInit(s, st, rq.message, session, changes)
                       case DevInfo => HandleDevInfo(s, st, rq, session, changes)
                       case _ => HandleFinish(s, rq.message, session, changes);
            out.Answered? ==>
              || (out.kind == NoPackage && out.reply.None? && out.changes == changes)
              || (out.kind.Started? && StartOk(out, session.nonce, session.expiresAt)
                  && out.kind.phase == After(session.phase) && (out.kind.phase == Done ==> out.changes.device.None?)
                  && out.kind.queue == QueueFor(s, session.phase, rq)
                     && out.changes.deletePending == changes.deletePending)
  {
    hide S.HasAlert;
    hide Acks;
    hide Absorbed;
    hide StartPackage;
    hide StartOk;
    hide AllStorable;
    hide FailuresIn;
    var m := rq.message;
    var device := Absorbed(s, m, session.imsi, st.device);
    match session.phase
    case Init => StartIsOk(s, m, session.(phase := DevInfo), QueueFor(s, Init, rq), changes.(device := Some(device)));
    case DevInfo => StartIsOk(s, m, session.(phase := Configure), QueueFor(s, DevInfo, rq),
        changes.(device := Some(device)));
    case _ =>
      StartIsOk(s, m, session.(phase := Done, reportedFailures := session.reportedFailures + FailuresIn(m.commands)),
                QueueFor(s, session.phase, rq), changes);
  }

  // ---- one attempt ----

  /** The clock passes the moment both records expire between the read of one and the read of the other. */
  predicate Straddles(s: Settings, st: Stored, rq: Request) {
    && Remains(st) && ReadsRemainder(s, rq)
    && !Expired(st.session.value.expiresAt, rq.sessionClock)
    && Expired(st.pending.value.expiresAt, rq.pendingClock)
  }

  /**
   The only failure that loses track. The request finds a remainder and ends the session: the client
   leaves and its acknowledgements fit, or the remainder has been through 128 messages. The first of
   the two writes of its commit succeeds and the second fails.
   */
  predicate CutWhileEnding(s: Settings, st: Stored, a: Attempt) {
    var (st1, m) := (Swept(s, st, a.request), a.request.message);
    && Remains(st1) && ReadsRemainder(s, a.request) && a.failAt == Some(1)
    && (if Leaves(m) then Fits(s, st1, m, Acks(s, m)) else st1.pending.value.messages >= MAX_MESSAGES_PER_PACKAGE)
  }

  /** Those are the requests that the branches ending a session answer, and their commits have two writes. */
  lemma EndsInMidPackage(s: Settings, st: Stored, rq: Request, k: nat)
    requires PendingOk(st.pending) && Remains(st)
    ensures var out := Handle(s, st, rq);
            (out.Answered? && (out.kind.ClosedByClient? || out.kind.Abandoned?) && k + 1 == |Writes(out.changes)|) <==>
              && ReadsRemainder(s, rq) && k == 1
              && (if Leaves(rq.message) then Fits(s, st, rq.message, Acks(s, rq.message))
                  else st.pending.value.messages >= MAX_MESSAGES_PER_PACKAGE)
  {
    hide Handle; hide ReadsRemainder; hide Leaves; hide Fits; hide Acks; hide FromStored; hide QueueFor;
    hide StartOk; hide ContinueOk;
    ClosesForClient(s, st, rq);
    AbandonsWhen(s, st, rq);
    HandleHasShape(s, st, rq);
  }

  lemma SweptKeeps(s: Settings, w: World, rq: Request)
    requires Inv(w)
    ensures Inv(w.(st := Swept(s, w.st, rq))) <==> !Straddles(s, w.st, rq)
  {
    hide FromStored;
    hide Whole;
    hide Pushes;
    hide TooManyCommands;
    var w' := w.(st := Swept(s, w.st, rq));
    if Straddles(s, w.st, rq) && w.completed != [] {
      WholePhase(w.completed[|w.completed| - 1], PhaseAt(|w.completed| - 1));
    }
  }

  lemma WholePhase(t: Transfer, phase: Phase)
    requires Whole(t, phase)
    ensures t.phase == phase
  {
  }

  /** An attempt once the expired records are gone: what the observer has after k writes of the commit. */
  function Settle(w: World, out: Outcome, k: nat): World
    requires out.Answered? && k <= |Writes(out.changes)|
  {
    var st := Cut(w.st, out.changes, k);
    if k < |Writes(out.changes)| then w.(st := st) else Observe(w, st, out)
  }

  lemma NextSettles(s: Settings, w: World, a: Attempt)
    ensures var w1 := w.(st := Swept(s, w.st, a.request));
            var out := Handle(s, w1.st, a.request);
            Next(s, w, a) ==
            if out.Refused? then w1
            else
              var n := |Writes(out.changes)|;
              Settle(w1, out, if a.failAt.Some? && a.failAt.value < n then a.failAt.value else n)
  {
    hide Handle;
    hide Swept;
    hide ApplyAll;
    var w1 := w.(st := Swept(s, w.st, a.request));
    var out := Handle(s, w1.st, a.request);
    if out.Answered? {
      var ws := Writes(out.changes);
      assert ws[..|ws|] == ws;
      hide Writes;
    }
  }

  lemma KeepsQuiet(w: World, out: Outcome, k: nat)
    requires Inv(w) && out.Answered? && k <= |Writes(out.changes)|
    requires out.reply.None? && Untouched(out.changes) && (out.changes.deletePending ==> !Remains(w.st))
    ensures Inv(Settle(w, out, k))
  {
    hide FromStored;
    hide Whole;
    hide Pushes;
    var ws := Writes(out.changes);
    assert ws[..0] == [];
    if k == 1 { ApplyPrefix(w.st, ws, 0); }
    hide ApplyAll;
  }

  lemma KeepsChallenged(w: World, out: Outcome, k: nat)
    requires Inv(w) && out.Answered? && k <= |Writes(out.changes)|
    requires out.kind.Challenged? && out.changes.session.Some?
        && out.changes == NO_CHANGES.(session := out.changes.session)
    requires out.changes.session.value.phase == PhaseOf(w.st)
    requires w.st.session.Some? ==> out.changes.session.value.expiresAt == w.st.session.value.expiresAt
    ensures Inv(Settle(w, out, k))
  {
    hide FromStored;
    hide Whole;
    hide Pushes;
    SessionLast(w.st, out.changes, k);
    hide Writes;
    hide Cut;
  }

  /** Ending a session is safe unless its last write fails while a remainder was stored. */
  lemma KeepsEnding(w: World, out: Outcome, k: nat)
    requires Inv(w) && out.Answered? && k <= |Writes(out.changes)|
    requires out.kind.ClosedByClient? || (out.kind.Abandoned? && out.reply.None?)
    requires out.changes == NO_CHANGES.(deletePending := out.changes.deletePending, deleteSession := true)
    requires out.changes.deletePending ==> !Remains(w.st)
    ensures Inv(Settle(w, out, k)) <==> !(Remains(w.st) && k + 1 == |Writes(out.changes)|)
  {
    hide FromStored;
    hide Whole;
    hide Pushes;
    SessionLast(w.st, out.changes, k);
    if Remains(w.st) && w.completed != [] { WholePhase(w.completed[|w.completed| - 1], PhaseAt(|w.completed| - 1)); }
    hide Writes;
    hide Cut;
  }

  /** One more message of the package that is next. */
  lemma DeliveryIsOk(st: Stored, completed: seq<Transfer>, t: Transfer, final: bool)
    requires CompletedOk(completed) && NextOk(completed, t)
    requires final <==> t.received == t.queue
    ensures var w := Delivered(st, completed, t, final, 0);
            && FlightOk(w) && CompletedOk(w.completed) && w.st == st && w.skipped == 0
            && (if final then w.current.None? && w.completed != [] && w.completed[|w.completed| - 1] == t
                else w.current == Some(t))
  {
    hide Pushes;
  }

  lemma KeepsStarted(s: Settings, w: World, rq: Request, out: Outcome, k: nat)
    requires Inv(w) && out.Answered? && k <= |Writes(out.changes)|
    requires out.kind.Started? && Shape(s, w.st, rq, out)
    ensures Inv(Settle(w, out, k))
  {
    hide FromStored; hide Pushes; hide QueueFor; hide Writes; hide Cut; hide Whole; hide SessionFor;
    SessionForPhase(s, w.st, rq);
    SessionLast(w.st, out.changes, k);
    QueueIsOk(s, PhaseOf(w.st), rq);
    if PhaseOf(w.st) != Init { WholePhase(w.completed[|w.completed| - 1], PhaseAt(|w.completed| - 1)); }
    var n := |Writes(out.changes)|;
    if k == n {
      var phase, queue := out.kind.phase, out.kind.queue;
      var before := if phase == DevInfo then [] else w.completed;
      Extended(queue, [], queue, out.kind.sent);
      DeliveryIsOk(Cut(w.st, out.changes, k), before, Transfer(phase, queue, Chunk(out), 1), out.reply.value.final);
    }
  }

  lemma SessionForPhase(s: Settings, st: Stored, rq: Request)
    ensures SessionFor(s, st, rq).phase == PhaseOf(st)
    ensures st.session.Some? ==> SessionFor(s, st, rq) == st.session.value
  {
  }

  lemma KeepsContinued(s: Settings, w: World, rq: Request, out: Outcome, k: nat)
    requires Inv(w) && out.Answered? && k <= |Writes(out.changes)|
    requires out.kind.Continued? && Shape(s, w.st, rq, out)
    ensures Inv(Settle(w, out, k))
  {
    hide FromStored;
    hide Pushes;
    hide QueueFor;
    RemainderLast(w.st, out.changes, k);
    var n := |Writes(out.changes)|;
    hide Writes;
    hide Cut;
    hide Whole;
    if k == n {
      var t := w.current.value;
      var remainder := FromStored(w.st.pending.value.rows);
      assert Chunk(out) == remainder[..out.kind.sent];
      Extended(t.queue, t.received, remainder, out.kind.sent);
      hide Chunk;
      DeliveryIsOk(Cut(w.st, out.changes, k), w.completed,
                   t.(received := t.received + Chunk(out), messages := t.messages + 1), out.reply.value.final);
    }
  }

  lemma Extended(queue: seq<Entry>, received: seq<Entry>, remainder: seq<Entry>, n: nat)
    requires queue == received + remainder && n <= |remainder|
    ensures received + remainder[..n] <= queue
    ensures queue == received + remainder[..n] + remainder[n..]
    ensures received + remainder[..n] == queue <==> n == |remainder|
  {
    assert queue == received + remainder[..n] + remainder[n..];
  }

  /**
   One attempt keeps the invariant, whatever fails in it, exactly when it does not cut off the last
   write of a commit that ends the session in the middle of a package.
   */
  lemma StepKeeps(s: Settings, w: World, a: Attempt)
    requires Inv(w) && !Straddles(s, w.st, a.request)
    ensures Inv(Next(s, w, a)) <==> !CutWhileEnding(s, w.st, a)
  {
    var w1 := w.(st := Swept(s, w.st, a.request));
    SweptKeeps(s, w, a.request);
    NextSettles(s, w, a);
    var out := Handle(s, w1.st, a.request);
    HandleHasShape(s, w1.st, a.request);
    hide Swept;
    hide Handle;
    hide Inv;
    hide Next;
    hide Settle;
    hide Straddles;
    if Remains(w1.st) {
      EndsInMidPackage(s, w1.st, a.request, if a.failAt.Some? then a.failAt.value else 0);
    }
    if out.Answered? {
      var n := |Writes(out.changes)|;
      var k := if a.failAt.Some? && a.failAt.value < n then a.failAt.value else n;
      SettleKeeps(s, w1, a.request, out, k);
    }
  }

  lemma SettleKeeps(s: Settings, w: World, rq: Request, out: Outcome, k: nat)
    requires Inv(w) && out.Answered? && k <= |Writes(out.changes)| && Shape(s, w.st, rq, out)
    ensures Inv(Settle(w, out, k)) <==>
            !((out.kind.ClosedByClient? || out.kind.Abandoned?) && Remains(w.st) && k + 1 == |Writes(out.changes)|)
  {
    hide Inv;
    hide Settle;
    hide ContinueOk;
    hide StartOk;
    hide Writes;
    match out.kind
    case NoPackage => KeepsQuiet(w, out, k);
    case Challenged => KeepsChallenged(w, out, k);
    case ClosedByClient => KeepsEnding(w, out, k);
    case Abandoned => KeepsEnding(w, out, k);
    case Started(_, _, _) => KeepsStarted(s, w, rq, out, k);
    case Continued(_, _, _) => KeepsContinued(s, w, rq, out, k);
  }

  /** What a straddled request finds: a session past its first phase whose remainder is gone, mid-package. */
  ghost predicate Bereft(w: World) {
    && w.st.session.Some? && w.st.session.value.phase != Init && w.st.pending.None?
    && w.current.Some? && w.current.value.phase == w.st.session.value.phase
    && FlightOk(w) && CompletedOk(w.completed) && w.skipped == 0
  }

  /** The client leaves, its acknowledgements fit, and both writes go through. */
  predicate ClosesInFull(s: Settings, st: Stored, a: Attempt) {
    && Leaves(a.request.message) && Fits(s, st, a.request.message, Acks(s, a.request.message))
    && (a.failAt.None? || a.failAt.value >= 2)
  }

  /**
   A closing package is started over, its remainder is stored but not the session, and that remainder
   happens to be the one that was lost, after one message as well.
   */
  predicate LooksTheSame(s: Settings, st: Stored, a: Attempt)
    requires Remains(st)
  {
    && PhaseOf(st) == Done && !Leaves(a.request.message) && CanStart(s, st, a.request) && a.failAt == Some(1)
    && st.pending.value.messages == 1
    && Rest(QueueFor(s, Done, a.request), FirstMessage(s, st, a.request).value.1) == FromStored(st.pending.value.rows)
  }

  /** The first message of a closing package, cut off after k writes. */
  lemma ClosingCut(s: Settings, w: World, rq: Request, out: Outcome, k: nat)
    requires Bereft(w) && w.st.session.value.phase == Done && out.Answered? && k < |Writes(out.changes)|
    requires Shape(s, w.st, rq, out) && out.kind.Started?
    ensures var st := Cut(w.st, out.changes, k);
            && st.session == w.st.session
            && st.pending == if k == 1 && out.changes.pending.Some? then out.changes.pending else None
  {
    hide FromStored; hide QueueFor; hide FlightOk; hide CompletedOk;
    var ws := Writes(out.changes);
    assert ws[..0] == [];
    if k == 1 { ApplyPrefix(w.st, ws, 0); }
    assert |ws| == 2;
    hide ApplyAll;
  }

  lemma StraddleSettles(s: Settings, w: World, rq: Request, out: Outcome, k: nat)
    requires Bereft(w) && out.Answered? && k <= |Writes(out.changes)|
    requires Shape(s, w.st, rq, out) && (out.kind.ClosedByClient? || out.kind.Started?)
    requires w.current.value.messages <= MAX_MESSAGES_PER_PACKAGE
    ensures var t := w.current.value;
            Inv(Settle(w, out, k)) <==>
              || (out.kind.ClosedByClient? && k == |Writes(out.changes)|)
              || (out.kind.Started? && k == 1 < |Writes(out.changes)| && w.st.session.value.phase == Done
                  && out.changes.pending.Some? && t.messages == 1
                  && t.queue == t.received + FromStored(out.changes.pending.value.rows))
  {
    hide Pushes; hide FromStored; hide Whole; hide QueueFor;
    SessionLast(w.st, out.changes, k);
    var n := |Writes(out.changes)|;
    if k < n && out.kind.Started? && w.st.session.value.phase == Done { ClosingCut(s, w, rq, out, k); }
    hide Writes;
    hide Cut;
  }

  lemma RestIsUnique(queue: seq<Entry>, received: seq<Entry>, a: seq<Entry>, b: seq<Entry>)
    requires queue == received + a
    ensures queue == received + b <==> a == b
  {
    if queue == received + b {
      assert a == queue[|received|..] == b;
    }
  }

  /**
   A straddled request gives the package in flight up, in every phase, unless all it does is close the
   session; or unless the store is left, by chance, just as it was before.
   */
  lemma StraddleBreaks(s: Settings, w: World, a: Attempt)
    requires Inv(w) && Straddles(s, w.st, a.request)
    ensures Inv(Next(s, w, a)) <==> ClosesInFull(s, w.st, a) || LooksTheSame(s, w.st, a)
  {
    hide FromStored; hide Handle; hide NextMessage; hide Acks; hide QueueFor; hide Pushes; hide Whole;
    hide Writes; hide Settle;
    hide Next; hide TooManyCommands; hide S.HasAlert; hide StartOk; hide BaseReply; hide Messages.Prefix;
    hide MaxMsgSize;
    var w1 := w.(st := Swept(s, w.st, a.request));
    NextSettles(s, w, a);
    var out := Handle(s, w1.st, a.request);
    HandleHasShape(s, w1.st, a.request);
    ClosesForClient(s, w1.st, a.request);
    StartsWhen(s, w1.st, a.request);
    PastInit(s, w1.st, a.request);
    if out.Answered? {
      var n := |Writes(out.changes)|;
      var k := if a.failAt.Some? && a.failAt.value < n then a.failAt.value else n;
      StraddledWrites(s, w1, a.request, out);
      StraddleSettles(s, w1, a.request, out, k);
      if out.changes.pending.Some? {
        RestIsUnique(w.current.value.queue, w.current.value.received, FromStored(w.st.pending.value.rows),
                     FromStored(out.changes.pending.value.rows));
      }
    }
  }

  lemma StraddledWrites(s: Settings, w: World, rq: Request, out: Outcome)
    requires Bereft(w) && out.Answered? && Shape(s, w.st, rq, out) && (out.kind.ClosedByClient? || out.kind.Started?)
    ensures out.kind.ClosedByClient? ==> |Writes(out.changes)| == 2
    ensures out.kind.Started? && w.st.session.value.phase == Done ==> |Writes(out.changes)| == 2
    ensures out.kind.Started? ==>
              var rest := Rest(out.kind.queue, out.kind.sent);
              && (out.changes.pending.Some? <==> rest != [])
              && (out.changes.pending.Some? ==> FromStored(out.changes.pending.value.rows) == rest)
  {
    hide FromStored; hide QueueFor; hide FlightOk; hide CompletedOk;
  }

  lemma PastInit(s: Settings, st: Stored, rq: Request)
    requires st.session.Some? && st.session.value.phase != Init && st.pending.None? && ReadsRemainder(s, rq)
    ensures var out := Handle(s, st, rq); out.Answered? ==> out.kind.ClosedByClient? || out.kind.Started?
  {
    hide Handle; hide ReadsRemainder; hide CloseForClient; hide HandleInit; hide HandleDevInfo;
    hide HandleFinish; hide SessionNow;
    hide Leaves;
    BranchOf(s, st, rq);
    ReadsNeeds(s, rq);
    AcceptedIsHandled(s, st, rq);
    var x, changes := SessionNow(s, st, rq), NO_CHANGES.(deletePending := Stale(st));
    CloseNeeds(s, st, rq.message, x, changes);
    StartCases(s, st, rq, x, changes);
    NotTheFirstPhase(s, st, rq, x, changes);
  }

  lemma NotTheFirstPhase(s: Settings, st: Stored, rq: Request, x: Session, changes: Changes)
    requires x.phase != Init
    ensures var out := if x.phase == DevInfo then HandleDevInfo(s, st, rq, x, changes)
        else HandleFinish(s, rq.message, x, changes);
            out.Answered? ==> out.kind.Started?
  {
    hide NextMessage; hide Acks; hide Absorbed; hide HeaderChallenge; hide FailuresIn; hide ToStored; hide Rest;
    hide Adds; hide Replaces; hide Uris; hide T.InteriorNodesFor;
  }

  /** No attempt of the run straddles an expiry or is cut off while it ends a session in mid-package. */
  predicate Orderly(s: Settings, w: World, attempts: seq<Attempt>)
    decreases |attempts|
  {
    attempts != [] ==>
      && !Straddles(s, w.st, attempts[0].request)
      && !CutWhileEnding(s, w.st, attempts[0])
      && Orderly(s, Next(s, w, attempts[0]), attempts[1..])
  }

  /**
   Exactly-once delivery, for whole runs: whichever other writes fail, whoever is challenged in
   between, at every moment the completed packages are the queues they were started with, in the
   order inventory, configuration, closing; nothing is pushed to the device before the inventory
   is complete; and what the store holds for the session's phase is what was not sent yet.
   */
  lemma {:induction false} RunKeeps(s: Settings, w: World, attempts: seq<Attempt>)
    requires Inv(w) && Orderly(s, w, attempts)
    ensures Inv(Run(s, w, attempts))
    decreases |attempts|
  {
    if attempts != [] {
      hide Inv;
      hide Next;
      hide Straddles;
      hide CutWhileEnding;
      StepKeeps(s, w, attempts[0]);
      RunKeeps(s, Next(s, w, attempts[0]), attempts[1..]);
    }
  }

  /** A fresh server starts such a run. */
  lemma ExactlyOnce(s: Settings, attempts: seq<Attempt>)
    requires Orderly(s, FRESH, attempts)
    ensures var w := Run(s, FRESH, attempts);
            && |w.completed| <= 3
            && (forall i :: 0 <= i < |w.completed| ==>
                  && w.completed[i].phase == PhaseAt(i)
                  && w.completed[i].received == w.completed[i].queue
                  && w.completed[i].messages <= 128
                  && (Pushes(w.completed[i].queue) ==> i == 1))
            && (w.current.Some? ==>
                  && w.current.value.phase == PhaseAt(|w.completed|)
                  && w.current.value.received < w.current.value.queue
                  && (Pushes(w.current.value.queue) ==> |w.completed| == 1))
            && w.skipped == 0
            && (Remains(w.st) ==>
                  && w.st.session.value.phase != Init && w.current.Some?
                  && w.current.value.queue == w.current.value.received + FromStored(w.st.pending.value.rows))
  {
    hide Pushes;
    hide FromStored;
    RunKeeps(s, FRESH, attempts);
    hide Run;
    hide Orderly;
  }

  // ---- where the queues come from ----

  function Before(phase: Phase): Phase {
    match phase
    case DevInfo => Init
    case Configure => DevInfo
    case _ => Configure
  }

  /** The package answers one of the requests that were sent. */
  ghost predicate Sourced(s: Settings, t: Transfer, sent: seq<Attempt>) {
    exists k :: 0 <= k < |sent| && t.queue == QueueFor(s, Before(t.phase), sent[k].request)
  }

  ghost predicate AllSourced(s: Settings, w: World, sent: seq<Attempt>) {
    && (w.current.Some? ==> Sourced(s, w.current.value, sent))
    && forall i :: 0 <= i < |w.completed| ==> Sourced(s, w.completed[i], sent)
  }

  lemma StillSourced(s: Settings, t: Transfer, t': Transfer, sent: seq<Attempt>, a: Attempt)
    requires Sourced(s, t, sent) && t'.phase == t.phase && t'.queue == t.queue
    ensures Sourced(s, t', sent + [a])
  {
    hide QueueFor;
    var k :| 0 <= k < |sent| && t.queue == QueueFor(s, Before(t.phase), sent[k].request);
    assert (sent + [a])[k] == sent[k];
  }

  lemma SourcedNow(s: Settings, t: Transfer, phase: Phase, sent: seq<Attempt>, a: Attempt)
    requires t.phase == After(phase) && t.queue == QueueFor(s, phase, a.request)
    ensures Sourced(s, t, sent + [a])
  {
    assert QueueFor(s, phase, a.request) == QueueFor(s, Before(t.phase), a.request);
    hide QueueFor;
    assert (sent + [a])[|sent|] == a;
  }

  lemma StepKeepsSources(s: Settings, w: World, a: Attempt, sent: seq<Attempt>)
    requires Inv(w) && !Straddles(s, w.st, a.request) && AllSourced(s, w, sent)
    ensures AllSourced(s, Next(s, w, a), sent + [a])
  {
    hide Handle; hide Swept; hide Straddles; hide QueueFor; hide Sourced; hide Writes; hide Cut; hide Chunk;
    hide ContinueOk; hide StartOk;
    hide Next; hide FlightOk; hide CompletedOk; hide FromStored;
    var w1 := w.(st := Swept(s, w.st, a.request));
    SweptKeeps(s, w, a.request);
    NextSettles(s, w, a);
    var out := Handle(s, w1.st, a.request);
    HandleHasShape(s, w1.st, a.request);
    if w.current.Some? {
      var t := w.current.value;
      StillSourced(s, t, t, sent, a);
      if out.Answered? && out.reply.Some? {
        StillSourced(s, t, t.(received := t.received + Chunk(out), messages := t.messages + 1), sent, a);
      }
    }
    forall i | 0 <= i < |w.completed|
      ensures Sourced(s, w.completed[i], sent + [a])
    {
      StillSourced(s, w.completed[i], w.completed[i], sent, a);
    }
    if out.Answered? && out.kind.Started? && out.reply.Some? {
      SourcedNow(s, Transfer(out.kind.phase, out.kind.queue, Chunk(out), 1), SessionFor(s, w1.st, a.request).phase,
          sent, a);
    }
  }

  lemma {:induction false} RunKeepsSources(s: Settings, w: World, sent: seq<Attempt>, attempts: seq<Attempt>)
    requires Inv(w) && AllSourced(s, w, sent) && Orderly(s, w, attempts)
    ensures AllSourced(s, Run(s, w, attempts), sent + attempts)
    decreases |attempts|
  {
    hide Inv; hide Next; hide Straddles; hide CutWhileEnding; hide AllSourced;
    if attempts == [] {
      assert sent + attempts == sent;
    } else {
      StepKeeps(s, w, attempts[0]);
      StepKeepsSources(s, w, attempts[0], sent);
      RunKeepsSources(s, Next(s, w, attempts[0]), sent + [attempts[0]], attempts[1..]);
      assert sent + [attempts[0]] + attempts[1..] == sent + attempts;
    }
  }

  /** The queue of every package is the one the handler of its phase makes for one of the requests sent. */
  lemma QueuesAnswerRequests(s: Settings, attempts: seq<Attempt>)
    requires Orderly(s, FRESH, attempts)
    ensures AllSourced(s, Run(s, FRESH, attempts), attempts)
  {
    hide Pushes; hide FromStored; hide Run; hide Orderly; hide Sourced;
    RunKeepsSources(s, FRESH, [], attempts);
    assert [] + attempts == attempts;
  }
}
