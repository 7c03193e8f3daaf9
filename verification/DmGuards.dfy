/**
 Which branch answers a request, as conditions on the stored records and the request alone:
 src/acs/protocol/omadm/session.py:223-315, :420-475, :643-673.
 */
module DmGuards {
  import opened Wrappers
  import opened Package
  import opened Messages
  import opened DmModel
  import B = SyncMlBuilder
  import Fill
  import S = SyncMl
  import T = MoTree

  function PhaseOf(st: Stored): Phase {
    if st.session.Some? then st.session.value.phase else Init
  }

  function NonceOf(st: Stored): string {
    if st.session.Some? then st.session.value.nonce else ""
  }

  predicate Remains(st: Stored) {
    st.session.Some? && Matches(st.pending, st.session.value.phase)
  }

  /** A stored remainder is never of the first phase, never empty, and counts at most 128 messages. */
  ghost predicate PendingOk(p: Option<Pending>) {
    p.Some? ==> p.value.phase != Init && p.value.rows != [] && 1 <= p.value.messages <= MAX_MESSAGES_PER_PACKAGE
  }

  /** The session while an authenticated request is handled. */
  function SessionNow(s: Settings, st: Stored, rq: Request): Session
    requires rq.auth.Accepted?
  {
    var n := s.number(rq.message.header.msgId);
    var session := SessionFor(s, st, rq);
    session.(authenticated := true,
             imsi := if rq.auth.username != "" then rq.auth.username else session.imsi,
             lastMsgId := if n.Some? then n.value else 0)
  }

  lemma AcceptedIsHandled(s: Settings, st: Stored, rq: Request)
    requires WellAddressed(rq.message) && rq.auth.Accepted?
    ensures Handle(s, st, rq) == HandleAccepted(s, st, rq, SessionNow(s, st, rq))
    ensures var x := SessionNow(s, st, rq);
            x.phase == PhaseOf(st) && x.nonce == NonceOf(st) && x.authenticated
            && x.expiresAt == SessionFor(s, st, rq).expiresAt
  {
    hide HandleAccepted;
  }

  // ---- what a caller can check before the call ----

  /** The client sends an Alert with one of these codes. */
  predicate Alerts(m: S.Message, codes: set<string>) {
    exists i :: 0 <= i < |m.commands| && m.commands[i].name == "Alert" && m.commands[i].data in codes
  }

  /** The client ends the session. */
  predicate Leaves(m: S.Message) {
    Alerts(m, {"1223", "1226"})
  }

  /** The client asks for a session. */
  predicate Opens(m: S.Message) {
    Alerts(m, {"1200", "1201"})
  }

  lemma AlertsAreFound(m: S.Message)
    ensures Leaves(m) <==> S.HasAlert(m, "1223") || S.HasAlert(m, "1226")
    ensures Opens(m) <==> S.HasAlert(m, "1201") || S.HasAlert(m, "1200")
  {
  }

  /** The message before any entries, with the status and challenge of an authenticated session. */
  function BaseFor(s: Settings, st: Stored, m: S.Message): Reply {
    BaseReply(s, m, "212",
              if s.md5 && NonceOf(st) != "" then Some(B.Challenge("syncml:auth-md5", NonceOf(st))) else None)
  }

  /** All of a queue fits one message. */
  predicate Fits(s: Settings, st: Stored, m: S.Message, queue: seq<Entry>) {
    Within(s, m, s.size(Messages.Prefix(BaseFor(s, st, m), queue, |queue|)))
  }

  /** No more than the server sends, nor than the client accepts if it says so. */
  predicate Within(s: Settings, m: S.Message, size: nat) {
    size <= s.maxMsgSize && (m.header.maxMsgSize > 0 ==> size <= m.header.maxMsgSize)
  }

  lemma WithinIs(s: Settings, m: S.Message)
    ensures forall size: nat :: Within(s, m, size) <==> size <= MaxMsgSize(s, m)
  {
  }

  /** What is left of the package, after the acknowledgements of the request. */
  function RestOf(s: Settings, st: Stored, m: S.Message): seq<Entry>
    requires st.pending.Some?
  {
    Acks(s, m) + FromStored(st.pending.value.rows)
  }

  /** The first message of the phase's package, if one fits. */
  function FirstMessage(s: Settings, st: Stored, rq: Request): Option<(Reply, nat)> {
    var queue := QueueFor(s, PhaseOf(st), rq);
    var base := BaseFor(s, st, rq.message);
    NextMessage(s, rq.message, base.code, base.challenge, queue, if queue == [] then 0 else 1)
  }

  /** A first message fits, and what it leaves over can be stored. */
  predicate CanStart(s: Settings, st: Stored, rq: Request) {
    var queue := QueueFor(s, PhaseOf(st), rq);
    var first := FirstMessage(s, st, rq);
    && first.Some?
    && (Rest(queue, first.value.1) == [] || s.jsonSize(ToRows(Rest(queue, first.value.1))) <= 32768)
  }

  // ---- each branch ----

  /** Everything is sent exactly when everything fits. */
  lemma AllIsSent(s: Settings, m: S.Message, code: string, challenge: Option<B.Challenge>, queue: seq<Entry>,
                  required: nat)
    requires required <= |queue|
    ensures var base := BaseReply(s, m, code, challenge);
            var next := NextMessage(s, m, code, challenge, queue, required);
            && (next.Some? && next.value.1 == |queue| <==>
                 Within(s, m, s.size(Messages.Prefix(base, queue, |queue|))))
            && (next.Some? && required == |queue| ==> next.value.1 == |queue|)
  {
    WithinIs(s, m);
    hide Within;
    hide BaseReply; hide MaxMsgSize; hide Messages.Prefix;
    var base := BaseReply(s, m, code, challenge);
    var build := (n: nat) => Messages.Prefix(base, queue, n);
    Fill.SentFits(build, s.size, MaxMsgSize(s, m), |queue|, required);
  }

  lemma HeaderIs(s: Settings, st: Stored, session: Session)
    requires session.authenticated && session.nonce == NonceOf(st)
    ensures forall m: S.Message ::
              var (code, challenge) := HeaderChallenge(s, session);
              BaseReply(s, m, code, challenge) == BaseFor(s, st, m)
    ensures HeaderChallenge(s, session)
            == ("212", if s.md5 && NonceOf(st) != "" then Some(B.Challenge("syncml:auth-md5", NonceOf(st))) else None)
  {
  }

  lemma BaseCarries(s: Settings, st: Stored, m: S.Message)
    ensures BaseFor(s, st, m).code == "212"
    ensures BaseFor(s, st, m).challenge
        == if s.md5 && NonceOf(st) != "" then Some(B.Challenge("syncml:auth-md5", NonceOf(st))) else None
  {
  }

  predicate Stale(st: Stored) {
    st.pending.Some? && !Remains(st)
  }

  /** The handler of an authenticated request of an acceptable size, by what it finds. */
  lemma BranchOf(s: Settings, st: Stored, rq: Request)
    requires PendingOk(st.pending) && ReadsRemainder(s, rq)
    ensures var (m, x, changes) := (rq.message, SessionNow(s, st, rq), NO_CHANGES.(deletePending := Stale(st)));
            Handle(s, st, rq) ==
            if Leaves(m) then CloseForClient(s, m, x, changes)
            else if Remains(st) then ContinuePackage(s, st, m, x, st.pending.value, NO_CHANGES)
            else
              match x.phase
              case Init => HandleInit(s, st, m, x, changes)
              case DevInfo => HandleDevInfo(s, st, rq, x, changes)
              case _ => HandleFinish(s, m, x, changes)
  {
    hide CloseForClient; hide ContinuePackage; hide HandleInit; hide HandleDevInfo; hide HandleFinish; hide S.HasAlert;
    hide TooManyCommands; hide SessionNow;
    AlertsAreFound(rq.message);
    hide Leaves;
    AcceptedIsHandled(s, st, rq);
  }

  /** No other request reaches those branches. */
  lemma OtherwiseQuiet(s: Settings, st: Stored, rq: Request)
    requires !ReadsRemainder(s, rq)
    ensures var out := Handle(s, st, rq); out.Answered? ==> out.kind.NoPackage? || out.kind.Challenged?
  {
    hide NextMessage; hide Acks; hide CloseForClient; hide ContinuePackage; hide HandleInit;
    hide HandleDevInfo; hide HandleFinish;
  }

  lemma CloseNeeds(s: Settings, st: Stored, m: S.Message, x: Session, changes: Changes)
    requires x.authenticated && x.nonce == NonceOf(st)
    ensures var out := CloseForClient(s, m, x, changes);
            && (out.Answered? ==> out.kind.ClosedByClient?)
            && (out.Answered? <==> Fits(s, st, m, Acks(s, m)))
  {
    hide Acks; hide NextMessage; hide BaseReply; hide MaxMsgSize; hide Messages.Prefix; hide HeaderChallenge;
    hide BaseFor;
    HeaderIs(s, st, x);
    var (code, challenge) := HeaderChallenge(s, x);
    AllIsSent(s, m, code, challenge, Acks(s, m), |Acks(s, m)|);
    assert BaseReply(s, m, code, challenge) == BaseFor(s, st, m);
  }

  lemma ContinueNeeds(s: Settings, st: Stored, m: S.Message, x: Session)
    requires PendingOk(st.pending) && Remains(st)
    requires x.authenticated && x.nonce == NonceOf(st) && x.phase == PhaseOf(st)
    ensures var (out, p) := (ContinuePackage(s, st, m, x, st.pending.value, NO_CHANGES), st.pending.value);
            && (out.Answered? ==> out.kind.Continued? || out.kind.Abandoned?)
            && (out.Answered? && out.kind.Abandoned? <==> p.messages >= MAX_MESSAGES_PER_PACKAGE)
            && (out.Answered? && out.kind.Continued? && out.changes.deleteSession <==>
                  p.messages < MAX_MESSAGES_PER_PACKAGE && x.phase == Done && Fits(s, st, m, RestOf(s, st, m)))
  {
    hide Acks; hide NextMessage; hide BaseReply; hide MaxMsgSize; hide Messages.Prefix; hide HeaderChallenge;
    hide BaseFor;
    hide FailuresIn; hide Absorbed; hide ToStored; hide FromStored;
    var p := st.pending.value;
    if p.messages < MAX_MESSAGES_PER_PACKAGE {
      var failures := if x.phase == Configure || x.phase == Done then FailuresIn(m.commands) else 0;
      var y := x.(reportedFailures := x.reportedFailures + failures);
      HeaderIs(s, st, y);
      var (code, challenge) := HeaderChallenge(s, y);
      assert BaseReply(s, m, code, challenge) == BaseFor(s, st, m);
      AllIsSent(s, m, code, challenge, RestOf(s, st, m), |Acks(s, m)| + 1);
    }
  }

  /**
   The client's end of a session is answered exactly when it is authentic, not too long, and its acknowledgements
   fit.
   */
  lemma ClosesForClient(s: Settings, st: Stored, rq: Request)
    requires PendingOk(st.pending)
    ensures var out := Handle(s, st, rq);
            out.Answered? && out.kind.ClosedByClient? <==>
              ReadsRemainder(s, rq) && Leaves(rq.message) && Fits(s, st, rq.message, Acks(s, rq.message))
  {
    hide Handle; hide CloseForClient; hide ContinuePackage; hide HandleInit; hide HandleDevInfo;
    hide HandleFinish; hide SessionNow;
    hide Leaves; hide Fits; hide ReadsRemainder; hide Acks; hide Remains;
    if ReadsRemainder(s, rq) {
      BranchOf(s, st, rq);
      assert WellAddressed(rq.message) && rq.auth.Accepted? by { ReadsNeeds(s, rq); }
      AcceptedIsHandled(s, st, rq);
      CloseNeeds(s, st, rq.message, SessionNow(s, st, rq), NO_CHANGES.(deletePending := Stale(st)));
      if Leaves(rq.message) {
      } else if Remains(st) {
        assert st.pending.Some? by { RemainsNeeds(st); }
        ContinueNeeds(s, st, rq.message, SessionNow(s, st, rq));
      } else {
        StartKinds(s, st, rq, SessionNow(s, st, rq), NO_CHANGES.(deletePending := Stale(st)));
      }
    } else {
      OtherwiseQuiet(s, st, rq);
    }
  }

  lemma ReadsNeeds(s: Settings, rq: Request)
    requires ReadsRemainder(s, rq)
    ensures WellAddressed(rq.message) && rq.auth.Accepted?
  {
  }

  lemma RemainsNeeds(st: Stored)
    requires Remains(st)
    ensures st.session.Some? && st.pending.Some? && st.pending.value.phase == st.session.value.phase == PhaseOf(st)
  {
  }

  lemma StartKinds(s: Settings, st: Stored, rq: Request, x: Session, changes: Changes)
    ensures forall out :: out in [HandleInit(s, st, rq.message, x, changes), HandleDevInfo(s, st, rq, x, changes),
                                  HandleFinish(s, rq.message, x, changes)] && out.Answered? ==>
                            out.kind.NoPackage? || out.kind.Started?
  {
    hide NextMessage; hide Acks; hide Absorbed; hide HeaderChallenge; hide FailuresIn; hide S.HasAlert;
    hide ToStored; hide Rest;
    hide Gets; hide Adds; hide Replaces; hide Uris; hide T.InteriorNodesFor; hide T.DeviceQueryUris;
  }

  /** A package is abandoned exactly when its remainder has been through 128 messages. */
  lemma AbandonsWhen(s: Settings, st: Stored, rq: Request)
    requires PendingOk(st.pending)
    ensures var out := Handle(s, st, rq);
            out.Answered? && out.kind.Abandoned? <==>
              Remains(st) && ReadsRemainder(s, rq) && !Leaves(rq.message)
                  && st.pending.value.messages >= 128
  {
    EachKind(s, st, rq);
  }

  /** A continuation closes the session exactly when it is the closing package's and all that is left fits. */
  lemma EndsPackageWhen(s: Settings, st: Stored, rq: Request)
    requires PendingOk(st.pending)
    ensures var out := Handle(s, st, rq);
            out.Answered? && out.kind.Continued? && out.changes.deleteSession <==>
              && Remains(st) && ReadsRemainder(s, rq) && !Leaves(rq.message)
              && st.pending.value.messages < 128
              && PhaseOf(st) == Done && Fits(s, st, rq.message, RestOf(s, st, rq.message))
  {
    EachKind(s, st, rq);
  }

  /** Both, and what excludes them. */
  lemma EachKind(s: Settings, st: Stored, rq: Request)
    requires PendingOk(st.pending)
    ensures var out := Handle(s, st, rq);
            if ReadsRemainder(s, rq) && !Leaves(rq.message) && Remains(st) then
              && (out.Answered? && out.kind.Abandoned? <==> st.pending.value.messages >= MAX_MESSAGES_PER_PACKAGE)
              && (out.Answered? && out.kind.Continued? && out.changes.deleteSession <==>
                    && st.pending.value.messages < MAX_MESSAGES_PER_PACKAGE
                    && PhaseOf(st) == Done && Fits(s, st, rq.message, RestOf(s, st, rq.message)))
              && (out.Answered? ==> out.kind.Continued? || out.kind.Abandoned?)
            else out.Answered? ==> !out.kind.Continued? && !out.kind.Abandoned?
  {
    hide Handle; hide CloseForClient; hide ContinuePackage; hide HandleInit; hide HandleDevInfo;
    hide HandleFinish; hide SessionNow;
    hide Leaves; hide Fits; hide ReadsRemainder; hide Acks; hide Remains;
    if ReadsRemainder(s, rq) {
      BranchOf(s, st, rq);
      ReadsNeeds(s, rq);
      AcceptedIsHandled(s, st, rq);
      CloseNeeds(s, st, rq.message, SessionNow(s, st, rq), NO_CHANGES.(deletePending := Stale(st)));
      if !Leaves(rq.message) && Remains(st) {
        RemainsNeeds(st);
        ContinueNeeds(s, st, rq.message, SessionNow(s, st, rq));
      } else {
        StartKinds(s, st, rq, SessionNow(s, st, rq), NO_CHANGES.(deletePending := Stale(st)));
      }
    } else {
      OtherwiseQuiet(s, st, rq);
    }
  }

  lemma StartNeeds(s: Settings, st: Stored, m: S.Message, x: Session, queue: seq<Entry>, changes: Changes)
    requires x.authenticated && x.nonce == NonceOf(st)
    ensures var (out, base) := (StartPackage(s, m, x, queue, changes), BaseFor(s, st, m));
            var first := NextMessage(s, m, base.code, base.challenge, queue, if queue == [] then 0 else 1);
            && (out.Answered? <==>
                  first.Some? && (Rest(queue, first.value.1) == []
                                  || s.jsonSize(ToRows(Rest(queue, first.value.1))) <= MAX_STORED_BYTES))
            && (out.Answered? ==>
                  && out.kind.Started? && out.status == 200 && out.reply == Some(first.value.0)
                  && out.kind.queue == queue && out.kind.sent == first.value.1
                  && (first.value.1 == |queue| <==> Fits(s, st, m, queue)))
  {
    hide NextMessage; hide BaseReply; hide MaxMsgSize; hide Messages.Prefix; hide HeaderChallenge;
    hide BaseFor; hide ToRows;
    HeaderIs(s, st, x);
    BaseCarries(s, st, m);
    var (code, challenge) := HeaderChallenge(s, x);
    assert BaseReply(s, m, code, challenge) == BaseFor(s, st, m);
    AllIsSent(s, m, code, challenge, queue, if queue == [] then 0 else 1);
  }

  lemma StartCases(s: Settings, st: Stored, rq: Request, x: Session, changes: Changes)
    requires x.authenticated && x.nonce == NonceOf(st) && x.phase == PhaseOf(st)
    ensures var out := match x.phase
                       case Init => HandleInit(s, st, rq.message, x, changes)
                       case DevInfo => HandleDevInfo(s, st, rq, x, changes)
                       case _ => HandleFinish(s, rq.message, x, changes);
            var first := FirstMessage(s, st, rq);
            && (out.Answered? && out.kind.Started? <==>
                  (PhaseOf(st) == Init ==> Opens(rq.message)) && CanStart(s, st, rq))
            && (out.Answered? && out.kind.Started? ==>
                  && out.status == 200 && out.reply == Some(first.value.0)
                  && out.kind.queue == QueueFor(s, PhaseOf(st), rq) && out.kind.sent == first.value.1
                  && (first.value.1 == |QueueFor(s, PhaseOf(st), rq)| <==>
                       Fits(s, st, rq.message, QueueFor(s, PhaseOf(st), rq))))
  {
    hide NextMessage; hide StartPackage; hide Acks; hide Absorbed; hide FailuresIn; hide S.HasAlert;
    hide ToRows; hide Rest;
    hide Gets; hide Adds; hide Replaces; hide Uris; hide T.InteriorNodesFor; hide T.DeviceQueryUris;
    hide BaseFor; hide Fits;
    AlertsAreFound(rq.message);
    hide Opens;
    var m, queue := rq.message, QueueFor(s, PhaseOf(st), rq);
    var device := Absorbed(s, m, x.imsi, st.device);
    match x.phase
    case Init => StartNeeds(s, st, m, x.(phase := DevInfo), queue, changes.(device := Some(device)));
    case DevInfo => StartNeeds(s, st, m, x.(phase := Configure), queue, changes.(device := Some(device)));
    case _ =>
      StartNeeds(s, st, m, x.(phase := Done, reportedFailures := x.reportedFailures + FailuresIn(m.commands)), queue,
          changes);
  }

  /**
   A package starts exactly for an authentic request of an acceptable size that finds nothing left to
   send and does not end the session, with alert 1200 or 1201 if the session is new, where a first
   message fits and the rest can be stored. Its message is the last exactly if everything fits.
   */
  lemma StartsWhen(s: Settings, st: Stored, rq: Request)
    requires PendingOk(st.pending)
    ensures var (out, queue) := (Handle(s, st, rq), QueueFor(s, PhaseOf(st), rq));
            && (out.Answered? && out.kind.Started? <==>
                  && ReadsRemainder(s, rq) && !Leaves(rq.message) && !Remains(st)
                  && (PhaseOf(st) == Init ==> Opens(rq.message)) && CanStart(s, st, rq))
            && (out.Answered? && out.kind.Started? ==>
                  && out.status == 200 && out.reply == Some(FirstMessage(s, st, rq).value.0)
                  && out.kind.queue == queue && out.kind.sent == FirstMessage(s, st, rq).value.1
                  && (FirstMessage(s, st, rq).value.1 == |queue| <==> Fits(s, st, rq.message, queue)))
  {
    hide Handle; hide CloseForClient; hide ContinuePackage; hide HandleInit; hide HandleDevInfo;
    hide HandleFinish; hide SessionNow;
    hide Leaves; hide Opens; hide Fits; hide ReadsRemainder; hide Acks; hide Remains; hide CanStart;
    hide FirstMessage; hide QueueFor;
    if ReadsRemainder(s, rq) {
      BranchOf(s, st, rq);
      ReadsNeeds(s, rq);
      AcceptedIsHandled(s, st, rq);
      var x, changes := SessionNow(s, st, rq), NO_CHANGES.(deletePending := Stale(st));
      CloseNeeds(s, st, rq.message, x, changes);
      StartCases(s, st, rq, x, changes);
      if Remains(st) {
        RemainsNeeds(st);
        ContinueNeeds(s, st, rq.message, x);
      }
    } else {
      OtherwiseQuiet(s, st, rq);
    }
  }

  /** A package all of which fits one message can start. */
  lemma FitsMeansCanStart(s: Settings, st: Stored, rq: Request)
    requires Fits(s, st, rq.message, QueueFor(s, PhaseOf(st), rq))
    ensures CanStart(s, st, rq) && FirstMessage(s, st, rq).value.1 == |QueueFor(s, PhaseOf(st), rq)|
  {
    hide NextMessage; hide QueueFor; hide BaseReply; hide MaxMsgSize; hide Messages.Prefix; hide ToRows;
    var queue, base := QueueFor(s, PhaseOf(st), rq), BaseFor(s, st, rq.message);
    BaseCarries(s, st, rq.message);
    AllIsSent(s, rq.message, base.code, base.challenge, queue, if queue == [] then 0 else 1);
    BaseOfItself(s, st, rq.message);
  }

  lemma BaseOfItself(s: Settings, st: Stored, m: S.Message)
    ensures var base := BaseFor(s, st, m); BaseReply(s, m, base.code, base.challenge) == base
  {
  }

  /** A continuation's message is the one found for the acknowledgements and the remainder together. */
  lemma ContinuesWith(s: Settings, st: Stored, rq: Request)
    requires PendingOk(st.pending)
    ensures var out := Handle(s, st, rq);
            out.Answered? && out.kind.Continued? ==>
              var (base, acks) := (BaseFor(s, st, rq.message), |Acks(s, rq.message)|);
              && Remains(st) && out.reply.Some? && out.kind.acks == acks
              && NextMessage(s, rq.message, base.code, base.challenge, RestOf(s, st, rq.message), acks + 1)
                 == Some((out.reply.value, acks + out.kind.sent))
  {
    hide Handle; hide ContinuePackage; hide SessionNow; hide Leaves; hide ReadsRemainder; hide Acks;
    hide Remains; hide NextMessage;
    hide BaseFor;
    EachKind(s, st, rq);
    if ReadsRemainder(s, rq) && !Leaves(rq.message) && Remains(st) {
      BranchOf(s, st, rq);
      ReadsNeeds(s, rq);
      RemainsNeeds(st);
      AcceptedIsHandled(s, st, rq);
      ContinueSends(s, st, rq.message, SessionNow(s, st, rq));
    }
  }

  lemma ContinueSends(s: Settings, st: Stored, m: S.Message, x: Session)
    requires st.pending.Some? && st.pending.value.rows != [] && x.authenticated && x.nonce == NonceOf(st)
    ensures var out := ContinuePackage(s, st, m, x, st.pending.value, NO_CHANGES);
            out.Answered? && out.kind.Continued? ==>
              var (base, acks) := (BaseFor(s, st, m), |Acks(s, m)|);
              && out.reply.Some? && out.kind.acks == acks
              && NextMessage(s, m, base.code, base.challenge, RestOf(s, st, m), acks + 1)
                 == Some((out.reply.value, acks + out.kind.sent))
  {
    hide Acks; hide NextMessage; hide HeaderChallenge; hide BaseFor; hide FailuresIn; hide Absorbed;
    hide ToStored; hide FromStored;
    hide Rest;
    var failures := if x.phase == Configure || x.phase == Done then FailuresIn(m.commands) else 0;
    var y := x.(reportedFailures := x.reportedFailures + failures);
    HeaderIs(s, st, y);
    BaseCarries(s, st, m);
    var (code, challenge) := HeaderChallenge(s, y);
    assert code == BaseFor(s, st, m).code && challenge == BaseFor(s, st, m).challenge;
    var next := NextMessage(s, m, code, challenge, RestOf(s, st, m), |Acks(s, m)| + 1);
    assert next.Some? ==> next == Some((next.value.0, next.value.1));
  }
}
