/**
 What a request leaves in the records, field by field, and which requests are refused before they change any.
 src/acs/protocol/omadm/session.py:223-315, :318-475 and :721-743.
 */
module DmSaved {
  import opened Wrappers
  import opened Package
  import opened Messages
  import opened DmModel
  import opened DmGuards
  import A = DmAnswers
  import B = SyncMlBuilder
  import C = DmCommit
  import R = DmRecords
  import S = SyncMl
  import T = MoTree

  // ---- requests that are not handled ----

  /** The session and message numbers are there, the credentials accepted, and at most 100 commands want an answer. */
  predicate Handled(rq: Request) {
    var m := rq.message;
    && m.header.sessionId != "" && m.header.msgId != "" && rq.auth.Accepted?
    && A.Answered(m.commands, |m.commands|) <= 100
  }

  lemma HandledIs(s: Settings, rq: Request)
    ensures Handled(rq) <==> ReadsRemainder(s, rq)
  {
    A.EachCommandIsAcknowledged(s, rq.message);
    hide Acks; hide A.Answered; hide A.Acknowledges;
  }

  /**
   A request without its numbers gets 400 and one with too many commands 413, and so does the first request of a
   session without alert 1200 or 1201: nothing of them is saved but that a stale remainder goes.
   */
  lemma RefusalsSay(s: Settings, st: Stored, rq: Request)
    requires PendingOk(st.pending)
    ensures var (out, h) := (Handle(s, st, rq), rq.message.header);
            && (h.sessionId == "" || h.msgId == "" ==> out == Answered(400, None, false, NO_CHANGES, NoPackage))
            && (h.sessionId != "" && h.msgId != "" && rq.auth.Accepted? && !Handled(rq) ==>
                  out == Answered(413, None, false, NO_CHANGES, NoPackage))
            && (Handled(rq) && !Leaves(rq.message) && PhaseOf(st) == Init && !Opens(rq.message) ==>
                  out == Answered(400, None, false, NO_CHANGES.(deletePending := Stale(st)), NoPackage))
  {
    HandledIs(s, rq);
    AlertsAreFound(rq.message);
    hide Handled; hide Leaves; hide Opens; hide Acks; hide NextMessage; hide StartPackage; hide S.HasAlert;
    hide ContinuePackage; hide CloseForClient; hide HandleDevInfo; hide HandleFinish; hide Absorbed; hide Gets;
    hide T.DeviceQueryUris;
    if ReadsRemainder(s, rq) {
      BranchOf(s, st, rq);
      AcceptedIsHandled(s, st, rq);
      NewHasNoRemainder(st);
      hide Handle; hide SessionNow;
    }
  }

  lemma NewHasNoRemainder(st: Stored)
    requires PendingOk(st.pending)
    ensures PhaseOf(st) == Init ==> !Remains(st)
  {
  }

  /** The status of an answer follows from what is answered, and a session is finished when it is deleted. */
  ghost predicate StatusFits(out: Outcome) {
    match out
    case Refused(status) => status == 400 || status == 413
    case Answered(status, reply, finished, changes, kind) =>
      && (finished <==> changes.deleteSession) && (status == 200 <==> reply.Some?)
      && match kind
         case NoPackage => (status == 400 || status == 413) && !finished
         case Challenged => status == 200 && !finished
         case ClosedByClient => status == 200 && finished
         case Abandoned => status == 413 && finished
         case Started(phase, _, _) => status == 200 && (finished ==> phase == Done)
         case Continued(_, _, _) => status == 200
  }

  /** A refusal is 400 where no message fits, and 413 where what is left over is too large to store. */
  ghost predicate RefusalFits(s: Settings, out: Outcome) {
    out.Refused? ==>
      && ((forall rows :: s.jsonSize(rows) <= 32768) ==> out.status == 400)
      && ((forall r :: s.size(r) == 0) ==> out.status == 413)
  }

  lemma SmallFits(s: Settings, m: S.Message, code: string, challenge: Option<B.Challenge>, queue: seq<Entry>,
                  required: nat)
    requires required <= |queue| && forall r :: s.size(r) == 0
    ensures NextMessage(s, m, code, challenge, queue, required).Some?
  {
    var base := BaseReply(s, m, code, challenge);
    var build := (n: nat) => Messages.Prefix(base, queue, n);
    assert s.size(build(required)) == 0;
    hide BaseReply; hide MaxMsgSize;
  }

  lemma StartStatus(s: Settings, m: S.Message, x: Session, queue: seq<Entry>, changes: Changes)
    requires !changes.deleteSession
    ensures var out := StartPackage(s, m, x, queue, changes); StatusFits(out) && RefusalFits(s, out)
  {
    hide NextMessage; hide ToRows; hide HeaderChallenge;
    var (code, challenge) := HeaderChallenge(s, x);
    if forall r :: s.size(r) == 0 { SmallFits(s, m, code, challenge, queue, if queue == [] then 0 else 1); }
  }

  lemma ContinueStatus(s: Settings, st: Stored, m: S.Message, x: Session, p: Pending)
    requires p.rows != []
    ensures var out := ContinuePackage(s, st, m, x, p, NO_CHANGES); StatusFits(out) && RefusalFits(s, out)
  {
    hide NextMessage; hide ToRows; hide HeaderChallenge; hide Acks; hide Absorbed; hide FailuresIn; hide FromStored;
    var failures := if x.phase == Configure || x.phase == Done then FailuresIn(m.commands) else 0;
    var (code, challenge) := HeaderChallenge(s, x.(reportedFailures := x.reportedFailures + failures));
    if forall r :: s.size(r) == 0 {
      SmallFits(s, m, code, challenge, Acks(s, m) + FromStored(p.rows), |Acks(s, m)| + 1);
    }
  }

  lemma CloseStatus(s: Settings, m: S.Message, x: Session, changes: Changes)
    ensures var out := CloseForClient(s, m, x, changes); StatusFits(out) && RefusalFits(s, out)
  {
    hide NextMessage; hide HeaderChallenge; hide Acks;
    var (code, challenge) := HeaderChallenge(s, x);
    if forall r :: s.size(r) == 0 { SmallFits(s, m, code, challenge, Acks(s, m), |Acks(s, m)|); }
  }

  lemma StartsStatus(s: Settings, st: Stored, rq: Request, x: Session, changes: Changes)
    requires !changes.deleteSession
    ensures var m := rq.message;
            var out := match x.phase
                       case Init => HandleInit(s, st, m, x, changes)
                       case DevInfo => HandleDevInfo(s, st, rq, x, changes)
                       case _ => HandleFinish(s, m, x, changes);
            StatusFits(out) && RefusalFits(s, out)
  {
    hide StartPackage; hide Acks; hide FailuresIn; hide Absorbed; hide S.HasAlert; hide Gets; hide T.DeviceQueryUris;
    hide T.InteriorNodesFor; hide Adds; hide Replaces; hide Uris;
    var m := rq.message;
    var next := changes.(device := Some(Absorbed(s, m, x.imsi, st.device)));
    match x.phase
    case Init =>
      StartStatus(s, m, x.(phase := DevInfo), Acks(s, m) + Gets(T.DeviceQueryUris(s.tree)), next);
    case DevInfo =>
      StartStatus(s, m, x.(phase := Configure),
                  Acks(s, m) + Adds(T.InteriorNodesFor(s.tree, Uris(rq.values))) + Replaces(rq.values), next);
    case _ =>
      StartStatus(s, m, x.(phase := Done, reportedFailures := x.reportedFailures + FailuresIn(m.commands)), Acks(s, m),
                  changes);
  }

  lemma ChallengeStatus(s: Settings, st: Stored, rq: Request)
    requires rq.auth.Rejected? || !ReadsRemainder(s, rq)
    ensures StatusFits(Handle(s, st, rq)) && RefusalFits(s, Handle(s, st, rq))
  {
    hide NextMessage; hide Acks; hide CloseForClient; hide ContinuePackage; hide HandleInit; hide HandleDevInfo;
    hide HandleFinish;
    if rq.auth.Rejected? && forall r :: s.size(r) == 0 {
      SmallFits(s, rq.message, rq.auth.code, Some(B.Challenge(rq.auth.authType, rq.auth.nonce)), [], 0);
    }
  }

  /** The status of every answer. */
  lemma StatusesSay(s: Settings, st: Stored, rq: Request)
    requires PendingOk(st.pending)
    ensures StatusFits(Handle(s, st, rq)) && RefusalFits(s, Handle(s, st, rq))
  {
    hide StatusFits; hide RefusalFits; hide Handle; hide CloseForClient; hide ContinuePackage; hide HandleInit;
    hide HandleDevInfo; hide HandleFinish; hide Leaves; hide ReadsRemainder; hide SessionNow; hide Stale; hide Remains;
    if ReadsRemainder(s, rq) {
      ReadsIsAccepted(s, rq);
      var (m, x, changes) := (rq.message, SessionNow(s, st, rq), NO_CHANGES.(deletePending := Stale(st)));
      BranchOf(s, st, rq);
      CloseStatus(s, m, x, changes);
      if Remains(st) {
        RemainsNeeds(st);
        ContinueStatus(s, st, m, x, st.pending.value);
      }
      StartsStatus(s, st, rq, x, changes);
    } else {
      ChallengeStatus(s, st, rq);
    }
  }

  // ---- failures the client reports ----

  predicate IsFailure(c: S.Command) {
    c.name == "Status" && c.data != "" && c.data[0] != '2' && c.data != "418"
  }

  /** How many of the first i commands are. */
  function Failures(cs: seq<S.Command>, i: nat): nat
    requires i <= |cs|
  {
    if i == 0 then 0 else Failures(cs, i - 1) + (if IsFailure(cs[i - 1]) then 1 else 0)
  }

  lemma {:induction false} FailuresShift(cs: seq<S.Command>, i: nat)
    requires 0 < i <= |cs|
    ensures Failures(cs, i) == (if IsFailure(cs[0]) then 1 else 0) + Failures(cs[1..], i - 1)
  {
    hide IsFailure;
    if i == 1 {
      assert Failures(cs, 1) == Failures(cs, 0) + (if IsFailure(cs[0]) then 1 else 0);
    } else {
      FailuresShift(cs, i - 1);
      assert cs[1..][i - 2] == cs[i - 1];
    }
  }

  lemma {:induction false} FailuresCount(cs: seq<S.Command>)
    ensures FailuresIn(cs) == Failures(cs, |cs|)
  {
    if cs != [] {
      FailuresCount(cs[1..]);
      FailuresShift(cs, |cs|);
    }
  }

  // ---- the session ----

  /** The session a request finds: the stored one, or a new one that lasts for the time to live. */
  function Found(s: Settings, st: Stored, rq: Request): Session {
    if st.session.Some? then st.session.value else Session(Init, "", 0, false, "", 0, rq.sessionClock + s.sessionTtl)
  }

  /** What becomes of it: a challenge changes its nonce, an accepted request its user and its place in the protocol. */
  predicate Becomes(s: Settings, rq: Request, was: Session, kind: Kind, x: Session) {
    var (m, reports) := (rq.message, was.phase == Configure || was.phase == Done);
    match rq.auth
    case Rejected(nonce, _, _) => x == was.(nonce := nonce, authenticated := false)
    case Accepted(user) =>
      && x.authenticated && x.nonce == was.nonce && x.expiresAt == was.expiresAt
      && x.imsi == (if user != "" then user else was.imsi)
      && (s.number(m.header.msgId) == Some(x.lastMsgId) || (s.number(m.header.msgId).None? && x.lastMsgId == 0))
      && x.reportedFailures == was.reportedFailures + (if reports then Failures(m.commands, |m.commands|) else 0)
      && (kind.Continued? ==> x.phase == was.phase)
      && (kind.Started? ==>
            x.phase == if was.phase == Init then DevInfo else if was.phase == DevInfo then Configure else Done)
  }

  function Next(phase: Phase, kind: Kind): Phase {
    if !kind.Started? then phase
    else if phase == Init then DevInfo
    else if phase == DevInfo then Configure
    else Done
  }

  /** What an answered request saves of its session x and of the device's record d. */
  ghost predicate Saves(m: S.Message, x: Session, d: Device, out: Outcome) {
    var reports := x.phase == Configure || x.phase == Done;
    out.Answered? ==>
      && (out.changes.session.Some? ==>
            out.changes.session.value
            == x.(phase := Next(x.phase, out.kind),
                  reportedFailures := x.reportedFailures + (if reports then FailuresIn(m.commands) else 0)))
      && (out.changes.device
          == if out.kind.Continued? || (out.kind.Started? && !reports) then Some(d) else None)
  }

  lemma StartSaves(s: Settings, m: S.Message, x: Session, queue: seq<Entry>, changes: Changes)
    requires changes.session.None?
    ensures var out := StartPackage(s, m, x, queue, changes);
            && (out.Answered? && out.changes.session.Some? ==> out.changes.session == Some(x))
            && (out.Answered? ==> out.kind.Started? && out.changes.device == changes.device)
  {
    hide NextMessage; hide HeaderChallenge; hide ToStored; hide Rest;
  }

  lemma ContinueSaves(s: Settings, st: Stored, m: S.Message, x: Session, p: Pending)
    ensures Saves(m, x, Absorbed(s, m, x.imsi, st.device), ContinuePackage(s, st, m, x, p, NO_CHANGES))
  {
    hide NextMessage; hide HeaderChallenge; hide ToStored; hide Rest; hide Acks; hide FailuresIn; hide Absorbed;
    hide FromStored;
  }

  lemma StartsSave(s: Settings, st: Stored, rq: Request, x: Session, changes: Changes)
    requires changes.session.None? && changes.device.None?
    ensures var m := rq.message;
            Saves(m, x, Absorbed(s, m, x.imsi, st.device),
                  match x.phase
                  case Init => HandleInit(s, st, m, x, changes)
                  case DevInfo => HandleDevInfo(s, st, rq, x, changes)
                  case _ => HandleFinish(s, m, x, changes))
  {
    hide StartPackage; hide Acks; hide FailuresIn; hide Absorbed; hide S.HasAlert; hide Gets; hide T.DeviceQueryUris;
    hide T.InteriorNodesFor; hide Adds; hide Replaces; hide Uris;
    var m := rq.message;
    var next := changes.(device := Some(Absorbed(s, m, x.imsi, st.device)));
    match x.phase
    case Init =>
      StartSaves(s, m, x.(phase := DevInfo), Acks(s, m) + Gets(T.DeviceQueryUris(s.tree)), next);
    case DevInfo =>
      StartSaves(s, m, x.(phase := Configure),
                 Acks(s, m) + Adds(T.InteriorNodesFor(s.tree, Uris(rq.values))) + Replaces(rq.values), next);
    case _ =>
      StartSaves(s, m, x.(phase := Done, reportedFailures := x.reportedFailures + FailuresIn(m.commands)), Acks(s, m),
                 changes);
  }

  lemma CloseSaves(s: Settings, m: S.Message, x: Session, d: Device, changes: Changes)
    requires changes.session.None? && changes.device.None?
    ensures Saves(m, x, d, CloseForClient(s, m, x, changes))
  {
    hide NextMessage; hide HeaderChallenge; hide Acks; hide FailuresIn;
  }

  lemma HandledSaves(s: Settings, st: Stored, rq: Request)
    requires PendingOk(st.pending) && ReadsRemainder(s, rq)
    ensures var (m, x) := (rq.message, SessionNow(s, st, rq));
            Saves(m, x, Absorbed(s, m, x.imsi, st.device), Handle(s, st, rq))
  {
    hide Handle; hide Acks; hide StartPackage; hide ContinuePackage; hide CloseForClient; hide HandleInit;
    hide HandleDevInfo; hide HandleFinish; hide Leaves; hide Absorbed; hide ReadsRemainder; hide Stale; hide Saves;
    hide Remains; hide SessionNow;
    ReadsIsAccepted(s, rq);
    var (m, x, changes) := (rq.message, SessionNow(s, st, rq), NO_CHANGES.(deletePending := Stale(st)));
    BranchOf(s, st, rq);
    CloseSaves(s, m, x, Absorbed(s, m, x.imsi, st.device), changes);
    if Remains(st) {
      RemainsNeeds(st);
      ContinueSaves(s, st, m, x, st.pending.value);
    }
    StartsSave(s, st, rq, x, changes);
  }

  lemma NowIs(s: Settings, st: Stored, rq: Request, kind: Kind)
    requires rq.auth.Accepted?
    ensures var (x, was) := (SessionNow(s, st, rq), Found(s, st, rq));
            var failures := if was.phase == Configure || was.phase == Done then FailuresIn(rq.message.commands) else 0;
            Becomes(s, rq, was, kind,
                    x.(phase := Next(x.phase, kind), reportedFailures := x.reportedFailures + failures))
  {
    FailuresCount(rq.message.commands);
    hide FailuresIn; hide Failures;
  }

  lemma ChallengeSays(s: Settings, st: Stored, rq: Request)
    requires rq.auth.Rejected?
    ensures var out := Handle(s, st, rq);
            out.Answered? ==>
              && out.changes.device.None?
              && (out.changes.session.Some? ==>
                    Becomes(s, rq, Found(s, st, rq), out.kind, out.changes.session.value))
  {
    hide NextMessage; hide Failures;
  }

  lemma UnhandledSaves(s: Settings, st: Stored, rq: Request)
    requires rq.auth.Accepted? && !ReadsRemainder(s, rq)
    ensures var out := Handle(s, st, rq); out.Answered? && out.changes.session.None? && out.changes.device.None?
  {
    hide Acks; hide CloseForClient; hide ContinuePackage; hide HandleInit; hide HandleDevInfo; hide HandleFinish;
  }

  /** Every session that is saved is the one found, as the request changes it. */
  lemma SessionSays(s: Settings, st: Stored, rq: Request)
    requires PendingOk(st.pending)
    ensures var out := Handle(s, st, rq);
            out.Answered? && out.changes.session.Some? ==>
              Becomes(s, rq, Found(s, st, rq), out.kind, out.changes.session.value)
  {
    hide Becomes; hide Handle; hide SessionNow; hide ReadsRemainder; hide FailuresIn; hide Absorbed;
    if rq.auth.Rejected? {
      ChallengeSays(s, st, rq);
    } else if ReadsRemainder(s, rq) {
      HandledSaves(s, st, rq);
      NowSays(s, st, rq);
      var out := Handle(s, st, rq);
      if out.Answered? { NowIs(s, st, rq, out.kind); }
    } else {
      UnhandledSaves(s, st, rq);
    }
  }

  lemma NowSays(s: Settings, st: Stored, rq: Request)
    requires rq.auth.Accepted?
    ensures SessionNow(s, st, rq).phase == Found(s, st, rq).phase == PhaseOf(st)
    ensures SessionNow(s, st, rq).imsi == if rq.auth.username != "" then rq.auth.username else Found(s, st, rq).imsi
  {
  }

  // ---- the device ----

  lemma {:induction false} OthersKeepDevice(st: Stored, ws: seq<Write>)
    requires forall k :: 0 <= k < |ws| ==> !ws[k].PutDevice?
    ensures ApplyAll(st, ws).device == st.device
    decreases |ws|
  {
    if ws != [] { OthersKeepDevice(DmModel.Apply(st, ws[0]), ws[1..]); }
  }

  lemma RecordsOnly(c: Changes)
    ensures forall w :: w in C.RecordWrites(c) ==> !w.PutDevice?
  {
    assert forall w :: w in SessionWrites(c) ==> !w.PutDevice?;
    assert forall w :: w in RemainderWrites(c) ==> !w.PutDevice?;
    hide SessionWrites; hide RemainderWrites;
  }

  lemma DeviceIsWritten(st: Stored, c: Changes)
    ensures ApplyAll(st, Writes(c)).device == if c.device.Some? then c.device else st.device
  {
    var ws := C.RecordWrites(c);
    RecordsOnly(c);
    assert Writes(c) == (if c.device.Some? then [PutDevice(c.device.value)] else []) + ws;
    hide Writes; hide C.RecordWrites;
    if c.device.Some? {
      var first := PutDevice(c.device.value);
      assert ([first] + ws)[1..] == ws;
      OthersKeepDevice(DmModel.Apply(st, first), ws);
    } else {
      assert [] + ws == ws;
      OthersKeepDevice(st, ws);
    }
  }

  /**
   What a device reports while it is asked about itself, and whenever a package continues, is in its record
   once the request is answered; no other request touches the record.
   */
  lemma ReportsAreSaved(s: Settings, st: Stored, rq: Request)
    requires PendingOk(st.pending)
    ensures var e := Perform(s, st, Attempt(rq, None));
            var st1 := Swept(s, st, rq);
            var out := Handle(s, st1, rq);
            if out.Answered? && (out.kind.Continued? || (out.kind.Started? && PhaseOf(st1) in {Init, DevInfo})) then
              var was := Found(s, st1, rq);
              && rq.auth.Accepted? && e.st.device.Some?
              && R.RecordedFrom(s, rq.message, if rq.auth.username != "" then rq.auth.username else was.imsi,
                                st.device, e.st.device.value)
            else e.st.device == st.device
  {
    hide Handle; hide SessionNow; hide ReadsRemainder; hide FailuresIn; hide Absorbed; hide Writes; hide ApplyAll;
    hide R.RecordedFrom; hide Swept;
    var st1 := Swept(s, st, rq);
    SweptKeepsDevice(s, st, rq);
    var out := Handle(s, st1, rq);
    if out.Answered? {
      DeviceIsWritten(st1, out.changes);
      if rq.auth.Rejected? {
        ChallengeSays(s, st1, rq);
        QuietWithoutRemainder(s, st1, rq);
      } else if ReadsRemainder(s, rq) {
        HandledSaves(s, st1, rq);
        NowSays(s, st1, rq);
        R.LastReportIsRecorded(s, rq.message, SessionNow(s, st1, rq).imsi, st1.device);
      } else {
        UnhandledSaves(s, st1, rq);
        QuietWithoutRemainder(s, st1, rq);
      }
    }
  }

  lemma SweptKeepsDevice(s: Settings, st: Stored, rq: Request)
    requires PendingOk(st.pending)
    ensures Swept(s, st, rq).device == st.device && PendingOk(Swept(s, st, rq).pending)
  {
    hide ReadsRemainder;
  }

  lemma QuietWithoutRemainder(s: Settings, st: Stored, rq: Request)
    requires rq.auth.Rejected? || !ReadsRemainder(s, rq)
    ensures var out := Handle(s, st, rq); out.Answered? ==> !out.kind.Continued? && !out.kind.Started?
  {
    ReadsIsAccepted(s, rq);
    OtherwiseQuiet(s, st, rq);
    hide Handle; hide ReadsRemainder;
  }

  lemma ReadsIsAccepted(s: Settings, rq: Request)
    ensures ReadsRemainder(s, rq) ==> rq.auth.Accepted?
  {
  }
}
