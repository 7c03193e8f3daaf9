/**
 Every reply, field by field: how large it is, whom it is for and what it answers.
 src/acs/protocol/omadm/session.py:541-641, :697-705.
 */
module DmReplies {
  import opened Wrappers
  import opened Package
  import opened Messages
  import opened DmModel
  import opened DmGuards
  import B = SyncMlBuilder
  import Fill
  import S = SyncMl
  import T = MoTree

  /** The envelope and the status of the header, for the header of the request. */
  predicate Addressed(s: Settings, m: S.Message, r: Reply) {
    var (e, h) := (r.envelope, m.header);
    && e.sessionId == h.sessionId && e.source == s.accountUri
    && e.target == (if h.source != "" then h.source else s.deviceId)
    && (s.number(h.msgId) == Some(e.msgId) || (s.number(h.msgId).None? && e.msgId == 1))
    && Within(s, m, e.maxMsgSize)
    && (e.maxMsgSize == s.maxMsgSize || (h.maxMsgSize > 0 && e.maxMsgSize == h.maxMsgSize))
    && r.msgRef == h.msgId && r.targetRef == h.target
  }

  /** The status of the header: the credentials were accepted, or the challenge. */
  predicate Answers(s: Settings, st: Stored, rq: Request, r: Reply) {
    match rq.auth
    case Rejected(nonce, code, authType) =>
      r.code == code && r.challenge == Some(B.Challenge(authType, nonce)) && r.entries == [] && r.final
    case Accepted(_) =>
      && r.code == "212"
      && r.challenge == (if s.md5 && NonceOf(st) != "" then Some(B.Challenge("syncml:auth-md5", NonceOf(st))) else None)
  }

  lemma NextSays(s: Settings, m: S.Message, code: string, challenge: Option<B.Challenge>, queue: seq<Entry>,
                 required: nat)
    ensures var next := NextMessage(s, m, code, challenge, queue, required);
            next.Some? ==>
              var r := next.value.0;
              && Within(s, m, s.size(r)) && Addressed(s, m, r) && r.code == code && r.challenge == challenge
              && (queue == [] && required == 0 ==> r.entries == [])
  {
    hide Fill.Sent;
  }

  // ---- the branches ----

  ghost predicate Fine(s: Settings, m: S.Message, code: string, challenge: Option<B.Challenge>, out: Outcome) {
    out.Answered? && out.reply.Some? ==>
      var r := out.reply.value;
      Within(s, m, s.size(r)) && Addressed(s, m, r) && r.code == code && r.challenge == challenge
  }

  lemma StartIsFine(s: Settings, m: S.Message, session: Session, queue: seq<Entry>, changes: Changes)
    ensures var (code, challenge) := HeaderChallenge(s, session);
            Fine(s, m, code, challenge, StartPackage(s, m, session, queue, changes))
  {
    hide NextMessage; hide Acks; hide Absorbed; hide FailuresIn; hide ToStored; hide Rest; hide FromStored;
    hide Within; hide Addressed;
    var (code, challenge) := HeaderChallenge(s, session);
    NextSays(s, m, code, challenge, queue, if queue == [] then 0 else 1);
  }

  lemma CloseIsFine(s: Settings, m: S.Message, session: Session, changes: Changes)
    ensures var (code, challenge) := HeaderChallenge(s, session);
            Fine(s, m, code, challenge, CloseForClient(s, m, session, changes))
  {
    hide NextMessage; hide Acks; hide Absorbed; hide FailuresIn; hide ToStored; hide Rest; hide FromStored;
    hide Within; hide Addressed;
    var (code, challenge) := HeaderChallenge(s, session);
    NextSays(s, m, code, challenge, Acks(s, m), |Acks(s, m)|);
  }

  lemma ContinueIsFine(s: Settings, st: Stored, m: S.Message, session: Session, p: Pending, changes: Changes)
    ensures var (code, challenge) := HeaderChallenge(s, session);
            Fine(s, m, code, challenge, ContinuePackage(s, st, m, session, p, changes))
  {
    hide NextMessage; hide Acks; hide Absorbed; hide FailuresIn; hide ToStored; hide Rest; hide FromStored;
    hide Within; hide Addressed;
    var (code, challenge) := HeaderChallenge(s, session);
    NextSays(s, m, code, challenge, Acks(s, m) + FromStored(p.rows), |Acks(s, m)| + 1);
  }

  lemma SilentIsFine(s: Settings, m: S.Message, code: string, challenge: Option<B.Challenge>, changes: Changes)
    ensures forall status: nat :: Fine(s, m, code, challenge, Answered(status, None, false, changes, NoPackage))
  {
  }

  lemma AcceptedIsFine(s: Settings, st: Stored, rq: Request, session: Session)
    ensures var (code, challenge) := HeaderChallenge(s, session);
            Fine(s, rq.message, code, challenge, HandleAccepted(s, st, rq, session))
  {
    hide Acks; hide Absorbed; hide StartPackage; hide ContinuePackage; hide CloseForClient; hide S.HasAlert;
    hide FailuresIn; hide TooManyCommands; hide Fine; hide Gets; hide Adds; hide Replaces; hide Uris;
    hide T.InteriorNodesFor; hide T.DeviceQueryUris;
    var m := rq.message;
    var changes := NO_CHANGES.(deletePending := st.pending.Some? && !Matches(st.pending, session.phase));
    var device := Some(Absorbed(s, m, session.imsi, st.device));
    if st.pending.Some? { ContinueIsFine(s, st, m, session, st.pending.value, changes); }
    CloseIsFine(s, m, session, changes);
    StartIsFine(s, m, session.(phase := DevInfo), Acks(s, m) + Gets(T.DeviceQueryUris(s.tree)),
                changes.(device := device));
    StartIsFine(s, m, session.(phase := Configure),
                Acks(s, m) + Adds(T.InteriorNodesFor(s.tree, Uris(rq.values))) + Replaces(rq.values),
                changes.(device := device));
    StartIsFine(s, m, session.(phase := Done, reportedFailures := session.reportedFailures + FailuresIn(m.commands)),
                Acks(s, m), changes);
    var (code, challenge) := HeaderChallenge(s, session);
    SilentIsFine(s, m, code, challenge, changes);
    SilentIsFine(s, m, code, challenge, NO_CHANGES);
  }

  /**
   Every reply is within the client's MaxMsgSize and the server's own setting, announces the smaller of
   them, is addressed to the sender of the request under its session and numbers, and says how the
   request's credentials came out.
   */
  lemma RepliesSay(s: Settings, st: Stored, rq: Request)
    ensures var out := Handle(s, st, rq);
            out.Answered? && out.reply.Some? ==>
              var r := out.reply.value;
              Within(s, rq.message, s.size(r)) && Addressed(s, rq.message, r) && Answers(s, st, rq, r)
  {
    hide Within; hide Addressed;
    if WellAddressed(rq.message) {
      match rq.auth
      case Accepted(_) =>
        var x := SessionNow(s, st, rq);
        AcceptedIsHandled(s, st, rq);
        AcceptedIsFine(s, st, rq, x);
        hide HandleAccepted; hide SessionNow; hide Handle;
      case Rejected(nonce, code, authType) =>
        NextSays(s, rq.message, code, Some(B.Challenge(authType, nonce)), [], 0);
        NothingIsAll(s, rq.message, code, Some(B.Challenge(authType, nonce)));
        hide NextMessage;
    }
  }

  lemma NothingIsAll(s: Settings, m: S.Message, code: string, challenge: Option<B.Challenge>)
    ensures var next := NextMessage(s, m, code, challenge, [], 0);
            next.Some? ==> next.value.0.final && next.value.1 == 0
  {
    hide Fill.Sent; hide BaseReply; hide MaxMsgSize;
  }
}
