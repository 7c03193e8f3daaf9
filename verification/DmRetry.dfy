/**
 A request whose commit failed can be sent again: src/acs/protocol/omadm/session.py:100-119.

 What the server answers depends on the stored records only through `View`, and a commit that is
 cut off leaves the view as it was, except where a session is being ended. So the failed attempts
 of a run can be struck out of it: the client would have had the same answers.
 */
module DmRetry {
  import opened Wrappers
  import opened Package
  import opened Messages
  import opened DmModel
  import opened DmGuards
  import opened DmCommit
  import opened DmSafety
  import S = SyncMl
  import T = MoTree

  datatype SessionView = SessionView(phase: Phase, nonce: string, expiresAt: int)

  /** What of the records can be told from the answers: the session's place, and the remainder if it is this phase's. */
  datatype View = View(session: Option<SessionView>, remainder: Option<Pending>)

  function ViewOfSession(session: Option<Session>): Option<SessionView> {
    if session.None? then None
    else Some(SessionView(session.value.phase, session.value.nonce, session.value.expiresAt))
  }

  function ViewOf(st: Stored): View {
    View(ViewOfSession(st.session), if Remains(st) then st.pending else None)
  }

  /** The response as `handle` returns it; `kind` stands for its metric and detail. */
  datatype Answer = Failure(status: nat) | Success(status: nat, reply: Option<Reply>, finished: bool, kind: Kind)

  function AnswerOf(out: Outcome): Answer {
    match out
    case Refused(status) => Failure(status)
    case Answered(status, reply, finished, _, kind) => Success(status, reply, finished, kind)
  }

  /** Two outcomes that answer and save the same, as far as a later answer can depend on it. */
  ghost predicate Alike(o1: Outcome, o2: Outcome) {
    && AnswerOf(o1) == AnswerOf(o2)
    && (o1.Answered? && o2.Answered? ==>
          && ViewOfSession(o1.changes.session) == ViewOfSession(o2.changes.session)
          && o1.changes.pending == o2.changes.pending
          && o1.changes.deleteSession == o2.changes.deleteSession)
  }

  /** Sessions that differ only in what is recorded about the device and its statuses. */
  predicate Twins(x: Session, y: Session) {
    x.phase == y.phase && x.nonce == y.nonce && x.expiresAt == y.expiresAt && x.authenticated == y.authenticated
  }

  lemma StartsAlike(s: Settings, m: S.Message, x: Session, y: Session, queue: seq<Entry>, c: Changes, d: Changes)
    requires Twins(x, y) && Untouched(c.(device := None)) && Untouched(d.(device := None))
    ensures Alike(StartPackage(s, m, x, queue, c), StartPackage(s, m, y, queue, d))
  {
    hide NextMessage;
    hide ToRows;
    hide FromStored;
    hide Rest;
  }

  lemma ContinuesAlike(s: Settings, a: Stored, b: Stored, m: S.Message, x: Session, y: Session, p: Pending, c: Changes)
    requires Twins(x, y) && Untouched(c) && !c.deletePending
    ensures Alike(ContinuePackage(s, a, m, x, p, c), ContinuePackage(s, b, m, y, p, c))
  {
    hide NextMessage;
    hide ToRows;
    hide FromStored;
    hide Rest;
    hide Absorbed;
    hide FailuresIn;
    hide Acks;
  }

  lemma AnswersAlike(s: Settings, a: Stored, b: Stored, rq: Request)
    requires PendingOk(a.pending) && PendingOk(b.pending) && ViewOf(a) == ViewOf(b)
    ensures Alike(Handle(s, a, rq), Handle(s, b, rq))
  {
    hide NextMessage;
    if WellAddressed(rq.message) && rq.auth.Accepted? {
      var n := s.number(rq.message.header.msgId);
      var x, y := SessionFor(s, a, rq), SessionFor(s, b, rq);
      AcceptedAlike(s, a, b, rq,
                    x.(authenticated := true, imsi := if rq.auth.username != "" then rq.auth.username else x.imsi,
                       lastMsgId := if n.Some? then n.value else 0),
                    y.(authenticated := true, imsi := if rq.auth.username != "" then rq.auth.username else y.imsi,
                       lastMsgId := if n.Some? then n.value else 0));
    }
    hide HandleAccepted;
  }

  lemma AcceptedAlike(s: Settings, a: Stored, b: Stored, rq: Request, x: Session, y: Session)
    requires PendingOk(a.pending) && PendingOk(b.pending) && ViewOf(a) == ViewOf(b)
    requires Twins(x, y) && x.phase == PhaseOf(a) == PhaseOf(b)
    ensures Alike(HandleAccepted(s, a, rq, x), HandleAccepted(s, b, rq, y))
  {
    hide NextMessage;
    hide S.HasAlert;
    hide TooManyCommands;
    hide Acks;
    hide Absorbed;
    hide ContinuePackage;
    hide StartPackage;
    hide Gets;
    hide Adds;
    hide Replaces;
    hide Uris;
    hide FailuresIn;
    hide T.InteriorNodesFor;
    hide T.DeviceQueryUris;
    var m := rq.message;
    if Matches(a.pending, x.phase) {
      ContinuesAlike(s, a, b, m, x, y, a.pending.value, NO_CHANGES);
    } else {
      var c := NO_CHANGES.(deletePending := a.pending.Some?);
      var d := NO_CHANGES.(deletePending := b.pending.Some?);
      var devA, devB := Some(Absorbed(s, m, x.imsi, a.device)), Some(Absorbed(s, m, y.imsi, b.device));
      match x.phase {
        case Init =>
          StartsAlike(s, m, x.(phase := DevInfo), y.(phase := DevInfo), Acks(s, m) + Gets(T.DeviceQueryUris(s.tree)),
                      c.(device := devA), d.(device := devB));
        case DevInfo =>
          StartsAlike(s, m, x.(phase := Configure), y.(phase := Configure),
                      Acks(s, m) + Adds(T.InteriorNodesFor(s.tree, Uris(rq.values))) + Replaces(rq.values),
                      c.(device := devA), d.(device := devB));
        case _ =>
          StartsAlike(s, m, x.(phase := Done, reportedFailures := x.reportedFailures + FailuresIn(m.commands)),
                      y.(phase := Done, reportedFailures := y.reportedFailures + FailuresIn(m.commands)), Acks(s, m),
                          c, d);
      }
    }
  }

  /** The store after the whole commit. */
  function Committed(st: Stored, out: Outcome): Stored
    requires out.Answered?
  {
    Cut(st, out.changes, |Writes(out.changes)|)
  }

  /** A whole commit, by the branch that answered, as the session and the remainder it leaves. */
  lemma CommitLeaves(s: Settings, st: Stored, rq: Request, out: Outcome)
    requires PendingOk(st.pending) && Shape(s, st, rq, out) && out.Answered?
    ensures PendingOk(Committed(st, out).pending)
    ensures ViewOf(Committed(st, out)) ==
            match out.kind
            case NoPackage => ViewOf(st)
            case Challenged => View(ViewOfSession(out.changes.session), ViewOf(st).remainder)
            case ClosedByClient => View(None, None)
            case Abandoned => View(None, None)
            case Started(_, _, _) => View(ViewOfSession(out.changes.session), out.changes.pending)
            case Continued(_, _, _) => View(ViewOfSession(out.changes.session), out.changes.pending)
  {
    hide FromStored;
    hide QueueFor;
    hide Chunk;
    var ws := Writes(out.changes);
    match out.kind
    case NoPackage =>
      assert ws[..0] == [];
      if ws != [] { ApplyPrefix(st, ws, 0); }
      hide ApplyAll;
    case Continued(_, _, _) => RemainderLast(st, out.changes, |ws|); hide Writes; hide Cut;
    case _ => SessionLast(st, out.changes, |ws|); hide Writes; hide Cut;
  }

  lemma CommitsAlike(s: Settings, a: Stored, b: Stored, rq: Request)
    requires PendingOk(a.pending) && PendingOk(b.pending) && ViewOf(a) == ViewOf(b)
    ensures var (x, y) := (Handle(s, a, rq), Handle(s, b, rq));
            && AnswerOf(x) == AnswerOf(y)
            && (x.Answered? ==> && PendingOk(Committed(a, x).pending) && PendingOk(Committed(b, y).pending)
                                && ViewOf(Committed(a, x)) == ViewOf(Committed(b, y)))
  {
    var x, y := Handle(s, a, rq), Handle(s, b, rq);
    AnswersAlike(s, a, b, rq);
    HandleHasShape(s, a, rq);
    HandleHasShape(s, b, rq);
    hide Handle;
    hide Shape;
    hide ViewOf;
    hide Committed;
    if x.Answered? {
      CommitLeaves(s, a, rq, x);
      CommitLeaves(s, b, rq, y);
    }
  }

  /** By the branch that answered: the cut leaves one of the two records of a session that was ending. */
  predicate EndIsCut(st: Stored, out: Outcome, k: nat)
    requires out.Answered?
  {
    || ((out.kind.ClosedByClient? || out.kind.Abandoned?) && Remains(st) && k + 1 == |Writes(out.changes)|)
    || (out.kind.Continued? && out.changes.deleteSession && 2 <= k < |Writes(out.changes)|)
  }

  lemma CutLeavesByBranch(s: Settings, w: World, rq: Request, out: Outcome, k: nat)
    requires Inv(w) && Shape(s, w.st, rq, out) && out.Answered? && k < |Writes(out.changes)|
    ensures ViewOf(Cut(w.st, out.changes, k)) == ViewOf(w.st) <==> !EndIsCut(w.st, out, k)
    ensures PendingOk(Cut(w.st, out.changes, k).pending)
  {
    hide FromStored;
    hide QueueFor;
    hide Chunk;
    hide FlightOk;
    hide CompletedOk;
    var ws := Writes(out.changes);
    match out.kind
    case NoPackage => assert ws[..0] == [];
    case Continued(_, _, _) => RemainderLast(w.st, out.changes, k); hide Writes; hide Cut;
    case _ => SessionLast(w.st, out.changes, k); hide Writes; hide Cut;
  }

  /**
   The cuts that show. The request finds a remainder and ends the session: the client leaves and its
   acknowledgements fit, or the remainder has been through 128 messages, and the second of two writes
   fails; or it is the closing package's last message, and the session is deleted but not the remainder.
   */
  predicate CutIsSeen(s: Settings, st: Stored, rq: Request, k: nat) {
    Remains(st) && ReadsRemainder(s, rq) &&
    if Leaves(rq.message) then Fits(s, st, rq.message, Acks(s, rq.message)) && k == 1
    else if st.pending.value.messages >= MAX_MESSAGES_PER_PACKAGE then k == 1
    else PhaseOf(st) == Done && Fits(s, st, rq.message, RestOf(s, st, rq.message)) && 2 <= k
  }

  lemma EndIsCutWhen(s: Settings, st: Stored, rq: Request, k: nat)
    requires PendingOk(st.pending)
    requires var out := Handle(s, st, rq); out.Answered? && k < |Writes(out.changes)|
    ensures EndIsCut(st, Handle(s, st, rq), k) <==> CutIsSeen(s, st, rq, k)
    ensures var out := Handle(s, st, rq);
            EndIsCut(st, out, k) ==> (out.kind.ClosedByClient? <==> Leaves(rq.message))
  {
    hide Handle; hide ReadsRemainder; hide Leaves; hide Fits; hide Acks; hide FromStored; hide QueueFor;
    hide StartOk; hide ContinueOk;
    ClosesForClient(s, st, rq);
    EachKind(s, st, rq);
    HandleHasShape(s, st, rq);
  }

  /** A commit that is cut off leaves what can be seen as it was, exactly when it was not ending the session so. */
  lemma CutLeaves(s: Settings, w: World, rq: Request, k: nat)
    requires Inv(w)
    requires var out := Handle(s, w.st, rq); out.Answered? && k < |Writes(out.changes)|
    ensures ViewOf(Cut(w.st, Handle(s, w.st, rq).changes, k)) == ViewOf(w.st) <==> !CutIsSeen(s, w.st, rq, k)
    ensures PendingOk(Cut(w.st, Handle(s, w.st, rq).changes, k).pending)
  {
    hide Handle; hide Shape; hide CutIsSeen; hide EndIsCut; hide Writes; hide Cut; hide ViewOf; hide FlightOk;
    hide CompletedOk;
    hide RemainderOk; hide PhaseOk;
    HandleHasShape(s, w.st, rq);
    CutLeavesByBranch(s, w, rq, Handle(s, w.st, rq), k);
    EndIsCutWhen(s, w.st, rq, k);
  }

  // ---- whole runs ----

  /** The answers a client receives over a run. */
  function Answers(s: Settings, st: Stored, attempts: seq<Attempt>): seq<Answer>
    decreases |attempts|
  {
    if attempts == [] then []
    else
      var e := Perform(s, st, attempts[0]);
      (if e.answer.Some? then [AnswerOf(e.answer.value)] else []) + Answers(s, e.st, attempts[1..])
  }

  function Final(s: Settings, st: Stored, attempts: seq<Attempt>): Stored
    decreases |attempts|
  {
    if attempts == [] then st else Final(s, Perform(s, st, attempts[0]).st, attempts[1..])
  }

  /** The run without the attempts that failed. */
  function Struck(s: Settings, st: Stored, attempts: seq<Attempt>): seq<Attempt>
    decreases |attempts|
  {
    if attempts == [] then []
    else
      var e := Perform(s, st, attempts[0]);
      (if e.answer.Some? then [attempts[0].(failAt := None)] else []) + Struck(s, e.st, attempts[1..])
  }

  /** The attempt finds no record expired and, if its commit is cut off, it is not one that ends the session. */
  predicate SteadyStep(s: Settings, st: Stored, a: Attempt) {
    var out := Handle(s, st, a.request);
    && Swept(s, st, a.request) == st
    && (out.Answered? && a.failAt.Some? && a.failAt.value < |Writes(out.changes)| ==>
         !CutIsSeen(s, st, a.request, a.failAt.value))
  }

  predicate Steady(s: Settings, st: Stored, attempts: seq<Attempt>)
    decreases |attempts|
  {
    attempts != [] ==> SteadyStep(s, st, attempts[0]) && Steady(s, Perform(s, st, attempts[0]).st, attempts[1..])
  }

  lemma SweepKeepsView(s: Settings, a: Stored, b: Stored, rq: Request)
    requires ViewOf(a) == ViewOf(b) && Swept(s, a, rq) == a && PendingOk(b.pending)
    ensures ViewOf(Swept(s, b, rq)) == ViewOf(b) && PendingOk(Swept(s, b, rq).pending)
  {
    hide TooManyCommands;
  }

  lemma PerformSplits(s: Settings, st: Stored, a: Attempt)
    ensures var st1 := Swept(s, st, a.request);
            var out := Handle(s, st1, a.request);
            Perform(s, st, a) ==
            if out.Refused? then Effect(st1, Some(out))
            else if a.failAt.Some? && a.failAt.value < |Writes(out.changes)|
              then Effect(Cut(st1, out.changes, a.failAt.value), None)
            else Effect(Committed(st1, out), Some(out))
  {
    var st1 := Swept(s, st, a.request);
    var out := Handle(s, st1, a.request);
    hide Handle;
    hide Swept;
    hide ApplyAll;
    if out.Answered? {
      var ws := Writes(out.changes);
      assert ws[..|ws|] == ws;
      hide Writes;
    }
  }

  lemma NextIsPerform(s: Settings, w: World, a: Attempt)
    ensures Next(s, w, a).st == Perform(s, w.st, a).st
  {
    hide Perform;
    hide Chunk;
  }

  lemma SteadyKeepsInv(s: Settings, w: World, a: Attempt)
    requires Inv(w) && SteadyStep(s, w.st, a)
    ensures Inv(Next(s, w, a))
  {
    assert !Straddles(s, w.st, a.request) by {
      hide TooManyCommands; hide Handle; hide Inv; hide CutIsSeen; hide Writes;
    }
    SteadyIsNotCut(s, w.st, a);
    hide Swept; hide Handle; hide Writes; hide Inv; hide Straddles; hide Next; hide CutWhileEnding;
    StepKeeps(s, w, a);
  }

  lemma SteadyIsNotCut(s: Settings, st: Stored, a: Attempt)
    requires PendingOk(st.pending) && SteadyStep(s, st, a)
    ensures !CutWhileEnding(s, st, a)
  {
    hide Swept; hide Handle; hide Writes; hide Leaves; hide Fits; hide Acks; hide ReadsRemainder;
    if Remains(st) { EndsInMidPackage(s, st, a.request, 1); }
  }

  /** A failed attempt changes nothing that can be seen. */
  lemma FailureStep(s: Settings, w: World, a: Attempt)
    requires Inv(w) && SteadyStep(s, w.st, a) && Perform(s, w.st, a).answer.None?
    ensures ViewOf(Perform(s, w.st, a).st) == ViewOf(w.st)
  {
    PerformSplits(s, w.st, a);
    var out := Handle(s, w.st, a.request);
    CutLeaves(s, w, a.request, a.failAt.value);
  }

  /** An answered attempt gives the same answer from any store that looks the same, and leaves it looking the same. */
  lemma SuccessStep(s: Settings, a: Stored, b: Stored, x: Attempt)
    requires PendingOk(a.pending) && PendingOk(b.pending) && ViewOf(a) == ViewOf(b)
    requires Swept(s, a, x.request) == a && Perform(s, a, x).answer.Some?
    ensures var (e, f) := (Perform(s, a, x), Perform(s, b, x.(failAt := None)));
            && f.answer.Some? && AnswerOf(e.answer.value) == AnswerOf(f.answer.value)
            && ViewOf(e.st) == ViewOf(f.st) && PendingOk(f.st.pending)
  {
    SweepKeepsView(s, a, b, x.request);
    PerformSplits(s, a, x);
    PerformSplits(s, b, x.(failAt := None));
    CommitsAlike(s, a, Swept(s, b, x.request), x.request);
    hide Perform;
    hide Swept;
    hide Handle;
    hide Committed;
    hide Cut;
    hide ViewOf;
    hide Writes;
  }

  /**
   Failed attempts can be struck out of a run: the client gets the same answers in the same order,
   and the store looks the same at the end.
   */
  lemma {:induction false} FailuresAreInvisible(s: Settings, w: World, b: Stored, attempts: seq<Attempt>)
    requires Inv(w) && PendingOk(b.pending) && ViewOf(w.st) == ViewOf(b) && Steady(s, w.st, attempts)
    ensures var struck := Struck(s, w.st, attempts);
            && Answers(s, w.st, attempts) == Answers(s, b, struck)
            && ViewOf(Final(s, w.st, attempts)) == ViewOf(Final(s, b, struck))
    decreases |attempts|
  {
    if attempts != [] {
      var x := attempts[0];
      var e := Perform(s, w.st, x);
      SteadyKeepsInv(s, w, x);
      NextIsPerform(s, w, x);
      if e.answer.None? {
        FailureStep(s, w, x);
        hide Perform; hide ViewOf; hide SteadyStep; hide Next; hide FlightOk; hide RemainderOk; hide PhaseOk;
        hide CompletedOk;
        FailuresAreInvisible(s, Next(s, w, x), b, attempts[1..]);
        assert Struck(s, w.st, attempts) == Struck(s, e.st, attempts[1..]);
        assert Answers(s, w.st, attempts) == Answers(s, e.st, attempts[1..]);
      } else {
        SuccessStep(s, w.st, b, x);
        var f := Perform(s, b, x.(failAt := None));
        hide Perform; hide ViewOf; hide SteadyStep; hide Next; hide FlightOk; hide RemainderOk; hide PhaseOk;
        hide CompletedOk;
        FailuresAreInvisible(s, Next(s, w, x), f.st, attempts[1..]);
        var struck := Struck(s, w.st, attempts);
        assert struck[0] == x.(failAt := None) && struck[1..] == Struck(s, e.st, attempts[1..]);
      }
    }
  }

  // ---- one retry ----

  /** The answer to a request that is sent again after its commit was cut off after k writes. */
  function SentAgain(s: Settings, st: Stored, rq: Request, k: nat): Outcome
    requires var out := Handle(s, st, rq); out.Answered? && k <= |Writes(out.changes)|
  {
    var cut := Cut(st, Handle(s, st, rq).changes, k);
    Handle(s, Swept(s, cut, rq), rq)
  }

  lemma SentAgainSucceeds(s: Settings, st: Stored, rq: Request)
    ensures Perform(s, st, Attempt(rq, None)).answer.Some?
  {
    hide Swept; hide Handle; hide ApplyAll; hide Writes;
  }

  /** It is what the client gets for sending twice. */
  lemma SentTwice(s: Settings, st: Stored, rq: Request, k: nat)
    requires Swept(s, st, rq) == st
    requires var out := Handle(s, st, rq); out.Answered? && k < |Writes(out.changes)|
    ensures Answers(s, st, [Attempt(rq, Some(k)), Attempt(rq, None)]) == [AnswerOf(SentAgain(s, st, rq, k))]
  {
    hide Handle; hide Swept; hide Perform; hide Cut; hide Writes; hide Committed; hide AnswerOf;
    var a, b := Attempt(rq, Some(k)), Attempt(rq, None);
    PerformSplits(s, st, a);
    var st1 := Perform(s, st, a).st;
    PerformSplits(s, st1, b);
    assert [a, b][1..] == [b] && [a, b][1..][1..] == [];
    assert Answers(s, st1, [b]) == [AnswerOf(SentAgain(s, st, rq, k))] + Answers(s, Perform(s, st1, b).st, [b][1..]);
    assert Answers(s, st, [a, b]) == Answers(s, st1, [a, b][1..]);
  }

  lemma UnseenIsSame(s: Settings, w: World, rq: Request, k: nat)
    requires Inv(w) && Swept(s, w.st, rq) == w.st && !CutIsSeen(s, w.st, rq, k)
    requires var out := Handle(s, w.st, rq); out.Answered? && k < |Writes(out.changes)|
    ensures AnswerOf(SentAgain(s, w.st, rq, k)) == AnswerOf(Handle(s, w.st, rq))
  {
    hide Handle; hide Swept; hide CutIsSeen; hide Writes; hide Cut; hide ViewOf; hide FlightOk; hide CompletedOk;
    hide RemainderOk; hide PhaseOk; hide AnswerOf;
    CutLeaves(s, w, rq, k);
    var cut := Cut(w.st, Handle(s, w.st, rq).changes, k);
    SweepKeepsView(s, w.st, cut, rq);
    AnswersAlike(s, w.st, Swept(s, cut, rq), rq);
  }

  /** After a cut that shows, the retry finds the session without its remainder, or no session. */
  lemma SeenLeaves(s: Settings, w: World, rq: Request, k: nat)
    requires Inv(w) && Swept(s, w.st, rq) == w.st && CutIsSeen(s, w.st, rq, k)
    requires var out := Handle(s, w.st, rq); out.Answered? && k < |Writes(out.changes)|
    ensures var (out, st) := (Handle(s, w.st, rq), Swept(s, Cut(w.st, Handle(s, w.st, rq).changes, k), rq));
            && PendingOk(st.pending) && !Remains(st)
            && (if out.kind.Continued? then st.session.None? else st.session == w.st.session && st.pending.None?)
            && (out.kind.ClosedByClient? <==> Leaves(rq.message))
            && (out.kind.ClosedByClient? || out.kind.Abandoned? || out.kind.Continued?)
  {
    hide Handle; hide FromStored; hide QueueFor; hide Chunk; hide FlightOk; hide CompletedOk; hide CutIsSeen;
    hide Leaves; hide Acks;
    hide TooManyCommands; hide Pushes;
    EndIsCutWhen(s, w.st, rq, k);
    HandleHasShape(s, w.st, rq);
    var out := Handle(s, w.st, rq);
    if out.kind.Continued? { RemainderLast(w.st, out.changes, k); } else { SessionLast(w.st, out.changes, k); }
    hide Writes; hide Cut;
  }

  /** A client that leaves is answered from its own request alone. */
  lemma LeavingIsSame(s: Settings, a: Stored, b: Stored, rq: Request)
    requires PendingOk(a.pending) && PendingOk(b.pending) && ReadsRemainder(s, rq) && Leaves(rq.message)
    requires a.session.Some? && a.session == b.session
    ensures AnswerOf(Handle(s, a, rq)) == AnswerOf(Handle(s, b, rq))
  {
    hide NextMessage; hide Acks; hide HeaderChallenge; hide Handle; hide S.HasAlert; hide TooManyCommands;
    hide ContinuePackage; hide HandleInit; hide HandleDevInfo; hide HandleFinish;
    BranchOf(s, a, rq);
    BranchOf(s, b, rq);
  }

  /**
   Exactly when a retry gets the same answer. A request whose commit was cut off is answered, when it
   is sent again, as it would have been, unless the cut shows and it is not the client that leaves.
   */
  lemma RetryGetsTheSameAnswer(s: Settings, w: World, rq: Request, k: nat)
    requires Inv(w) && Swept(s, w.st, rq) == w.st
    requires var out := Handle(s, w.st, rq); out.Answered? && k < |Writes(out.changes)|
    ensures Answers(s, w.st, [Attempt(rq, Some(k)), Attempt(rq, None)]) == [AnswerOf(Handle(s, w.st, rq))] <==>
            !(CutIsSeen(s, w.st, rq, k) && !Leaves(rq.message))
  {
    SentTwice(s, w.st, rq, k);
    if !CutIsSeen(s, w.st, rq, k) {
      UnseenIsSame(s, w, rq, k);
    } else {
      SeenIsAnswered(s, w, rq, k);
    }
    hide Handle; hide Answers; hide CutIsSeen; hide Leaves; hide Swept; hide Cut; hide Writes; hide AnswerOf;
    hide SentAgain;
  }

  lemma SeenIsAnswered(s: Settings, w: World, rq: Request, k: nat)
    requires Inv(w) && Swept(s, w.st, rq) == w.st && CutIsSeen(s, w.st, rq, k)
    requires var out := Handle(s, w.st, rq); out.Answered? && k < |Writes(out.changes)|
    ensures AnswerOf(SentAgain(s, w.st, rq, k)) == AnswerOf(Handle(s, w.st, rq)) <==> Leaves(rq.message)
  {
    SeenLeaves(s, w, rq, k);
    assert ReadsRemainder(s, rq) && w.st.session.Some? && PhaseOf(w.st) != Init by {
      hide Handle; hide Swept; hide Leaves; hide Fits;
    }
    hide Handle; hide Swept; hide CutIsSeen; hide Writes; hide Cut; hide FlightOk; hide CompletedOk;
    hide ReadsRemainder; hide Leaves;
    hide RemainderOk; hide PhaseOk; hide Fits; hide CanStart; hide Remains;
    var st := Swept(s, Cut(w.st, Handle(s, w.st, rq).changes, k), rq);
    if Leaves(rq.message) {
      LeavingIsSame(s, w.st, st, rq);
    } else {
      EachKind(s, st, rq);
    }
  }

  /**
   The order of the closing commit does not support the retry: the last message of the closing package,
   lost because its commit stopped after deleting the session, does not come again. The request gets
   400, or with alert 1200 or 1201 a new session's first message or a refusal.
   */
  lemma RetryOfCutCloseIsRefused(s: Settings, w: World, rq: Request, k: nat)
    requires Inv(w) && Swept(s, w.st, rq) == w.st && 2 <= k < 4
    requires Remains(w.st) && ReadsRemainder(s, rq) && !Leaves(rq.message)
    requires w.st.pending.value.messages < MAX_MESSAGES_PER_PACKAGE
    requires PhaseOf(w.st) == Done && Fits(s, w.st, rq.message, RestOf(s, w.st, rq.message))
    ensures var lost := Handle(s, w.st, rq);
            lost.Answered? && lost.status == 200 && lost.finished && lost.reply.Some? && |Writes(lost.changes)| == 4
    ensures var e := Perform(s, w.st, Attempt(rq, Some(k)));
            var again := Perform(s, e.st, Attempt(rq, None));
            && e.answer.None? && again.answer.Some?
            && var x := again.answer.value;
               if Opens(rq.message)
               then x.Refused? || (x.Answered? && x.kind.Started? && x.kind.phase == DevInfo)
               else x.Answered? && x.status == 400 && x.reply.None?
  {
    ClosingAnswer(s, w.st, rq);
    PerformSplits(s, w.st, Attempt(rq, Some(k)));
    var st := Cut(w.st, Handle(s, w.st, rq).changes, k);
    PerformSplits(s, st, Attempt(rq, None));
    SeenLeaves(s, w, rq, k);
    hide Handle; hide Swept; hide Perform; hide Cut; hide Committed; hide Writes; hide Inv;
    hide ReadsRemainder; hide Leaves; hide Opens;
    hide Fits; hide Acks; hide CutIsSeen;
    NewSession(s, Swept(s, st, rq), rq);
  }

  lemma ClosingAnswer(s: Settings, st: Stored, rq: Request)
    requires PendingOk(st.pending) && Remains(st) && ReadsRemainder(s, rq) && !Leaves(rq.message)
    requires st.pending.value.messages < MAX_MESSAGES_PER_PACKAGE
    requires PhaseOf(st) == Done && Fits(s, st, rq.message, RestOf(s, st, rq.message))
    ensures var out := Handle(s, st, rq);
            && out.Answered? && out.kind.Continued? && out.changes.deleteSession
            && out.status == 200 && out.finished && out.reply.Some? && |Writes(out.changes)| == 4
  {
    EndsPackageWhen(s, st, rq);
    HandleHasShape(s, st, rq);
    BranchOf(s, st, rq);
    hide Handle; hide Fits; hide ReadsRemainder; hide Leaves; hide FromStored; hide NextMessage; hide Acks;
    hide Absorbed;
    hide HeaderChallenge; hide FailuresIn; hide Rest; hide ToStored; hide QueueFor; hide StartOk;
  }

  lemma OpensStarts(s: Settings, st: Stored, m: S.Message, x: Session, changes: Changes)
    requires Opens(m)
    ensures var out := HandleInit(s, st, m, x, changes); out.Answered? ==>
        out.kind.Started? && out.kind.phase == DevInfo
  {
    hide NextMessage; hide Acks; hide Absorbed; hide HeaderChallenge; hide ToStored; hide Rest; hide Gets;
    hide T.DeviceQueryUris;
    hide S.HasAlert;
    AlertsAreFound(m);
    hide Opens;
  }

  lemma NewSession(s: Settings, st: Stored, rq: Request)
    requires PendingOk(st.pending) && st.session.None? && ReadsRemainder(s, rq) && !Leaves(rq.message)
    ensures var out := Handle(s, st, rq);
            if !Opens(rq.message) then out.Answered? && out.status == 400 && out.reply.None?
            else out.Refused? || (out.Answered? && out.kind.Started? && out.kind.phase == DevInfo)
  {
    hide Handle; hide StartPackage; hide ContinuePackage; hide CloseForClient; hide HandleDevInfo;
    hide HandleFinish; hide Absorbed;
    hide ReadsRemainder; hide Leaves; hide S.HasAlert; hide Acks; hide Gets; hide T.DeviceQueryUris;
    hide QueueFor; hide StartOk;
    BranchOf(s, st, rq);
    AlertsAreFound(rq.message);
    hide Opens;
    HandleHasShape(s, st, rq);
    ReadsNeeds(s, rq);
    AcceptedIsHandled(s, st, rq);
    var x, changes := SessionNow(s, st, rq), NO_CHANGES.(deletePending := Stale(st));
    if Opens(rq.message) { OpensStarts(s, st, rq.message, x, changes); }
  }
}
