/**
 What every interleaving of issues, verifications and discards keeps, counted in its commits:
 src/acs/auth/otp.py:116-178, src/acs/store/dynamodb.py:214-293, src/acs/domain/service.py:296-331.
 */
module OtpSafety {
  import opened Wrappers
  import opened Otp
  import opened OtpSteps
  import opened OtpRefinement

  // ---- counting ----

  /** The commits that concern one challenge id. */
  datatype Tally = Tally(issues: nat, mismatches: nat, verified: nat, exhausted: nat, taken: nat) {
    /** Guesses that were committed against the challenge. */
    function Guesses(): nat { mismatches + verified + exhausted }

    /** Commits that removed it. */
    function Ends(): nat { verified + exhausted + taken }
  }

  function Counted(t: Tally, e: Event, id: string): Tally {
    match e
    case Issued(x, _) => if x == id then t.(issues := t.issues + 1) else t
    case Guessed(x, _, _, outcome) =>
      if x != id then t
      else if outcome == Verified then t.(verified := t.verified + 1)
      else if outcome == Mismatch then t.(mismatches := t.mismatches + 1)
      else t.(exhausted := t.exhausted + 1)
    case Cleaned(x) => if x == id then t.(taken := t.taken + 1) else t
    case Removed(x) => if x == id then t.(taken := t.taken + 1) else t
  }

  function TallyOf(log: seq<Event>, id: string): Tally {
    if log == [] then Tally(0, 0, 0, 0, 0) else Counted(TallyOf(log[..|log| - 1], id), log[|log| - 1], id)
  }

  /** The tally after one more commit, if there is one. */
  function TallyAfter(t: Tally, e: Option<Event>, id: string): Tally {
    if e.None? then t else Counted(t, e.value, id)
  }

  lemma TallyOne(log: seq<Event>, e: Option<Event>, id: string)
    ensures TallyOf(Logged(log, e), id) == TallyAfter(TallyOf(log, id), e, id)
  {
    if e.Some? { assert (log + [e.value])[..|log|] == log; }
  }

  // ---- ids are used once ----

  /** The challenge a request has drawn up and not stored. */
  function Unstored(p: Process): Option<string> {
    match p
    case ReadQuota(c, _, _) => Some(c.id)
    case ReadChallenge(c, _, _, _) => Some(c.id)
    case WriteBoth(c, _, _, _, _) => Some(c.id)
    case NotIssued(c, _) => Some(c.id)
    case _ => None
  }

  /** Drawn, and in no commit. */
  predicate Uncommitted(w: World, id: string) {
    id in w.drawn && TallyOf(w.log, id) == Tally(0, 0, 0, 0, 0)
  }

  ghost predicate Waiting(w: World) {
    forall i :: 0 <= i < |w.procs| && Unstored(w.procs[i]).Some? ==> Uncommitted(w, Unstored(w.procs[i]).value)
  }

  ghost predicate Distinct(procs: seq<Process>) {
    forall i, j :: 0 <= i < j < |procs| && Unstored(procs[i]).Some? ==> Unstored(procs[i]) != Unstored(procs[j])
  }

  ghost predicate IdsOk(w: World) {
    Waiting(w) && Distinct(w.procs)
  }

  // ---- the accounts of one id ----

  /** The attempts stored under an id, if it is the stored one. */
  function AttemptsOf(t: Table, id: string): Option<int> {
    if t.challenge.Some? && t.challenge.value.id == id then Some(t.challenge.value.attempts) else None
  }

  predicate TallyOk(o: Policy, t: Tally, drawn: bool, attempts: Option<int>) {
    && t.issues <= 1 && t.Ends() <= 1
    && (t.Guesses() == 0 || t.Guesses() <= o.maxAttempts)
    && (t.issues == 0 ==> t == Tally(0, 0, 0, 0, 0))
    && (!drawn ==> t.issues == 0)
    && (attempts.Some? ==>
          && t.issues == 1 && t.Ends() == 0
          && t.mismatches == attempts.value
          && (t.mismatches == 0 || t.mismatches < o.maxAttempts))
  }

  ghost predicate AccountsOk(o: Policy, w: World) {
    forall id: string :: TallyOk(o, TallyOf(w.log, id), id in w.drawn, AttemptsOf(w.table, id))
  }

  // ---- preservation ----

  lemma StepKeepsIds(o: Policy, w: World, a: Action)
    requires Sound(o, w) && IdsOk(w) && AccountsOk(o, w)
    ensures IdsOk(Step(o, w, a))
  {
    hide Turn; hide TallyOf; hide Sound; hide Waiting; hide Distinct; hide AccountsOk;
    match a
    case Continue(i, choice) =>
      if i < |w.procs| {
        UnstoredStays(o, w, i, choice);
        DistinctStays(w.procs, Step(o, w, a).procs, i);
        WaitingStays(o, w, a);
      }
    case StartVerify(otp, now) =>
      Arrived(w, Step(o, w, a), ReadToVerify(otp, now, VERIFY_ROUNDS));
    case StartIssue(c, now) =>
      if IsNew(o, w, c, now) {
        NewIsUncommitted(o, w, c.id);
        Arrived(w, Step(o, w, a), ReadQuota(c, now, OTP_WRITE_ROUNDS));
      }
  }

  lemma NewIsUncommitted(o: Policy, w: World, id: string)
    requires AccountsOk(o, w) && id !in w.drawn
    ensures TallyOf(w.log, id) == Tally(0, 0, 0, 0, 0)
  {
    hide TallyOf;
    assert TallyOk(o, TallyOf(w.log, id), id in w.drawn, AttemptsOf(w.table, id));
  }

  /** One more request, with an id of its own if it is to issue. */
  lemma Arrived(w: World, w': World, p: Process)
    requires IdsOk(w) && w'.procs == w.procs + [p] && w'.log == w.log && w.drawn.Keys <= w'.drawn.Keys
    requires Unstored(p).Some? ==> Uncommitted(w', Unstored(p).value) && Unstored(p).value !in w.drawn
    ensures IdsOk(w')
  {
    hide TallyOf; hide Unstored;
    var n := |w.procs|;
    assert w'.procs[n] == p;
    forall i | 0 <= i < |w'.procs| && Unstored(w'.procs[i]).Some?
      ensures Uncommitted(w', Unstored(w'.procs[i]).value)
      ensures i < n ==> Unstored(w'.procs[i]).value in w.drawn
    {
      if i < n { assert w'.procs[i] == w.procs[i] && Uncommitted(w, Unstored(w.procs[i]).value); }
    }
    hide Uncommitted;
    forall i, j | 0 <= i < j < |w'.procs| && Unstored(w'.procs[i]).Some?
      ensures Unstored(w'.procs[i]) != Unstored(w'.procs[j])
    {
      assert w'.procs[i] == w.procs[i];
      if j < n { assert w'.procs[j] == w.procs[j]; }
    }
  }

  lemma DistinctStays(procs: seq<Process>, procs': seq<Process>, i: nat)
    requires Distinct(procs) && i < |procs| == |procs'| && procs' == procs[i := procs'[i]]
    requires Unstored(procs'[i]).Some? ==> Unstored(procs'[i]) == Unstored(procs[i])
    ensures Distinct(procs')
  {
    hide Unstored;
    forall j, k | 0 <= j < k < |procs'| && Unstored(procs'[j]).Some?
      ensures Unstored(procs'[j]) != Unstored(procs'[k])
    {
      assert Unstored(procs[j]) == Unstored(procs'[j]);
      assert Unstored(procs'[k]).Some? ==> Unstored(procs'[k]) == Unstored(procs[k]);
    }
  }

  /** A process never takes up another's challenge. */
  lemma UnstoredStays(o: Policy, w: World, i: nat, choice: Choice)
    requires i < |w.procs|
    ensures var w' := Turn(o, w, i, choice);
            && |w'.procs| == |w.procs| && w'.procs == w.procs[i := w'.procs[i]] && w'.drawn == w.drawn
            && (Unstored(w'.procs[i]).Some? ==> Unstored(w'.procs[i]) == Unstored(w.procs[i]))
  {
    OneMoves(o, w, i, choice);
    hide Decide; hide Judge; hide Commits; hide ChallengeUnchanged; hide Seen; hide SetChallenge;
    hide SetQuota; hide Recent;
  }

  lemma OneMoves(o: Policy, w: World, i: nat, choice: Choice)
    requires i < |w.procs|
    ensures var w' := Turn(o, w, i, choice);
            |w'.procs| == |w.procs| && w'.procs == w.procs[i := w'.procs[i]] && w'.drawn == w.drawn
  {
    hide Decide; hide Judge; hide Commits; hide ChallengeUnchanged; hide Seen; hide Recent;
  }

  /** A challenge that is stored is no longer waiting to be. */
  lemma IssuerStores(o: Policy, w: World, i: nat, choice: Choice)
    requires i < |w.procs| && EffectOf(o, w, Continue(i, choice)).Issues?
    ensures Unstored(Turn(o, w, i, choice).procs[i]).None?
    ensures Unstored(w.procs[i]) == Some(EffectOf(o, w, Continue(i, choice)).c.id)
  {
    hide Recent; hide ChallengeUnchanged; hide QuotaUnchanged;
  }

  lemma WaitingStays(o: Policy, w: World, a: Action)
    requires Sound(o, w) && IdsOk(w) && AccountsOk(o, w)
    requires a.Continue? && a.i < |w.procs|
    ensures Waiting(Step(o, w, a))
  {
    hide Turn; hide Sound; hide AccountsOk; hide EffectOf; hide Uncommitted; hide IdsOk; hide Unstored;
    var w' := Step(o, w, a);
    UnstoredStays(o, w, a.i, a.choice);
    if EffectOf(o, w, a).Issues? { IssuerStores(o, w, a.i, a.choice); }
    forall k | 0 <= k < |w'.procs| && Unstored(w'.procs[k]).Some?
      ensures Uncommitted(w', Unstored(w'.procs[k]).value)
    {
      assert Unstored(w'.procs[k]) == Unstored(w.procs[k]);
      StillUncommitted(o, w, a, EffectOf(o, w, a), Unstored(w.procs[k]).value, k);
    }
  }

  /** What a process has drawn up and not stored is not in any commit. */
  lemma StillUncommitted(o: Policy, w: World, a: Action, e: Effect, id: string, k: nat)
    requires Sound(o, w) && IdsOk(w) && AccountsOk(o, w) && a.Continue? && a.i < |w.procs| && e == EffectOf(o, w, a)
    requires k < |w.procs| && Unstored(w.procs[k]) == Some(id)
    requires e.Issues? ==> k != a.i && Unstored(w.procs[a.i]) == Some(e.c.id)
    ensures Uncommitted(Step(o, w, a), id)
  {
    assert Uncommitted(w, id) by {
      hide Uncommitted; hide Unstored; hide Distinct; hide Sound; hide AccountsOk; hide EffectOf;
    }
    hide Sound; hide EffectOf; hide Unstored; hide Uncommitted; hide AccountsOk; hide Waiting;
    if e.Issues? { Apart(w.procs, k, a.i); }
    hide Distinct;
    NotCommittedNow(o, w, a, e, id);
  }

  lemma Apart(procs: seq<Process>, i: nat, j: nat)
    requires Distinct(procs) && i < |procs| && j < |procs| && i != j && Unstored(procs[i]).Some?
    ensures Unstored(procs[i]) != Unstored(procs[j])
  {
    hide Unstored;
    if j < i && Unstored(procs[j]).Some? { assert Unstored(procs[j]) != Unstored(procs[i]); }
  }

  lemma NotCommittedNow(o: Policy, w: World, a: Action, e: Effect, id: string)
    requires Sound(o, w) && AccountsOk(o, w) && Uncommitted(w, id) && e == EffectOf(o, w, a)
    requires e.Issues? ==> e.c.id != id
    ensures Uncommitted(Step(o, w, a), id)
  {
    hide *;
    UncommittedIsNotStored(o, w, id);
    TallyStays(o, w, a, e, id);
    StillUncounted(o, w, a, id);
  }

  lemma UncommittedIsNotStored(o: Policy, w: World, id: string)
    requires AccountsOk(o, w) && Uncommitted(w, id)
    ensures AttemptsOf(w.table, id).None?
  {
    hide TallyOk;
    assert TallyOk(o, TallyOf(w.log, id), id in w.drawn, AttemptsOf(w.table, id));
    NotStored(o, TallyOf(w.log, id), id in w.drawn, AttemptsOf(w.table, id));
  }

  lemma TallyStays(o: Policy, w: World, a: Action, e: Effect, id: string)
    requires Sound(o, w) && e == EffectOf(o, w, a) && AttemptsOf(w.table, id).None?
    requires e.Issues? ==> e.c.id != id
    ensures TallyOf(Step(o, w, a).log, id) == TallyOf(w.log, id)
  {
    StepIsAtomic(o, w, a);
    hide Sound; hide EffectOf; hide Step; hide Allowed; hide EventOf; hide Logged; hide TallyAfter;
    TallyOne(w.log, EventOf(o, w.table, e), id);
    hide TallyOf; hide AttemptsOf;
    Uncounted(o, w.table, e, TallyOf(w.log, id), id);
  }

  lemma StillUncounted(o: Policy, w: World, a: Action, id: string)
    requires Uncommitted(w, id) && TallyOf(Step(o, w, a).log, id) == TallyOf(w.log, id)
    ensures Uncommitted(Step(o, w, a), id)
  {
    DrawnStays(o, w, a);
    hide TallyOf; hide Step;
  }

  lemma Uncounted(o: Policy, t: Table, e: Effect, tally: Tally, id: string)
    requires Allowed(o, t, e) && AttemptsOf(t, id).None? && (e.Issues? ==> e.c.id != id)
    ensures TallyAfter(tally, EventOf(o, t, e), id) == tally
  {
    if !e.Quiet? {
      EffectConcerns(o, t, e, id);
      hide EventOf; hide Counted; hide Subject;
      OthersUncounted(tally, EventOf(o, t, e).value, id);
    }
    hide Decide; hide Judge;
  }

  lemma NotStored(o: Policy, t: Tally, drawn: bool, attempts: Option<int>)
    requires TallyOk(o, t, drawn, attempts) && t == Tally(0, 0, 0, 0, 0)
    ensures attempts.None?
  {
  }

  lemma DrawnStays(o: Policy, w: World, a: Action)
    ensures w.drawn.Keys <= Step(o, w, a).drawn.Keys
  {
    hide Decide; hide Judge; hide Recent; hide Unchanged; hide Turn;
    if a.Continue? && a.i < |w.procs| { UnstoredStays(o, w, a.i, a.choice); }
  }

  lemma IssuerIsFresh(o: Policy, w: World, a: Action)
    requires Sound(o, w) && IdsOk(w) && EffectOf(o, w, a).Issues?
    ensures var c := EffectOf(o, w, a).c;
            c.attempts == 0 && c.id in w.drawn && TallyOf(w.log, c.id) == Tally(0, 0, 0, 0, 0)
  {
    var p := w.procs[a.i];
    assert ProcOk(o, w, p);
    assert Unstored(p) == Some(p.c.id);
    hide TallyOf; hide Decide; hide ProcsOk; hide PastOk; hide QuotasOk;
  }

  /** Whom a commit concerns. */
  function Subject(e: Event): string {
    match e
    case Issued(x, _) => x
    case Guessed(x, _, _, _) => x
    case Cleaned(x) => x
    case Removed(x) => x
  }

  lemma OthersUncounted(tally: Tally, e: Event, id: string)
    requires Subject(e) != id
    ensures Counted(tally, e, id) == tally
  {
  }

  lemma IssueCounts(o: Policy, tally: Tally, id: string, now: Instant)
    requires tally == Tally(0, 0, 0, 0, 0)
    ensures TallyOk(o, Counted(tally, Issued(id, now), id), true, Some(0))
  {
  }

  lemma RemovalCounts(o: Policy, tally: Tally, drawn: bool, id: string, attempts: int)
    requires TallyOk(o, tally, drawn, Some(attempts))
    ensures TallyOk(o, Counted(tally, Removed(id), id), drawn, None)
  {
  }

  lemma NoLongerStored(o: Policy, tally: Tally, drawn: bool, attempts: Option<int>)
    requires TallyOk(o, tally, drawn, attempts)
    ensures TallyOk(o, tally, drawn, None)
  {
  }

  /** What a commit leaves stored, and whom it concerns. */
  lemma EffectConcerns(o: Policy, t: Table, e: Effect, id: string)
    requires Allowed(o, t, e) && !e.Quiet?
    ensures EventOf(o, t, e).Some?
    ensures var x := Subject(EventOf(o, t, e).value);
            && x == (if e.Issues? then e.c.id else t.challenge.value.id)
            && (x != id ==> AttemptsOf(Apply(o, t, e), id) == if e.Issues? then None else AttemptsOf(t, id))
            && (e.Discards? ==> EventOf(o, t, e) == Some(Removed(x)) && AttemptsOf(Apply(o, t, e), id).None?)
  {
    hide Decide; hide Recent;
  }

  /** The accounts of one id through one commit. */
  lemma OneAccount(o: Policy, t: Table, e: Effect, tally: Tally, drawn: bool, id: string)
    requires Allowed(o, t, e) && TallyOk(o, tally, drawn, AttemptsOf(t, id))
    requires e.Issues? ==> e.c.attempts == 0 && (e.c.id == id ==> drawn && tally == Tally(0, 0, 0, 0, 0))
    ensures TallyOk(o, TallyAfter(tally, EventOf(o, t, e), id), drawn, AttemptsOf(Apply(o, t, e), id))
  {
    hide TallyOk; hide Counted; hide Decide; hide Recent; hide Allowed;
    if !e.Quiet? {
      EffectConcerns(o, t, e, id);
      NoLongerStored(o, tally, drawn, AttemptsOf(t, id));
      var x := Subject(EventOf(o, t, e).value);
      if x != id {
        OthersUncounted(tally, EventOf(o, t, e).value, id);
        hide EventOf; hide Apply; hide AttemptsOf; hide Subject;
      } else if e.Issues? {
        IssueCounts(o, tally, id, e.now);
      } else if e.Discards? {
        RemovalCounts(o, tally, drawn, id, t.challenge.value.attempts);
      } else {
        Verdict(o, t.challenge.value, e.otp, e.now, tally, drawn, id);
        hide Judge;
      }
    }
  }

  /** A verdict on the stored challenge: a wrong guess is one more attempt, anything else removes it. */
  lemma Verdict(o: Policy, c: Challenge, otp: string, now: Instant, tally: Tally, drawn: bool, id: string)
    requires c.id == id && TallyOk(o, tally, drawn, Some(c.attempts))
    ensures var j := Judge(o, c, otp, now);
            var after := Counted(tally, if j.guess then Guessed(id, now, otp, j.outcome) else Cleaned(id), id);
            && TallyOk(o, after, drawn, if j.replacement.Some? then Some(j.replacement.value.attempts) else None)
            && (j.replacement.Some? ==> j.replacement.value.id == id)
  {
  }

  lemma StepKeepsAccounts(o: Policy, w: World, a: Action)
    requires Sound(o, w) && IdsOk(w) && AccountsOk(o, w)
    ensures AccountsOk(o, Step(o, w, a))
  {
    var w' := Step(o, w, a);
    var e := EffectOf(o, w, a);
    StepIsAtomic(o, w, a);
    DrawnStays(o, w, a);
    if e.Issues? { IssuerIsFresh(o, w, a); }
    hide Sound; hide Step; hide EffectOf; hide TallyOf; hide IdsOk; hide Recent; hide Decide;
    forall id: string
      ensures TallyOk(o, TallyOf(w'.log, id), id in w'.drawn, AttemptsOf(w'.table, id))
    {
      TallyOne(w.log, EventOf(o, w.table, e), id);
      assert TallyOk(o, TallyOf(w.log, id), id in w.drawn, AttemptsOf(w.table, id));
      OneAccount(o, w.table, e, TallyOf(w.log, id), id in w.drawn, id);
    }
  }

  // ---- whole runs ----

  ghost predicate Kept(o: Policy, w: World) {
    Sound(o, w) && IdsOk(w) && AccountsOk(o, w)
  }

  lemma EmptyIsKept(o: Policy)
    ensures Kept(o, EMPTY)
  {
    hide TallyOk; hide Sound;
    EmptyIsSound(o);
    forall id: string
      ensures TallyOk(o, TallyOf(EMPTY.log, id), id in EMPTY.drawn, AttemptsOf(EMPTY.table, id))
    {
      NoneIsOk(o);
    }
  }

  lemma NoneIsOk(o: Policy)
    ensures TallyOk(o, Tally(0, 0, 0, 0, 0), false, None)
  {
  }

  /** What a tally in order says. */
  lemma InOrder(o: Policy, t: Tally, drawn: bool, attempts: Option<int>)
    requires TallyOk(o, t, drawn, attempts)
    ensures t.issues <= 1 && t.verified <= 1 && t.Ends() <= 1
    ensures 0 < t.Guesses() ==> t.Guesses() <= o.maxAttempts
    ensures attempts.Some? ==> attempts.value == t.mismatches == t.Guesses()
    ensures t.Ends() == 1 ==> attempts.None?
  {
  }

  lemma {:induction false} RunKeeps(o: Policy, w: World, actions: seq<Action>)
    requires Kept(o, w)
    ensures Kept(o, Run(o, w, actions))
    decreases |actions|
  {
    if actions != [] {
      hide Sound; hide IdsOk; hide AccountsOk; hide Step;
      StepKeepsSound(o, w, actions[0]);
      StepKeepsIds(o, w, actions[0]);
      StepKeepsAccounts(o, w, actions[0]);
      RunKeeps(o, Step(o, w, actions[0]), actions[1..]);
    }
  }

  /**
   In every interleaving: an id is stored at most once and removed at most once; at most one guess
   against it is VERIFIED; at most max_attempts guesses are ever committed against it; and while it
   is stored its attempts are exactly the committed mismatches.
   */
  lemma OneSuccessPerIssue(o: Policy, actions: seq<Action>, id: string)
    ensures var w := Run(o, EMPTY, actions);
            var t := TallyOf(w.log, id);
            && t.issues <= 1 && t.verified <= 1 && t.Ends() <= 1
            && (0 < t.Guesses() ==> t.Guesses() <= o.maxAttempts)
            && (AttemptsOf(w.table, id).Some? ==> AttemptsOf(w.table, id).value == t.mismatches == t.Guesses())
            && (t.Ends() == 1 ==> AttemptsOf(w.table, id).None?)
  {
    hide Run; hide Sound; hide IdsOk; hide TallyOf; hide TallyOk; hide AttemptsOf;
    EmptyIsKept(o);
    RunKeeps(o, EMPTY, actions);
    var w := Run(o, EMPTY, actions);
    assert TallyOk(o, TallyOf(w.log, id), id in w.drawn, AttemptsOf(w.table, id));
    InOrder(o, TallyOf(w.log, id), id in w.drawn, AttemptsOf(w.table, id));
  }

  /** An issue that was refused, met contention or failed has stored nothing, ever. */
  lemma NotIssuedStoredNothing(o: Policy, actions: seq<Action>, i: nat)
    requires i < |Run(o, EMPTY, actions).procs| && Run(o, EMPTY, actions).procs[i].NotIssued?
    ensures var w := Run(o, EMPTY, actions);
            var id := w.procs[i].c.id;
            TallyOf(w.log, id) == Tally(0, 0, 0, 0, 0) && AttemptsOf(w.table, id).None?
  {
    EmptyIsKept(o);
    RunKeeps(o, EMPTY, actions);
    var w := Run(o, EMPTY, actions);
    hide Run; hide Sound; hide TallyOf; hide TallyOk; hide Distinct;
    assert Uncommitted(w, Unstored(w.procs[i]).value);
    UncommittedIsNotStored(o, w, w.procs[i].c.id);
  }

  // ---- what one step means ----

  /**
   A verdict of VERIFIED is given in exactly the steps that commit one: the challenge stored at that
   instant matched, was not expired and had attempts left, and it is gone afterwards.
   */
  lemma VerifiedIsEarned(o: Policy, w: World, i: nat, choice: Choice)
    requires Sound(o, w) && i < |w.procs| && !w.procs[i].Judged?
    ensures var (p, w') := (w.procs[i], Turn(o, w, i, choice));
            w'.procs[i] == Judged(Verified) <==>
              && p.WriteVerdict? && !choice.fault && w.table.challenge == Some(p.read)
              && p.read.otpHash == o.hash(p.read.msisdn, p.otp) && !p.read.Expired(p.now)
                 && p.read.attempts < o.maxAttempts
    ensures var (p, w') := (w.procs[i], Turn(o, w, i, choice));
            w'.procs[i] == Judged(Verified) ==>
              w'.table == w.table.(challenge := None) && w'.log == w.log + [Guessed(p.read.id, p.now, p.otp, Verified)]
  {
    hide ProcsOk; hide PastOk; hide QuotasOk; hide DrawnOk; hide Decide; hide Drawn; hide ChallengeUnchanged;
    hide QuotaSeen;
    hide Own; hide QuotaUnchanged; hide Recent; hide Seen;
    var p := w.procs[i];
    ProcsOkAt(o, w, i);
    SeenAtFirst(w);
    if p.WriteVerdict? { NoFalseMatch(o, w, Some(p.read), w.quotas[0]); }
  }

  /** A late discard removes its own challenge, whatever its attempts, or changes nothing. */
  lemma DiscardTakesOnlyItsOwn(o: Policy, w: World, i: nat, choice: Choice)
    requires Sound(o, w) && i < |w.procs| && (w.procs[i].ReadToDiscard? || w.procs[i].DeleteChallenge?)
    ensures var (c, w') := (w.procs[i].c, Turn(o, w, i, choice));
            || (w'.table == w.table && w'.log == w.log && w'.procs[i] != Discarded(c, true))
            || (w.table.challenge.Some? && w.table.challenge.value.id == c.id && w'.table == w.table.(challenge := None)
                && w'.log == w.log + [Removed(c.id)] && w'.procs[i] == Discarded(c, true))
  {
    StepIsAtomic(o, w, Continue(i, choice));
    assert ProcOk(o, w, w.procs[i]);
    hide ProcsOk; hide PastOk; hide QuotasOk; hide DrawnOk;
  }

  /** Undisturbed, it removes the challenge exactly if that is the stored one. */
  lemma DiscardAlone(o: Policy, w: World, i: nat)
    requires Sound(o, w) && i < |w.procs| && w.procs[i].ReadToDiscard? && 0 < w.procs[i].rounds
    ensures var calm := Choice(false, 0, false);
            var (c, w2) := (w.procs[i].c, Run(o, w, [Continue(i, calm), Continue(i, calm)]));
            && i < |w2.procs|
            && if w.table.challenge.Some? && w.table.challenge.value.id == c.id
            then w2.table == w.table.(challenge := None) && w2.procs[i] == Discarded(c, true)
            else w2.table == w.table && w2.procs[i] == Discarded(c, false)
  {
    var calm := Choice(false, 0, false);
    var two := [Continue(i, calm), Continue(i, calm)];
    var c, w1 := w.procs[i].c, Step(o, w, Continue(i, calm));
    assert ProcOk(o, w, w.procs[i]);
    if w.table.challenge.Some? { assert Drawn(w, w.past[|w.past| - 1].value); }
    hide ProcsOk; hide QuotasOk; hide Decide; hide Judge;
    assert Seen(w, 0) == w.table.challenge;
    assert two[1..] == [Continue(i, calm)] && two[1..][1..] == [];
    assert Run(o, w, two) == Run(o, w1, two[1..]) == Run(o, Step(o, w1, Continue(i, calm)), two[1..][1..]);
  }
}
