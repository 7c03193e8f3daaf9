/**
 The optimistic loops as the source runs them, each one a process among others at the table:
 src/acs/store/dynamodb.py:209-293 and src/acs/auth/otp.py:116-178.

 Before every call of the table the other requests may do anything. Each method is proved to be a
 run of its process, so what OtpSafety and OtpLimits prove of all runs holds of these loops.
 */
module OtpStore {
  import opened Wrappers
  import opened Otp
  import opened OtpSteps
  import A = OtpAlone
  import S = OtpSafety

  /** What the other requests do before one call, and how that call goes. */
  datatype Interlude = Interlude(actions: seq<Action>, choice: Choice)

  predicate Touches(a: Action, me: nat) {
    a.Continue? && a.i == me
  }

  function Without(actions: seq<Action>, me: nat): (r: seq<Action>)
    ensures forall k :: 0 <= k < |r| ==> !Touches(r[k], me)
  {
    if actions == [] then []
    else (if Touches(actions[0], me) then [] else [actions[0]]) + Without(actions[1..], me)
  }

  lemma {:induction false} OthersLeaveMe(o: Policy, w: World, actions: seq<Action>, me: nat)
    requires me < |w.procs| && forall k :: 0 <= k < |actions| ==> !Touches(actions[k], me)
    ensures var w' := Run(o, w, actions); me < |w'.procs| && w'.procs[me] == w.procs[me]
    decreases |actions|
  {
    if actions != [] {
      OneLeavesMe(o, w, actions[0], me);
      hide Step;
      OthersLeaveMe(o, Step(o, w, actions[0]), actions[1..], me);
    }
  }

  lemma OneLeavesMe(o: Policy, w: World, a: Action, me: nat)
    requires me < |w.procs| && !Touches(a, me)
    ensures var w' := Step(o, w, a); me < |w'.procs| && w'.procs[me] == w.procs[me]
  {
    hide Turn;
    if a.Continue? && a.i < |w.procs| { S.OneMoves(o, w, a.i, a.choice); }
  }

  lemma {:induction false} RunThen(o: Policy, w: World, first: seq<Action>, second: seq<Action>)
    ensures Run(o, w, first + second) == Run(o, Run(o, w, first), second)
    decreases |first|
  {
    hide Step;
    if first == [] {
      assert first + second == second;
    } else {
      assert (first + second)[1..] == first[1..] + second;
      RunThen(o, Step(o, w, first[0]), first[1..], second);
    }
  }

  lemma RunOne(o: Policy, w: World, a: Action)
    ensures Run(o, w, [a]) == Step(o, w, a)
  {
    hide Step;
    assert Run(o, w, [a]) == Run(o, Step(o, w, a), [a][1..]);
  }

  /** Where an issuing process is after its next call. */
  lemma IssuerMoves(o: Policy, w: World, me: nat, choice: Choice)
    requires me < |w.procs|
    ensures var (p, w') := (w.procs[me], Turn(o, w, me, choice));
            && (p.ReadQuota? || p.ReadChallenge? || p.WriteBoth? ==> |w'.procs| == |w.procs|)
            && (p.ReadQuota? && 0 < p.rounds ==>
                  w'.procs[me] == if choice.fault then NotIssued(p.c, Fault)
                                  else ReadChallenge(p.c, p.now, p.rounds - 1, w.table.quota))
            && (p.ReadChallenge? ==>
                  var refused := Decide(o, w.table.challenge, SendsOf(p.quota), p.now);
                  w'.procs[me] == if choice.fault then NotIssued(p.c, Fault)
                                  else if refused.Some? then NotIssued(p.c, Refused(refused.value))
                                  else WriteBoth(p.c, p.now, p.rounds, p.quota, w.table.challenge))
            && (p.WriteBoth? ==>
                  w'.procs[me] == if choice.fault then NotIssued(p.c, Fault)
                                  else if Commits(w, p, choice) then Sending(p.c) else ReadQuota(p.c, p.now, p.rounds))
  {
    hide Decide; hide Recent; hide QuotaUnchanged; hide ChallengeUnchanged;
  }

  lemma RoundsAreUp(o: Policy, w: World, me: nat)
    requires me < |w.procs| && w.procs[me].ReadQuota? && w.procs[me].rounds == 0
    ensures |Turn(o, w, me, CALM).procs| == |w.procs|
    ensures Turn(o, w, me, CALM).procs[me] == NotIssued(w.procs[me].c, Contention)
  {
  }

  class DynamoDbStore {
    const policy: Policy
    var w: World
    var interludes: seq<Interlude>

    constructor (policy: Policy, interludes: seq<Interlude>)
      ensures this.policy == policy && w == EMPTY && this.interludes == interludes
    {
      this.policy, w, this.interludes := policy, EMPTY, interludes;
    }

    /** Time passes before a call: the others run, and it is settled how the call will go. */
    method Wait(me: nat) returns (choice: Choice, ghost done: seq<Action>)
      requires me < |w.procs|
      modifies this
      ensures w == Run(policy, old(w), done)
      ensures me < |w.procs| && w.procs[me] == old(w).procs[me]
      ensures old(interludes) == [] ==> choice == CALM && w == old(w) && interludes == []
    {
      if interludes == [] {
        done := [];
        return CALM, done;
      }
      var next := interludes[0];
      done := Without(next.actions, me);
      OthersLeaveMe(policy, w, Without(next.actions, me), me);
      w := Run(policy, w, Without(next.actions, me));
      interludes := interludes[1..];
      choice := next.choice;
    }

    /** One call of the table: the process takes its step. */
    method Call(me: nat, choice: Choice, ghost before: World, ghost done: seq<Action>)
      returns (ghost after: seq<Action>)
      requires me < |w.procs| && w == Run(policy, before, done)
      modifies this`w
      ensures w == Turn(policy, old(w), me, choice) && w == Run(policy, before, after) && |w.procs| == |old(w).procs|
    {
      hide Turn; hide Run;
      after := done + [Continue(me, choice)];
      RunThen(policy, before, done, [Continue(me, choice)]);
      RunOne(policy, w, Continue(me, choice));
      S.OneMoves(policy, w, me, choice);
      w := Step(policy, w, Continue(me, choice));
    }

    /** issue_otp: read both items, decide, write both if neither has changed; five rounds at most. */
    method IssueOtp(me: nat, c: Challenge, now: Instant) returns (why: Option<Unissued>, ghost trace: seq<Action>)
      requires me < |w.procs| && w.procs[me] == ReadQuota(c, now, OTP_WRITE_ROUNDS)
      modifies this
      ensures w == Run(policy, old(w), trace) && me < |w.procs|
      ensures w.procs[me] == if why.None? then Sending(c) else NotIssued(c, why.value)
    {
      hide Run; hide Turn;
      ghost var before, waited := w, [];
      trace := [];
      assert w == Run(policy, before, trace) by { RunNone(policy, before); }
      var choice: Choice;
      var rounds := 0;
      while rounds < OTP_WRITE_ROUNDS
        invariant rounds <= OTP_WRITE_ROUNDS && me < |w.procs|
        invariant w.procs[me] == ReadQuota(c, now, OTP_WRITE_ROUNDS - rounds)
        invariant w == Run(policy, before, trace)
      {
        choice, waited := Wait(me);
        RunThen(policy, before, trace, waited);
        var quota := w.table.quota;
        IssuerMoves(policy, w, me, choice);
        trace := Call(me, choice, before, trace + waited);
        if choice.fault { return Some(Fault), trace; }

        choice, waited := Wait(me);
        RunThen(policy, before, trace, waited);
        var existing := w.table.challenge;
        IssuerMoves(policy, w, me, choice);
        trace := Call(me, choice, before, trace + waited);
        if choice.fault { return Some(Fault), trace; }
        if existing.Some? && !existing.value.consumed && !existing.value.Expired(now) {
          var age := now - existing.value.createdAt;
          if age < policy.cooldown { return Some(Refused(Cooldown(policy.cooldown - age))), trace; }
        }
        var sends := Recent(SendsOf(quota), now);
        if |sends| >= policy.maxSends { return Some(Refused(DailyQuota(3600))), trace; }

        choice, waited := Wait(me);
        RunThen(policy, before, trace, waited);
        var ok := QuotaUnchanged(w.table.quota, quota) && ChallengeUnchanged(w.table.challenge, existing);
        IssuerMoves(policy, w, me, choice);
        trace := Call(me, choice, before, trace + waited);
        if choice.fault { return Some(Fault), trace; }
        if ok { return None, trace; }
        rounds := rounds + 1;
      }
      RoundsAreUp(policy, w, me);
      trace := Call(me, CALM, before, trace);
      why := Some(Contention);
    }

    /** verify_challenge: judge what get_otp shows, and let the verdict stand if that is still what is stored. */
    method Verify(me: nat, code: string, now: Instant) returns (outcome: Option<Outcome>, ghost trace: seq<Action>)
      requires me < |w.procs| && w.procs[me] == ReadToVerify(code, now, VERIFY_ROUNDS)
      modifies this
      ensures w == Run(policy, old(w), trace) && me < |w.procs|
      ensures w.procs[me] == if outcome.Some? then Judged(outcome.value) else Failed
      ensures old(interludes) == [] && A.Current(old(w)) ==>
                && outcome.Some?
                && A.VerifiesAlone(policy, old(w).table.challenge, code, now, outcome.value, w.table.challenge)
    {
      hide Run; hide Seen; hide A.VerifiesAlone;
      ghost var before, waited := w, [];
      ghost var alone := interludes == [] && A.Current(w);
      if alone { A.SeenNow(w); A.VerdictAlone(policy, w, me); }
      trace := [];
      assert w == Run(policy, before, trace) by { RunNone(policy, before); }
      var choice: Choice;
      var rounds := 0;
      while rounds < VERIFY_ROUNDS
        invariant alone ==> rounds == 0 && interludes == [] && w == before
        invariant rounds <= VERIFY_ROUNDS && me < |w.procs|
        invariant w.procs[me] == ReadToVerify(code, now, VERIFY_ROUNDS - rounds)
        invariant w == Run(policy, before, trace)
      {
        choice, waited := Wait(me);
        RunThen(policy, before, trace, waited);
        var read := Seen(w, choice.age);
        trace := Call(me, choice, before, trace + waited);
        if choice.fault { return None, trace; }
        if read.None? { return Some(NoChallenge), trace; }
        var c := read.value;
        if c.consumed { return Some(Consumed), trace; }

        choice, waited := Wait(me);
        RunThen(policy, before, trace, waited);
        var ok := ChallengeUnchanged(w.table.challenge, read);
        trace := Call(me, choice, before, trace + waited);
        if choice.fault { return None, trace; }
        if c.Expired(now) { return Some(ExpiredOtp), trace; }
        if c.attempts >= policy.maxAttempts { return Some(Exhausted), trace; }
        if c.otpHash == policy.hash(c.msisdn, code) {
          outcome := Some(Verified);
        } else if c.attempts + 1 >= policy.maxAttempts {
          outcome := Some(Exhausted);
        } else {
          outcome := Some(Mismatch);
        }
        if ok { return; }
        rounds := rounds + 1;
      }
      trace := Call(me, CALM, before, trace);
      outcome := Some(Mismatch);
    }

    /** discard_challenge: delete it as long as what get_otp shows is the same issue. */
    method Discard(me: nat, c: Challenge) returns (gone: Option<bool>, ghost trace: seq<Action>)
      requires me < |w.procs| && w.procs[me] == ReadToDiscard(c, VERIFY_ROUNDS)
      modifies this
      ensures w == Run(policy, old(w), trace) && me < |w.procs|
      ensures w.procs[me] == if gone.Some? then Discarded(c, gone.value) else Failed
    {
      hide Run; hide Seen;
      ghost var before, waited := w, [];
      trace := [];
      assert w == Run(policy, before, trace) by { RunNone(policy, before); }
      var choice: Choice;
      var rounds := 0;
      while rounds < VERIFY_ROUNDS
        invariant rounds <= VERIFY_ROUNDS && me < |w.procs|
        invariant w.procs[me] == ReadToDiscard(c, VERIFY_ROUNDS - rounds)
        invariant w == Run(policy, before, trace)
      {
        choice, waited := Wait(me);
        RunThen(policy, before, trace, waited);
        var current := Seen(w, choice.age);
        trace := Call(me, choice, before, trace + waited);
        if choice.fault { return None, trace; }
        if current.None? || !current.value.SameIssue(c) { return Some(false), trace; }

        choice, waited := Wait(me);
        RunThen(policy, before, trace, waited);
        var ok := ChallengeUnchanged(w.table.challenge, current);
        trace := Call(me, choice, before, trace + waited);
        if choice.fault { return None, trace; }
        if ok { return Some(true), trace; }
        rounds := rounds + 1;
      }
      trace := Call(me, CALM, before, trace);
      gone := Some(false);
    }

    /** ProvisioningService._issue_otp: issue, send the SMS, and take the challenge back if that fails. */
    method IssueAndSend(me: nat, c: Challenge, now: Instant) returns (status: nat, ghost trace: seq<Action>)
      requires me < |w.procs| && w.procs[me] == ReadQuota(c, now, OTP_WRITE_ROUNDS)
      modifies this
      ensures w == Run(policy, old(w), trace) && me < |w.procs|
      ensures match w.procs[me]
              case NotIssued(_, Refused(Cooldown(_))) => status == 200
              case NotIssued(_, Refused(DailyQuota(_))) => status == 429
              case NotIssued(_, Contention) => status == 503
              case Sent(sent) => status == 200 && sent == c
              case Discarded(gone, _) => status == 503 && gone == c
              case _ => status == 500
    {
      hide Run;
      ghost var before := w;
      var why;
      why, trace := IssueOtp(me, c, now);
      if why.Some? {
        match why.value {
          case Refused(Cooldown(_)) => return 200, trace;
          case Refused(DailyQuota(_)) => return 429, trace;
          case Contention => return 503, trace;
          case Fault => return 500, trace;
        }
      }
      var choice;
      ghost var waited;
      choice, waited := Wait(me);
      RunThen(policy, before, trace, waited);
      trace := Call(me, choice, before, trace + waited);
      if !choice.sendFails { return 200, trace; }
      ghost var taking;
      var gone;
      gone, taking := Discard(me, c);
      RunThen(policy, before, trace, taking);
      trace := trace + taking;
      status := if gone.Some? then 503 else 500;
    }
  }

  lemma RunNone(o: Policy, w: World)
    ensures Run(o, w, []) == w
  {
  }
}
