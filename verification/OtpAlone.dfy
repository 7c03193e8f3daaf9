/**
 What one request does when it has the table to itself and no call fails, told by the fields of what is
 stored: src/acs/auth/otp.py:116-178 and src/acs/store/dynamodb.py:214-277.
 */
module OtpAlone {
  import opened Wrappers
  import opened Otp
  import opened OtpSteps

  /** The reads of this world show what is stored. */
  ghost predicate Current(w: World) {
    w.past != [] && w.past[|w.past| - 1] == w.table.challenge
  }

  lemma SeenNow(w: World)
    requires Current(w)
    ensures Seen(w, 0) == w.table.challenge
  {
  }

  lemma {:induction false} RunSplits(o: Policy, w: World, a: Action, more: seq<Action>)
    ensures Run(o, w, [a] + more) == Run(o, Step(o, w, a), more)
  {
    hide Step;
    assert ([a] + more)[1..] == more;
  }

  // ---- verification ----

  /** The verdict on the stored challenge and what is stored after it. */
  ghost predicate VerifiesAlone(o: Policy, stored: Option<Challenge>, code: string, now: Instant, verdict: Outcome,
                                after: Option<Challenge>) {
    && (stored.None? ==> verdict == NoChallenge && after.None?)
    && (stored.Some? ==>
          var c := stored.value;
          var (spent, right) := (c.attempts >= o.maxAttempts, c.otpHash == o.hash(c.msisdn, code));
          && (c.consumed ==> verdict == Consumed && after == stored)
          && (!c.consumed && c.expiresAt <= now ==> verdict == ExpiredOtp && after.None?)
          && (!c.consumed && now < c.expiresAt && spent ==> verdict == Exhausted && after.None?)
          && (!c.consumed && now < c.expiresAt && !spent && right ==> verdict == Verified && after.None?)
          && (!c.consumed && now < c.expiresAt && !spent && !right ==>
                if c.attempts == o.maxAttempts - 1 then verdict == Exhausted && after.None?
                else verdict == Mismatch && after == Some(c.(attempts := c.attempts + 1))))
  }

  /**
   A verification that nobody disturbs judges the stored challenge: the right code for a live one is
   VERIFIED and takes it away, a wrong one costs an attempt and the last attempt the challenge.
   */
  lemma VerifyAlone(o: Policy, w: World, code: string, now: Instant)
    requires Current(w)
    ensures var me := |w.procs|;
            var w' := Run(o, w, [StartVerify(code, now), Continue(me, CALM), Continue(me, CALM)]);
            && me < |w'.procs| && w'.procs[me].Judged? && w'.table.quota == w.table.quota
            && VerifiesAlone(o, w.table.challenge, code, now, w'.procs[me].outcome, w'.table.challenge)
  {
    var me := |w.procs|;
    var a, b := StartVerify(code, now), Continue(me, CALM);
    var w1 := Step(o, w, a);
    assert w1.procs[me] == ReadToVerify(code, now, VERIFY_ROUNDS);
    VerdictAlone(o, w1, me);
    var w2 := Step(o, w1, b);
    hide Turn; hide Run; hide VerifiesAlone;
    assert [a, b, b] == [a] + [b, b] && [b, b] == [b] + [b] && [b] == [b] + [];
    RunSplits(o, w, a, [b, b]);
    RunSplits(o, w1, b, [b]);
    RunSplits(o, w2, b, []);
    RunNone(o, Step(o, w2, b));
  }

  lemma RunNone(o: Policy, w: World)
    ensures Run(o, w, []) == w
  {
  }

  /** Two calls are enough: the read and the write of the verdict. */
  lemma VerdictAlone(o: Policy, w: World, me: nat)
    requires Current(w) && me < |w.procs| && w.procs[me].ReadToVerify? && 0 < w.procs[me].rounds
    ensures var w1 := Turn(o, w, me, CALM);
            && |w1.procs| == |w.procs|
            && var w2 := Turn(o, w1, me, CALM);
               && |w2.procs| == |w.procs| && w2.procs[me].Judged? && w2.table.quota == w.table.quota
               && VerifiesAlone(o, w.table.challenge, w.procs[me].otp, w.procs[me].now, w2.procs[me].outcome,
                                w2.table.challenge)
  {
    SeenNow(w);
  }

  // ---- issuing ----

  /** How many of the sends are at most a day old. */
  ghost function WithinTheDay(sends: seq<int>, now: int): nat {
    |set k | 0 <= k < |sends| && sends[k] >= now - 86400|
  }

  lemma {:induction false} RecentCounts(sends: seq<int>, now: int)
    ensures |Recent(sends, now)| == WithinTheDay(sends, now)
  {
    if sends != [] {
      var last := |sends| - 1;
      var ks := set k | 0 <= k < |sends| && sends[k] >= now - 86400;
      var before := set k | 0 <= k < |sends[..last]| && sends[..last][k] >= now - 86400;
      RecentCounts(sends[..last], now);
      assert ks == before + (if sends[last] >= now - 86400 then {last} else {});
    }
  }

  /** A live challenge that is younger than the cooldown. */
  predicate CoolingDown(o: Policy, stored: Option<Challenge>, now: Instant) {
    && stored.Some? && !stored.value.consumed && now < stored.value.expiresAt
    && now - stored.value.createdAt < o.cooldown
  }

  /** How an issue of c ends, and what the table holds after it. */
  ghost predicate IssuesAlone(o: Policy, before: Table, c: Challenge, now: Instant, p: Process, after: Table) {
    var sends := SendsOf(before.quota);
    if CoolingDown(o, before.challenge, now) then
      && p == NotIssued(c, Refused(Cooldown(o.cooldown - (now - before.challenge.value.createdAt)))) && after == before
    else if WithinTheDay(sends, now) >= o.maxSends then
      p == NotIssued(c, Refused(DailyQuota(3600))) && after == before
    else
      && p == Sending(c) && after.challenge == Some(c) && after.quota.Some?
      && |after.quota.value.sends| == WithinTheDay(sends, now) + 1
      && (forall t :: t in after.quota.value.sends <==> t == now || (t in sends && t >= now - 86400))
  }

  /**
   An issue that nobody disturbs is refused during the cooldown of a live challenge or when the day's sends are
   used up, and otherwise stores its challenge and counts itself among the sends.
   */
  lemma IssueAlone(o: Policy, w: World, c: Challenge, now: Instant)
    requires c.id != "" && c.id !in w.drawn && c.attempts == 0 && !c.consumed
    requires c.createdAt == now && c.expiresAt == now + o.ttlSeconds
    ensures var me := |w.procs|;
            var go := Continue(me, CALM);
            var w' := Run(o, w, [StartIssue(c, now), go, go, go]);
            me < |w'.procs| && IssuesAlone(o, w.table, c, now, w'.procs[me], w'.table)
  {
    var me := |w.procs|;
    var a, b := StartIssue(c, now), Continue(me, CALM);
    var w1 := Step(o, w, a);
    assert w1.procs[me] == ReadQuota(c, now, OTP_WRITE_ROUNDS);
    IssueTurns(o, w1, me);
    var w2 := Step(o, w1, b);
    var w3 := Step(o, w2, b);
    hide Turn; hide Run; hide IssuesAlone;
    assert [a, b, b, b] == [a] + [b, b, b] && [b, b, b] == [b] + [b, b] && [b, b] == [b] + [b] && [b] == [b] + [];
    RunSplits(o, w, a, [b, b, b]);
    RunSplits(o, w1, b, [b, b]);
    RunSplits(o, w2, b, [b]);
    RunSplits(o, w3, b, []);
    RunNone(o, Step(o, w3, b));
  }

  /** Three calls are enough: two reads and the transaction. */
  lemma IssueTurns(o: Policy, w: World, me: nat)
    requires me < |w.procs| && w.procs[me].ReadQuota? && 0 < w.procs[me].rounds
    ensures var w1 := Turn(o, w, me, CALM);
            && |w1.procs| == |w.procs|
            && var w2 := Turn(o, w1, me, CALM);
               && |w2.procs| == |w.procs|
               && var w3 := Turn(o, w2, me, CALM);
                  && |w3.procs| == |w.procs|
                  && IssuesAlone(o, w.table, w.procs[me].c, w.procs[me].now, w3.procs[me], w3.table)
  {
    var (c, now, w1) := (w.procs[me].c, w.procs[me].now, Turn(o, w, me, CALM));
    assert w1.procs[me] == ReadChallenge(c, now, w.procs[me].rounds - 1, w.table.quota) && w1.table == w.table;
    Decides(o, w1, me, c, now);
    var w2 := Turn(o, w1, me, CALM);
    if w2.procs[me].WriteBoth? { Writes(o, w2, me); }
    hide Recent; hide WithinTheDay; hide Decide; hide Commits; hide SendsOf;
  }

  /** The second read and the decision. */
  lemma Decides(o: Policy, w: World, me: nat, c: Challenge, now: Instant)
    requires me < |w.procs| && w.procs[me].ReadChallenge? && w.procs[me].c == c && w.procs[me].now == now
    requires w.procs[me].quota == w.table.quota
    ensures var w' := Turn(o, w, me, CALM);
            && |w'.procs| == |w.procs| && w'.table == w.table
            && if CoolingDown(o, w.table.challenge, now) || WithinTheDay(SendsOf(w.table.quota), now) >= o.maxSends
               then IssuesAlone(o, w.table, c, now, w'.procs[me], w'.table)
               else w'.procs[me] == WriteBoth(c, now, w.procs[me].rounds, w.table.quota, w.table.challenge)
  {
    RecentCounts(SendsOf(w.table.quota), now);
    hide Recent; hide WithinTheDay; hide SendsOf;
  }

  /** The transaction, on what was read. */
  lemma Writes(o: Policy, w: World, me: nat)
    requires me < |w.procs| && w.procs[me].WriteBoth?
    requires w.procs[me].quota == w.table.quota && w.procs[me].existing == w.table.challenge
    ensures var (w', p) := (Turn(o, w, me, CALM), w.procs[me]);
            && |w'.procs| == |w.procs| && w'.procs[me] == Sending(p.c)
            && (!CoolingDown(o, w.table.challenge, p.now)
                && WithinTheDay(SendsOf(w.table.quota), p.now) < o.maxSends ==>
                  IssuesAlone(o, w.table, p.c, p.now, w'.procs[me], w'.table))
  {
    var sends, now := SendsOf(w.table.quota), w.procs[me].now;
    RecentCounts(sends, now);
    hide WithinTheDay; hide CoolingDown; hide Recent;
    var r := Recent(sends, now);
    assert forall t :: t in r + [now] <==> t in r || t == now;
  }

  /** A challenge whose SMS could not be sent is taken back; the send still counts. */
  lemma UnsentIsTakenBack(o: Policy, w: World, i: nat)
    requires Current(w) && i < |w.procs| && w.procs[i].Sending? && w.table.challenge == Some(w.procs[i].c)
    requires w.procs[i].c.id != ""
    ensures var w' := Run(o, w, [Continue(i, Choice(false, 0, true)), Continue(i, CALM), Continue(i, CALM)]);
            && i < |w'.procs| && w'.procs[i] == Discarded(w.procs[i].c, true)
            && w'.table == w.table.(challenge := None)
  {
    var a, b := Continue(i, Choice(false, 0, true)), Continue(i, CALM);
    var w1 := Step(o, w, a);
    var w2 := Step(o, w1, b);
    assert [a, b, b] == [a] + [b, b] && [b, b] == [b] + [b] && [b] == [b] + [];
    RunSplits(o, w, a, [b, b]);
    RunSplits(o, w1, b, [b]);
    RunSplits(o, w2, b, []);
    assert w1.procs[i] == ReadToDiscard(w.procs[i].c, VERIFY_ROUNDS);
    SeenNow(w1);
    hide Run;
  }

  // ---- calls that fail, and rounds that are used up ----

  /** A call that fails ends the request, whichever call it is, and leaves the table alone. */
  lemma FaultsEnd(o: Policy, w: World, i: nat, choice: Choice)
    requires i < |w.procs| && choice.fault
    ensures var (p, w') := (w.procs[i], Turn(o, w, i, choice));
            && w'.table == w.table && w'.log == w.log && |w'.procs| == |w.procs|
            && ((p.ReadQuota? && 0 < p.rounds) || p.ReadChallenge? || p.WriteBoth? ==>
                  w'.procs[i] == NotIssued(p.c, Fault))
            && ((p.ReadToVerify? && 0 < p.rounds) || p.WriteVerdict? ==> w'.procs[i] == Failed)
            && ((p.ReadToDiscard? && 0 < p.rounds) || p.DeleteChallenge? ==> w'.procs[i] == Failed)
  {
    hide Decide; hide Judge;
  }

  /** Every request has five rounds, and after them an issue reports contention and a guess is a mismatch. */
  lemma FiveRounds(o: Policy, w: World, c: Challenge, code: string, now: Instant, i: nat, choice: Choice)
    ensures Step(o, w, StartVerify(code, now)).procs == w.procs + [ReadToVerify(code, now, 5)]
    ensures Step(o, w, StartIssue(c, now)).procs in {w.procs, w.procs + [ReadQuota(c, now, 5)]}
    ensures i < |w.procs| && w.procs[i] == ReadQuota(c, now, 0) ==>
              Turn(o, w, i, choice) == w.(procs := w.procs[i := NotIssued(c, Contention)])
    ensures i < |w.procs| && w.procs[i] == ReadToVerify(code, now, 0) ==>
              Turn(o, w, i, choice) == w.(procs := w.procs[i := Judged(Mismatch)])
    ensures i < |w.procs| && w.procs[i] == ReadToDiscard(c, 0) ==>
              Turn(o, w, i, choice) == w.(procs := w.procs[i := Discarded(c, false)])
  {
  }
}
