/**
 A run in which the clocks of the issues go back, and a day holds more of them than the cap:
 src/acs/store/dynamodb.py:236-239. A later clock trims what an earlier one still has to count.
 */
module OtpWitness {
  import opened Wrappers
  import opened Otp
  import opened OtpSteps
  import opened OtpLimits
  import opened OtpStore

  /** Two sends a day, challenges that last ten seconds, no cooldown. */
  const TWO := Policy(10, 3, 0, 2, (m, otp) => otp)

  function Drawn(id: string, now: Instant): Challenge {
    Challenge("m", "h", "i", now, now + 10, 0, None, false, id)
  }

  /** What matters of a world for the next issue. */
  ghost predicate Stands(w: World, sends: seq<int>, challenge: Option<Challenge>, times: seq<int>) {
    SendsOf(w.table.quota) == sends && w.table.challenge == challenge && Times(w.log) == times
  }

  /** One request alone: it arrives, reads both items and commits. */
  function IssueAlone(w: World, id: string, now: Instant): seq<Action> {
    [StartIssue(Drawn(id, now), now), Continue(|w.procs|, CALM), Continue(|w.procs|, CALM), Continue(|w.procs|, CALM)]
  }

  lemma {:induction false} FourSteps(w: World, a: Action, b: Action, c: Action, d: Action)
    ensures Run(TWO, w, [a, b, c, d]) == Step(TWO, Step(TWO, Step(TWO, Step(TWO, w, a), b), c), d)
  {
    hide Step;
    assert [a, b, c, d] == [a] + ([b] + ([c] + [d]));
    RunThen(TWO, w, [a], [b] + ([c] + [d]));
    RunOne(TWO, w, a);
    var w1 := Step(TWO, w, a);
    RunThen(TWO, w1, [b], [c] + [d]);
    RunOne(TWO, w1, b);
    var w2 := Step(TWO, w1, b);
    RunThen(TWO, w2, [c], [d]);
    RunOne(TWO, w2, c);
    RunOne(TWO, Step(TWO, w2, c), d);
  }

  lemma Issues(w: World, id: string, now: Instant, sends: seq<int>, times: seq<int>)
    requires id != "" && id !in w.drawn && Stands(w, sends, w.table.challenge, times)
    requires Decide(TWO, w.table.challenge, sends, now).None?
    ensures var w' := Run(TWO, w, IssueAlone(w, id, now));
            && Stands(w', Recent(sends, now) + [now], Some(Drawn(id, now)), times + [now])
            && w'.drawn == w.drawn[id := Drawn(id, now)] && |w'.procs| == |w.procs| + 1
            && w'.procs[|w.procs|] == Sending(Drawn(id, now)) && w'.past == w.past + [Some(Drawn(id, now))]
  {
    hide Recent; hide Times; hide Decide;
    var n, c := |w.procs|, Drawn(id, now);
    FourSteps(w, StartIssue(c, now), Continue(n, CALM), Continue(n, CALM), Continue(n, CALM));
    var w1 := Step(TWO, w, StartIssue(c, now));
    assert w1.procs[n] == ReadQuota(c, now, OTP_WRITE_ROUNDS);
    var w2 := Step(TWO, w1, Continue(n, CALM));
    assert w2.procs[n] == ReadChallenge(c, now, OTP_WRITE_ROUNDS - 1, w.table.quota);
    var w3 := Step(TWO, w2, Continue(n, CALM));
    assert w3.procs[n] == WriteBoth(c, now, OTP_WRITE_ROUNDS - 1, w.table.quota, w.table.challenge);
    assert w3.table == w.table && w3.log == w.log;
    TimesOne(w.log, Issued(id, now));
  }

  /** Its SMS cannot be sent, and the challenge is taken back. */
  function TakeBack(i: nat): seq<Action> {
    [Continue(i, Choice(false, 0, true)), Continue(i, CALM), Continue(i, CALM), Continue(i, CALM)]
  }

  lemma SendingFails(w: World, i: nat, c: Challenge)
    requires i < |w.procs| && w.procs[i] == Sending(c)
    ensures Step(TWO, w, Continue(i, Choice(false, 0, true))) == SetProc(w, i, ReadToDiscard(c, VERIFY_ROUNDS))
  {
  }

  lemma ReadsItself(w: World, i: nat, c: Challenge)
    requires i < |w.procs| && w.procs[i] == ReadToDiscard(c, VERIFY_ROUNDS)
    requires c.id != "" && w.past != [] && w.past[|w.past| - 1] == Some(c)
    ensures Step(TWO, w, Continue(i, CALM)) == SetProc(w, i, DeleteChallenge(c, VERIFY_ROUNDS - 1, c))
  {
  }

  lemma DeletesItself(w: World, i: nat, c: Challenge)
    requires i < |w.procs| && w.procs[i] == DeleteChallenge(c, VERIFY_ROUNDS - 1, c) && w.table.challenge == Some(c)
    ensures Step(TWO, w, Continue(i, CALM))
            == SetProc(SetChallenge(w, None), i, Discarded(c, true)).(log := w.log + [Removed(c.id)])
  {
  }

  lemma IsDone(w: World, i: nat, c: Challenge)
    requires i < |w.procs| && w.procs[i] == Discarded(c, true)
    ensures Step(TWO, w, Continue(i, CALM)) == w
  {
  }

  lemma TakenBack(w: World, i: nat, c: Challenge, sends: seq<int>, times: seq<int>)
    requires i < |w.procs| && w.procs[i] == Sending(c) && c.id != "" && Stands(w, sends, Some(c), times)
    requires w.past != [] && w.past[|w.past| - 1] == Some(c)
    ensures var w' := Run(TWO, w, TakeBack(i)); Stands(w', sends, None, times) && w'.drawn == w.drawn
  {
    hide Times; hide Step; hide Run;
    FourSteps(w, Continue(i, Choice(false, 0, true)), Continue(i, CALM), Continue(i, CALM), Continue(i, CALM));
    SendingFails(w, i, c);
    var w1 := SetProc(w, i, ReadToDiscard(c, VERIFY_ROUNDS));
    ReadsItself(w1, i, c);
    var w2 := SetProc(w1, i, DeleteChallenge(c, VERIFY_ROUNDS - 1, c));
    DeletesItself(w2, i, c);
    var w3 := SetProc(SetChallenge(w2, None), i, Discarded(c, true)).(log := w2.log + [Removed(c.id)]);
    IsDone(w3, i, c);
    TimesOne(w.log, Removed(c.id));
    assert times + [] == times;
  }

  lemma RecentOfTwo(a: int, b: int, now: int)
    ensures Recent([], now) == []
    ensures Recent([a], now) == if a >= now - DAY then [a] else []
    ensures Recent([a, b], now) == (if a >= now - DAY then [a] else []) + (if b >= now - DAY then [b] else [])
  {
    assert [a, b][..1] == [a] && [a][..0] == [];
  }

  lemma FourInTwoDays(T: int)
    requires T == 200
    ensures InDay([100, 200, 90000, 150], T) == 3
  {
    var ts := [100, 200, 90000, 150];
    assert ts[..3] == [100, 200, 90000] && ts[..3][..2] == [100, 200] && ts[..3][..2][..1] == [100] && [100][..0] == [];
    assert InDay([100], T) == 1 && InDay([100, 200], T) == 2 && InDay([100, 200, 90000], T) == 2;
  }

  /** Three issues, each after the one before has expired. The third trims the history. */
  lemma ThreeIssues() returns (actions: seq<Action>, i: nat)
    ensures var w := Run(TWO, EMPTY, actions);
            && Stands(w, [90000], Some(Drawn("c", 90000)), [100, 200, 90000])
            && i < |w.procs| && w.procs[i] == Sending(Drawn("c", 90000))
            && w.past != [] && w.past[|w.past| - 1] == Some(Drawn("c", 90000))
            && w.drawn.Keys == {"a", "b", "c"}
  {
    hide Run; hide Recent; hide Times;
    RecentOfTwo(0, 0, 100);
    RecentOfTwo(100, 100, 200);
    RecentOfTwo(100, 200, 90000);
    NoTimes();
    var a1 := IssueAlone(EMPTY, "a", 100);
    Issues(EMPTY, "a", 100, [], []);
    var w1 := Run(TWO, EMPTY, a1);
    var a2 := IssueAlone(w1, "b", 200);
    Issues(w1, "b", 200, [100], [100]);
    var w2 := Run(TWO, w1, a2);
    var a3 := IssueAlone(w2, "c", 90000);
    Issues(w2, "c", 90000, [100, 200], [100, 200]);
    RunThen(TWO, EMPTY, a1, a2);
    RunThen(TWO, EMPTY, a1 + a2, a3);
    actions, i := a1 + a2 + a3, |w2.procs|;
  }

  /** Three issues within a day where two are allowed: the third of four had a clock a day ahead. */
  lemma AnEarlierClockCrowdsADay() returns (actions: seq<Action>)
    ensures InDay(Times(Run(TWO, EMPTY, actions).log), 200) > TWO.maxSends
    ensures !Ascending(Times(Run(TWO, EMPTY, actions).log))
  {
    hide Run; hide Recent; hide InDay; hide Times;
    RecentOfTwo(90000, 90000, 150);
    var three, i := ThreeIssues();
    var w3 := Run(TWO, EMPTY, three);
    TakenBack(w3, i, Drawn("c", 90000), [90000], [100, 200, 90000]);
    var w4 := Run(TWO, w3, TakeBack(i));
    var last := IssueAlone(w4, "d", 150);
    Issues(w4, "d", 150, [90000], [100, 200, 90000]);
    RunThen(TWO, EMPTY, three, TakeBack(i));
    RunThen(TWO, EMPTY, three + TakeBack(i), last);
    actions := three + TakeBack(i) + last;
    FourInTwoDays(200);
    var ts := Times(Run(TWO, EMPTY, actions).log);
    assert ts == [100, 200, 90000, 150];
    assert ts[2] > ts[3];
  }

  lemma NoTimes()
    ensures Times([]) == []
  {
  }
}
