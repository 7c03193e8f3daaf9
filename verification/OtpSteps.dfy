/**
 Many requests for one MSISDN at a shared table, interleaved write by write:
 src/acs/store/dynamodb.py:209-297, src/acs/auth/otp.py:116-178 and src/acs/domain/service.py:254-331.

 A request is a process that makes one call of the table at a time. Reads before an issue are
 consistent; get_otp may return any value the item ever had; every write is conditional; any call
 may fail. A run is any list of actions: requests arriving, and processes taking their next step.
 */
module OtpSteps {
  import opened Wrappers
  import opened Otp

  const OTP_WRITE_ROUNDS: nat := 5

  /** The item that lists the sends. */
  datatype Quota = Quota(sends: seq<int>, version: nat)

  /** The two items of the MSISDN. */
  datatype Table = Table(quota: Option<Quota>, challenge: Option<Challenge>)

  /** Why an issue stored nothing. */
  datatype Unissued = Refused(refusal: Refusal) | Contention | Fault

  datatype Process =
    | ReadQuota(c: Challenge, now: Instant, rounds: nat)
    | ReadChallenge(c: Challenge, now: Instant, rounds: nat, quota: Option<Quota>)
    | WriteBoth(c: Challenge, now: Instant, rounds: nat, quota: Option<Quota>, existing: Option<Challenge>)
    | Sending(c: Challenge)
    | ReadToVerify(otp: string, now: Instant, rounds: nat)
    | WriteVerdict(otp: string, now: Instant, rounds: nat, read: Challenge)
    | ReadToDiscard(c: Challenge, rounds: nat)
    | DeleteChallenge(c: Challenge, rounds: nat, read: Challenge)
    | NotIssued(c: Challenge, why: Unissued)
    | Sent(c: Challenge)
    | Discarded(c: Challenge, ok: bool)
    | Judged(outcome: Outcome)
    | Failed

  /** What was committed, for those who count. */
  datatype Event =
    | Issued(id: string, at: Instant)
    | Guessed(id: string, at: Instant, otp: string, outcome: Outcome)
    | Cleaned(id: string)
    | Removed(id: string)

  /**
   The table with every value its items have had, the challenges requests have drawn up, the
   processes and the commits.
   */
  datatype World = World(table: Table, past: seq<Option<Challenge>>, quotas: seq<Option<Quota>>,
                         drawn: map<string, Challenge>, procs: seq<Process>, log: seq<Event>)

  const EMPTY := World(Table(None, None), [None], [None], map[], [], [])

  /** What is not up to the code: a failing call, how old a read is, whether the SMS goes out. */
  datatype Choice = Choice(fault: bool, age: nat, sendFails: bool)

  /** A call that succeeds, on current data. */
  const CALM := Choice(false, 0, false)

  datatype Action =
    | StartIssue(c: Challenge, now: Instant)
    | StartVerify(otp: string, now: Instant)
    | Continue(i: nat, choice: Choice)

  // ---- conditions of the writes ----

  predicate QuotaUnchanged(current: Option<Quota>, read: Option<Quota>) {
    if read.None? then current.None? else current.Some? && current.value.version == read.value.version
  }

  predicate ChallengeUnchanged(current: Option<Challenge>, read: Option<Challenge>) {
    if read.None? then current.None? else current.Some? && Unchanged(current.value, read.value)
  }

  function SendsOf(q: Option<Quota>): seq<int> {
    if q.Some? then q.value.sends else []
  }

  function VersionOf(q: Option<Quota>): nat {
    if q.Some? then q.value.version else 0
  }

  // ---- one step of one process ----

  function SetProc(w: World, i: nat, p: Process): World
    requires i < |w.procs|
  {
    w.(procs := w.procs[i := p])
  }

  /** A commit changes the challenge item, and everyone may read its old values for a while. */
  function SetChallenge(w: World, c: Option<Challenge>): World {
    w.(table := w.table.(challenge := c), past := w.past + [c])
  }

  function SetQuota(w: World, q: Quota): World {
    w.(table := w.table.(quota := Some(q)), quotas := w.quotas + [Some(q)])
  }

  /** get_otp: a read that may be old. */
  function Seen(w: World, age: nat): Option<Challenge> {
    if age < |w.past| then w.past[|w.past| - 1 - age] else w.table.challenge
  }

  function StepReadQuota(w: World, i: nat, p: Process, choice: Choice): World
    requires i < |w.procs| && p.ReadQuota?
  {
    SetProc(w, i,
            if p.rounds == 0 then NotIssued(p.c, Contention)
            else if choice.fault then NotIssued(p.c, Fault)
            else ReadChallenge(p.c, p.now, p.rounds - 1, w.table.quota))
  }

  function StepReadChallenge(o: Policy, w: World, i: nat, p: Process, choice: Choice): World
    requires i < |w.procs| && p.ReadChallenge?
  {
    var existing := w.table.challenge;
    var refused := Decide(o, existing, SendsOf(p.quota), p.now);
    SetProc(w, i,
            if choice.fault then NotIssued(p.c, Fault)
            else if refused.Some? then NotIssued(p.c, Refused(refused.value))
            else WriteBoth(p.c, p.now, p.rounds, p.quota, existing))
  }

  predicate Commits(w: World, p: Process, choice: Choice)
    requires p.WriteBoth?
  {
    !choice.fault && QuotaUnchanged(w.table.quota, p.quota) && ChallengeUnchanged(w.table.challenge, p.existing)
  }

  /** The transaction: both items or neither. */
  function StepWriteBoth(w: World, i: nat, p: Process, choice: Choice): World
    requires i < |w.procs| && p.WriteBoth?
  {
    if choice.fault then SetProc(w, i, NotIssued(p.c, Fault))
    else if Commits(w, p, choice) then
      var q := Quota(Recent(SendsOf(p.quota), p.now) + [p.now], VersionOf(p.quota) + 1);
      SetProc(SetChallenge(SetQuota(w, q), Some(p.c)), i, Sending(p.c)).(log := w.log + [Issued(p.c.id, p.now)])
    else SetProc(w, i, ReadQuota(p.c, p.now, p.rounds))
  }

  function StepSending(w: World, i: nat, p: Process, choice: Choice): World
    requires i < |w.procs| && p.Sending?
  {
    SetProc(w, i, if choice.sendFails then ReadToDiscard(p.c, VERIFY_ROUNDS) else Sent(p.c))
  }

  function StepReadToVerify(w: World, i: nat, p: Process, choice: Choice): World
    requires i < |w.procs| && p.ReadToVerify?
  {
    var read := Seen(w, choice.age);
    SetProc(w, i,
            if p.rounds == 0 then Judged(Mismatch)
            else if choice.fault then Failed
            else if read.None? then Judged(NoChallenge)
            else if read.value.consumed then Judged(Consumed)
            else WriteVerdict(p.otp, p.now, p.rounds - 1, read.value))
  }

  /** The conditional write of the verdict on the challenge that was read. A clean-up is not repeated. */
  function StepWriteVerdict(o: Policy, w: World, i: nat, p: Process, choice: Choice): World
    requires i < |w.procs| && p.WriteVerdict?
  {
    var j := Judge(o, p.read, p.otp, p.now);
    if choice.fault then SetProc(w, i, Failed)
    else if ChallengeUnchanged(w.table.challenge, Some(p.read)) then
      SetProc(SetChallenge(w, j.replacement), i, Judged(j.outcome)).(
        log := w.log + [if j.guess then Guessed(p.read.id, p.now, p.otp, j.outcome) else Cleaned(p.read.id)])
    else SetProc(w, i, if j.guess then ReadToVerify(p.otp, p.now, p.rounds) else Judged(j.outcome))
  }

  function StepReadToDiscard(w: World, i: nat, p: Process, choice: Choice): World
    requires i < |w.procs| && p.ReadToDiscard?
  {
    var read := Seen(w, choice.age);
    SetProc(w, i,
            if p.rounds == 0 then Discarded(p.c, false)
            else if choice.fault then Failed
            else if read.None? || !read.value.SameIssue(p.c) then Discarded(p.c, false)
            else DeleteChallenge(p.c, p.rounds - 1, read.value))
  }

  function StepDelete(w: World, i: nat, p: Process, choice: Choice): World
    requires i < |w.procs| && p.DeleteChallenge?
  {
    if choice.fault then SetProc(w, i, Failed)
    else if ChallengeUnchanged(w.table.challenge, Some(p.read)) then
      SetProc(SetChallenge(w, None), i, Discarded(p.c, true)).(log := w.log + [Removed(p.read.id)])
    else SetProc(w, i, ReadToDiscard(p.c, p.rounds))
  }

  function Turn(o: Policy, w: World, i: nat, choice: Choice): World
    requires i < |w.procs|
  {
    var p := w.procs[i];
    match p
    case ReadQuota(_, _, _) => StepReadQuota(w, i, p, choice)
    case ReadChallenge(_, _, _, _) => StepReadChallenge(o, w, i, p, choice)
    case WriteBoth(_, _, _, _, _) => StepWriteBoth(w, i, p, choice)
    case Sending(_) => StepSending(w, i, p, choice)
    case ReadToVerify(_, _, _) => StepReadToVerify(w, i, p, choice)
    case WriteVerdict(_, _, _, _) => StepWriteVerdict(o, w, i, p, choice)
    case ReadToDiscard(_, _) => StepReadToDiscard(w, i, p, choice)
    case DeleteChallenge(_, _, _) => StepDelete(w, i, p, choice)
    case _ => w
  }

  /** A challenge as create_challenge draws it up, with an id no other has. */
  predicate IsNew(o: Policy, w: World, c: Challenge, now: Instant) {
    && c.id != "" && c.id !in w.drawn
    && c.attempts == 0 && !c.consumed && c.createdAt == now && c.expiresAt == now + o.ttlSeconds
  }

  function Step(o: Policy, w: World, a: Action): World {
    match a
    case StartIssue(c, now) =>
      if IsNew(o, w, c, now) then
        w.(drawn := w.drawn[c.id := c], procs := w.procs + [ReadQuota(c, now, OTP_WRITE_ROUNDS)])
      else w
    case StartVerify(otp, now) => w.(procs := w.procs + [ReadToVerify(otp, now, VERIFY_ROUNDS)])
    case Continue(i, choice) => if i < |w.procs| then Turn(o, w, i, choice) else w
  }

  function Run(o: Policy, w: World, actions: seq<Action>): World
    decreases |actions|
  {
    if actions == [] then w else Run(o, Step(o, w, actions[0]), actions[1..])
  }
}
