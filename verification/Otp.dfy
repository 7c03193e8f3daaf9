/**
 OTP challenges and the store that changes them under a lock: src/acs/domain/models.py:57-85,
 src/acs/store/memory.py:25-114 and src/acs/auth/otp.py.

 `Issue` and `Replace` are the two atomic operations on one MSISDN's record; the DynamoDB store is
 compared with them in OtpSteps.
 */
module Otp {
  import opened Wrappers

  /** An instant in seconds. The source reads 0 as "now", so no instant is 0. */
  type Instant = i: int | 0 < i witness 1

  datatype Challenge = Challenge(msisdn: string, otpHash: string, imsi: string, createdAt: int, expiresAt: int,
                                 attempts: int, smsPort: Option<int>, consumed: bool, id: string)
  {
    predicate Expired(at: Instant) {
      at >= expiresAt
    }

    /** same_issue: by id when both have one. */
    predicate SameIssue(other: Challenge) {
      if id != "" && other.id != "" then id == other.id
      else otpHash == other.otpHash && createdAt == other.createdAt
    }
  }

  datatype Policy = Policy(ttlSeconds: int, maxAttempts: int, cooldown: int, maxSends: int,
                           hash: (string, string) -> string)

  const DAY := 86400

  /** _unchanged, and the condition _same_challenge puts on a write. */
  predicate Unchanged(current: Challenge, expected: Challenge) {
    && current.attempts == expected.attempts
    && (if expected.id != "" then current.id == expected.id
        else current.otpHash == expected.otpHash && current.createdAt == expected.createdAt)
  }

  // ---- one MSISDN's record, atomically ----

  datatype Record = Record(challenge: Option<Challenge>, sends: seq<int>)

  datatype Refusal = Cooldown(retryAfter: int) | DailyQuota(retryAfter: int)

  /** The sends that still count at `now`. */
  function Recent(sends: seq<int>, now: int): (r: seq<int>)
    ensures |r| <= |sends|
    ensures forall t :: t in r <==> t in sends && t >= now - DAY
  {
    if sends == [] then []
    else Recent(sends[..|sends| - 1], now) + (if sends[|sends| - 1] >= now - DAY then [sends[|sends| - 1]] else [])
  }

  function CooldownLeft(p: Policy, existing: Option<Challenge>, now: Instant): Option<int> {
    if existing.Some? && !existing.value.consumed && !existing.value.Expired(now)
        && now - existing.value.createdAt < p.cooldown
    then Some(p.cooldown - (now - existing.value.createdAt)) else None
  }

  /** Whether a challenge may be issued now. */
  function Decide(p: Policy, existing: Option<Challenge>, sends: seq<int>, now: Instant): Option<Refusal> {
    var left := CooldownLeft(p, existing, now);
    if left.Some? then Some(Cooldown(left.value))
    else if |Recent(sends, now)| >= p.maxSends then Some(DailyQuota(3600))
    else None
  }

  function Issue(p: Policy, r: Record, c: Challenge, now: Instant): (Record, Option<Refusal>) {
    var refused := Decide(p, r.challenge, r.sends, now);
    if refused.Some? then (r, refused) else (Record(Some(c), Recent(r.sends, now) + [now]), None)
  }

  function Replace(r: Record, expected: Challenge, replacement: Option<Challenge>): (Record, bool) {
    if r.challenge.None? || !Unchanged(r.challenge.value, expected) then (r, false)
    else (r.(challenge := replacement), true)
  }

  // ---- verification ----

  datatype Outcome = Verified | NoChallenge | ExpiredOtp | Mismatch | Exhausted | Consumed

  /**
   The round of verify_challenge for the challenge it read: the outcome, the replacement, and whether it was a
   guess.
   */
  datatype Judgement = Judgement(outcome: Outcome, replacement: Option<Challenge>, guess: bool)

  function Judge(p: Policy, c: Challenge, otp: string, now: Instant): Judgement {
    if c.Expired(now) then Judgement(ExpiredOtp, None, false)
    else if c.attempts >= p.maxAttempts then Judgement(Exhausted, None, false)
    else if c.otpHash == p.hash(c.msisdn, otp) then Judgement(Verified, None, true)
    else if c.attempts + 1 >= p.maxAttempts then Judgement(Exhausted, None, true)
    else Judgement(Mismatch, Some(c.(attempts := c.attempts + 1)), true)
  }

  const VERIFY_ROUNDS: nat := 5

  // ---- the dictionary-backed store ----

  class MemoryStore {
    var otp: map<string, Challenge>
    var otpSends: map<string, seq<int>>

    constructor ()
      ensures otp == map[] && otpSends == map[]
    {
      otp, otpSends := map[], map[];
    }

    function RecordOf(msisdn: string): Record
      reads this
    {
      Record(if msisdn in otp then Some(otp[msisdn]) else None, if msisdn in otpSends then otpSends[msisdn] else [])
    }

    method GetOtp(msisdn: string) returns (r: Option<Challenge>)
      ensures r == RecordOf(msisdn).challenge
    {
      r := if msisdn in otp then Some(otp[msisdn]) else None;
    }

    method IssueOtp(p: Policy, c: Challenge, now: Instant) returns (refused: Option<Refusal>)
      modifies this
      ensures (RecordOf(c.msisdn), refused) == Issue(p, old(RecordOf(c.msisdn)), c, now)
      ensures otp - {c.msisdn} == old(otp) - {c.msisdn} && otpSends - {c.msisdn} == old(otpSends) - {c.msisdn}
    {
      if c.msisdn in otp {
        var existing := otp[c.msisdn];
        if !existing.consumed && !existing.Expired(now) {
          var age := now - existing.createdAt;
          if age < p.cooldown { return Some(Cooldown(p.cooldown - age)); }
        }
      }
      var sends := Recent(if c.msisdn in otpSends then otpSends[c.msisdn] else [], now);
      if |sends| >= p.maxSends { return Some(DailyQuota(3600)); }
      otpSends := otpSends[c.msisdn := sends + [now]];
      otp := otp[c.msisdn := c];
      refused := None;
    }

    method ReplaceOtp(expected: Challenge, replacement: Option<Challenge>) returns (ok: bool)
      modifies this
      ensures (RecordOf(expected.msisdn), ok) == Replace(old(RecordOf(expected.msisdn)), expected, replacement)
      ensures otp - {expected.msisdn} == old(otp) - {expected.msisdn}
          && otpSends - {expected.msisdn} == old(otpSends) - {expected.msisdn}
    {
      if expected.msisdn !in otp || !Unchanged(otp[expected.msisdn], expected) { return false; }
      if replacement.None? {
        otp := otp - {expected.msisdn};
      } else {
        otp := otp[expected.msisdn := replacement.value];
      }
      ok := true;
    }
  }
}
