/**
 The optimistic store does what the locked one does: src/acs/store/dynamodb.py:214-293 against
 src/acs/store/memory.py:85-114.

 Whatever a process read and whenever, the step in which it commits takes the table, as it is at
 that instant, to what MemoryStore would have made of it there and then. Every other step leaves
 the table alone.
 */
module OtpRefinement {
  import opened Wrappers
  import opened Otp
  import opened OtpSteps

  // ---- what is always true of the table and of what processes hold ----

  /** One of the challenges that were drawn up, with some number of attempts. */
  ghost predicate Drawn(w: World, c: Challenge) {
    c.id != "" && c.id in w.drawn && c == w.drawn[c.id].(attempts := c.attempts)
  }

  ghost predicate DrawnOk(o: Policy, w: World) {
    forall id :: id in w.drawn ==>
      && id != "" && w.drawn[id].id == id && w.drawn[id].attempts == 0 && !w.drawn[id].consumed
      && w.drawn[id].expiresAt == w.drawn[id].createdAt + o.ttlSeconds
  }

  /** The challenge item has only ever held drawn challenges; the last value is the current one. */
  ghost predicate PastOk(w: World) {
    && w.past != [] && w.past[|w.past| - 1] == w.table.challenge
    && forall k :: 0 <= k < |w.past| && w.past[k].Some? ==> Drawn(w, w.past[k].value)
  }

  /** The version of the quota item counts its values. */
  ghost predicate QuotasOk(w: World) {
    && w.quotas != [] && w.quotas[|w.quotas| - 1] == w.table.quota && w.quotas[0].None?
    && forall k :: 0 < k < |w.quotas| ==> w.quotas[k].Some? && w.quotas[k].value.version == k
  }

  /** A value the quota item has had. */
  ghost predicate QuotaSeen(w: World, q: Option<Quota>) {
    VersionOf(q) < |w.quotas| && w.quotas[VersionOf(q)] == q
  }

  ghost predicate Own(w: World, c: Challenge) {
    c.id != "" && c.id in w.drawn && c == w.drawn[c.id]
  }

  ghost predicate ProcOk(o: Policy, w: World, p: Process) {
    match p
    case ReadQuota(c, now, _) => Own(w, c) && c.createdAt == now
    case ReadChallenge(c, now, _, quota) => Own(w, c) && c.createdAt == now && QuotaSeen(w, quota)
    case WriteBoth(c, now, _, quota, existing) =>
      Own(w, c) && c.createdAt == now && QuotaSeen(w, quota) && (existing.Some? ==> Drawn(w, existing.value))
      && Decide(o, existing, SendsOf(quota), now).None?
    case Sending(c) => Own(w, c)
    case WriteVerdict(_, _, _, read) => Drawn(w, read) && !read.consumed
    case ReadToDiscard(c, _) => Own(w, c)
    case DeleteChallenge(c, _, read) => Own(w, c) && Drawn(w, read) && read.id == c.id
    case _ => true
  }

  ghost predicate ProcsOk(o: Policy, w: World) {
    forall i :: 0 <= i < |w.procs| ==> ProcOk(o, w, w.procs[i])
  }

  ghost predicate Sound(o: Policy, w: World) {
    DrawnOk(o, w) && PastOk(w) && QuotasOk(w) && ProcsOk(o, w)
  }

  /** An id and an attempt count tell one value of the item from all others, and so does a version. */
  lemma NoFalseMatch(o: Policy, w: World, challenge: Option<Challenge>, quota: Option<Quota>)
    requires Sound(o, w) && QuotaSeen(w, quota) && (challenge.Some? ==> Drawn(w, challenge.value))
    ensures ChallengeUnchanged(w.table.challenge, challenge) <==> w.table.challenge == challenge
    ensures QuotaUnchanged(w.table.quota, quota) <==> w.table.quota == quota
  {
    hide ProcsOk;
    assert w.table.challenge == w.past[|w.past| - 1];
    if w.table.challenge.Some? { assert Drawn(w, w.table.challenge.value); }
  }

  // ---- the effect of a step ----

  /** What a step does to the table. */
  datatype Effect =
    | Quiet
    | Issues(c: Challenge, now: Instant)
    | Judges(otp: string, now: Instant)
    | Discards(c: Challenge)

  function EffectOf(o: Policy, w: World, a: Action): Effect {
    if !a.Continue? || a.i >= |w.procs| || a.choice.fault then Quiet
    else
      var p := w.procs[a.i];
      if p.WriteBoth? && Commits(w, p, a.choice) then Issues(p.c, p.now)
      else if p.WriteVerdict? && ChallengeUnchanged(w.table.challenge, Some(p.read)) then Judges(p.otp, p.now)
      else if p.DeleteChallenge? && ChallengeUnchanged(w.table.challenge, Some(p.read)) then Discards(p.c)
      else Quiet
  }

  /** The same change made by one request alone with the table. */
  function Apply(o: Policy, t: Table, e: Effect): Table {
    match e
    case Quiet => t
    case Issues(c, now) => Table(Some(Quota(Recent(SendsOf(t.quota), now) + [now], VersionOf(t.quota) + 1)), Some(c))
    case Judges(otp, now) => if t.challenge.None? then t
        else t.(challenge := Judge(o, t.challenge.value, otp, now).replacement)
    case Discards(_) => t.(challenge := None)
  }

  /** What one request alone with the table would have checked. */
  predicate Allowed(o: Policy, t: Table, e: Effect) {
    match e
    case Quiet => true
    case Issues(c, now) => c.createdAt == now && Decide(o, t.challenge, SendsOf(t.quota), now).None?
    case Judges(_, _) => t.challenge.Some? && !t.challenge.value.consumed
    case Discards(c) => t.challenge.Some? && t.challenge.value.id == c.id
  }

  /** What is counted of it. */
  function EventOf(o: Policy, t: Table, e: Effect): Option<Event> {
    match e
    case Quiet => None
    case Issues(c, now) => Some(Issued(c.id, now))
    case Judges(otp, now) =>
      if t.challenge.None? then None
      else
        var j := Judge(o, t.challenge.value, otp, now);
        Some(if j.guess then Guessed(t.challenge.value.id, now, otp, j.outcome) else Cleaned(t.challenge.value.id))
    case Discards(_) => if t.challenge.None? then None else Some(Removed(t.challenge.value.id))
  }

  function Logged(log: seq<Event>, e: Option<Event>): seq<Event> {
    if e.None? then log else log + [e.value]
  }

  /** Each step changes the table as if its request had it to itself at that instant. */
  lemma StepIsAtomic(o: Policy, w: World, a: Action)
    requires Sound(o, w)
    ensures var (e, w') := (EffectOf(o, w, a), Step(o, w, a));
            && Allowed(o, w.table, e)
            && w'.table == Apply(o, w.table, e)
            && w'.log == Logged(w.log, EventOf(o, w.table, e))
  {
    if a.Continue? && a.i < |w.procs| {
      var p := w.procs[a.i];
      assert ProcOk(o, w, p);
      hide ProcsOk; hide Decide; hide Judge; hide PastOk; hide QuotasOk; hide DrawnOk;
      match p
      case WriteBoth(_, _, _, quota, existing) => NoFalseMatch(o, w, existing, quota);
      case WriteVerdict(_, _, _, read) => SeenAtFirst(w); NoFalseMatch(o, w, Some(read), w.quotas[0]);
      case DeleteChallenge(_, _, read) => SeenAtFirst(w); NoFalseMatch(o, w, Some(read), w.quotas[0]);
      case _ =>
    }
  }

  lemma SeenAtFirst(w: World)
    requires QuotasOk(w)
    ensures w.quotas != [] && QuotaSeen(w, w.quotas[0])
  {
  }

  // ---- preservation ----

  /** What is drawn stays drawn, and what an item has held it has held. */
  ghost predicate Extends(w: World, w': World) {
    && (forall id :: id in w.drawn ==> id in w'.drawn && w'.drawn[id] == w.drawn[id])
    && w.quotas <= w'.quotas
  }

  lemma ProcStaysOk(o: Policy, w: World, w': World, p: Process)
    requires Extends(w, w') && ProcOk(o, w, p)
    ensures ProcOk(o, w', p)
  {
    hide Decide;
  }

  /** One process moves on; the others hold what they held. */
  lemma ProcsStayOk(o: Policy, w: World, w': World, i: nat)
    requires ProcsOk(o, w) && Extends(w, w') && i < |w.procs| == |w'.procs|
    requires ProcOk(o, w', w'.procs[i]) && w'.procs == w.procs[i := w'.procs[i]]
    ensures ProcsOk(o, w')
  {
    hide ProcOk;
    forall k | 0 <= k < |w'.procs|
      ensures ProcOk(o, w', w'.procs[k])
    {
      if k != i {
        assert w'.procs[k] == w.procs[k];
        ProcStaysOk(o, w, w', w.procs[k]);
      }
    }
  }

  lemma ReadKeeps(o: Policy, w: World, i: nat, choice: Choice)
    requires Sound(o, w) && i < |w.procs|
    requires var p := w.procs[i]; p.ReadQuota? || p.ReadChallenge? || p.Sending? || p.ReadToVerify? || p.ReadToDiscard?
    ensures Sound(o, Turn(o, w, i, choice))
  {
    var p, w' := w.procs[i], Turn(o, w, i, choice);
    assert ProcOk(o, w, p);
    hide ProcsOk; hide Decide;
    assert w.table.quota == w.quotas[|w.quotas| - 1] && w.table.challenge == w.past[|w.past| - 1];
    assert ProcOk(o, w', w'.procs[i]);
    hide ProcOk;
    ProcsStayOk(o, w, w', i);
  }

  lemma WriteKeeps(o: Policy, w: World, i: nat, choice: Choice)
    requires Sound(o, w) && i < |w.procs| && w.procs[i].WriteBoth?
    ensures Sound(o, Turn(o, w, i, choice))
  {
    var p, w' := w.procs[i], Turn(o, w, i, choice);
    assert ProcOk(o, w, p);
    NoFalseMatch(o, w, p.existing, p.quota);
    hide ProcsOk; hide Decide; hide Recent;
    assert ProcOk(o, w', w'.procs[i]);
    hide ProcOk;
    ProcsStayOk(o, w, w', i);
  }

  lemma VerdictKeeps(o: Policy, w: World, i: nat, choice: Choice)
    requires Sound(o, w) && i < |w.procs| && (w.procs[i].WriteVerdict? || w.procs[i].DeleteChallenge?)
    ensures Sound(o, Turn(o, w, i, choice))
  {
    hide ProcsOk; hide Decide; hide ChallengeUnchanged; hide Judge;
    var p, w' := w.procs[i], Turn(o, w, i, choice);
    assert ProcOk(o, w, p) by { hide ProcOk; ProcsOkAt(o, w, i); }
    if p.WriteVerdict? { ReplacementIsDrawn(o, w, p.read, p.otp, p.now); }
    assert ProcOk(o, w', w'.procs[i]);
    hide ProcOk;
    ProcsStayOk(o, w, w', i);
  }

  lemma ProcsOkAt(o: Policy, w: World, i: nat)
    requires ProcsOk(o, w) && i < |w.procs|
    ensures ProcOk(o, w, w.procs[i])
  {
  }

  lemma ReplacementIsDrawn(o: Policy, w: World, c: Challenge, otp: string, now: Instant)
    requires Drawn(w, c)
    ensures var r := Judge(o, c, otp, now).replacement; r.Some? ==> Drawn(w, r.value)
  {
  }

  lemma ArrivalKeeps(o: Policy, w: World, a: Action)
    requires Sound(o, w) && !a.Continue?
    ensures Sound(o, Step(o, w, a))
  {
    hide Decide;
    var w' := Step(o, w, a);
    forall k | 0 <= k < |w'.procs|
      ensures ProcOk(o, w', w'.procs[k])
    {
      if k < |w.procs| {
        assert w'.procs[k] == w.procs[k];
        assert ProcOk(o, w, w.procs[k]);
        ProcStaysOk(o, w, w', w.procs[k]);
      }
    }
    hide ProcOk;
  }

  lemma StepKeepsSound(o: Policy, w: World, a: Action)
    requires Sound(o, w)
    ensures Sound(o, Step(o, w, a))
  {
    hide Sound;
    match a
    case Continue(i, choice) =>
      if i < |w.procs| {
        hide StepReadQuota; hide StepReadChallenge; hide StepWriteBoth; hide StepSending; hide StepReadToVerify;
        hide StepWriteVerdict; hide StepReadToDiscard; hide StepDelete;
        match w.procs[i]
        case WriteBoth(_, _, _, _, _) => WriteKeeps(o, w, i, choice);
        case WriteVerdict(_, _, _, _) => VerdictKeeps(o, w, i, choice);
        case DeleteChallenge(_, _, _) => VerdictKeeps(o, w, i, choice);
        case ReadQuota(_, _, _) => ReadKeeps(o, w, i, choice);
        case ReadChallenge(_, _, _, _) => ReadKeeps(o, w, i, choice);
        case Sending(_) => ReadKeeps(o, w, i, choice);
        case ReadToVerify(_, _, _) => ReadKeeps(o, w, i, choice);
        case ReadToDiscard(_, _) => ReadKeeps(o, w, i, choice);
        case _ =>
      }
    case _ => ArrivalKeeps(o, w, a);
  }

  // ---- the locked store ----

  function Abstract(t: Table): Record {
    Record(t.challenge, SendsOf(t.quota))
  }

  /** Each effect is one call of the locked store, which succeeds. */
  lemma EffectIsOneCall(o: Policy, t: Table, e: Effect)
    requires Allowed(o, t, e)
    ensures var r := Abstract(Apply(o, t, e));
            match e
            case Quiet => r == Abstract(t)
            case Issues(c, now) => Issue(o, Abstract(t), c, now) == (r, None)
            case Judges(otp, now) => Replace(Abstract(t), t.challenge.value,
                Judge(o, t.challenge.value, otp, now).replacement) == (r, true)
            case Discards(_) => Replace(Abstract(t), t.challenge.value, None) == (r, true)
  {
    hide Judge;
  }

  function Effects(o: Policy, w: World, actions: seq<Action>): seq<Effect>
    decreases |actions|
  {
    if actions == [] then [] else [EffectOf(o, w, actions[0])] + Effects(o, Step(o, w, actions[0]), actions[1..])
  }

  function ApplyAll(o: Policy, t: Table, es: seq<Effect>): Table
    decreases |es|
  {
    if es == [] then t else ApplyAll(o, Apply(o, t, es[0]), es[1..])
  }

  /** Every effect is allowed where it happens. */
  predicate AllAllowed(o: Policy, t: Table, es: seq<Effect>)
    decreases |es|
  {
    es != [] ==> Allowed(o, t, es[0]) && AllAllowed(o, Apply(o, t, es[0]), es[1..])
  }

  /**
   Any interleaving of any number of requests is the sequence of its commits, each made atomically
   by the rules of the locked store.
   */
  lemma {:induction false} RunIsAtomic(o: Policy, w: World, actions: seq<Action>)
    requires Sound(o, w)
    ensures Sound(o, Run(o, w, actions))
    ensures AllAllowed(o, w.table, Effects(o, w, actions))
    ensures Run(o, w, actions).table == ApplyAll(o, w.table, Effects(o, w, actions))
    decreases |actions|
  {
    if actions != [] {
      hide Sound; hide Step; hide EffectOf; hide Apply; hide Allowed;
      StepIsAtomic(o, w, actions[0]);
      StepKeepsSound(o, w, actions[0]);
      RunIsAtomic(o, Step(o, w, actions[0]), actions[1..]);
      var es := Effects(o, w, actions);
      assert es[0] == EffectOf(o, w, actions[0]) && es[1..] == Effects(o, Step(o, w, actions[0]), actions[1..]);
    }
  }

  lemma EmptyIsSound(o: Policy)
    ensures Sound(o, EMPTY)
  {
  }

  /** An issue loses a round exactly when another request changed one of the two items since it read them. */
  lemma RoundIsLostToOthers(o: Policy, w: World, i: nat, choice: Choice)
    requires Sound(o, w) && i < |w.procs| && w.procs[i].WriteBoth? && !choice.fault
    ensures var p := w.procs[i];
            Commits(w, p, choice) <==> w.table == Table(p.quota, p.existing)
  {
    var p := w.procs[i];
    assert ProcOk(o, w, p);
    NoFalseMatch(o, w, p.existing, p.quota);
  }

  /**
   A refusal is one the locked store would have given: a cooldown at the instant the challenge was
   read, the daily quota at the instant the sends were read,
   whatever the challenge was `before`.
   */
  lemma RefusalIsJustified(o: Policy, w: World, i: nat, choice: Choice, before: Option<Challenge>)
    requires Sound(o, w) && i < |w.procs| && w.procs[i].ReadChallenge?
    ensures var (p, p') := (w.procs[i], Turn(o, w, i, choice).procs[i]);
            p'.NotIssued? && p'.why.Refused? ==>
              match p'.why.refusal
              case Cooldown(_) => Issue(o, Abstract(w.table), p.c, p.now) == (Abstract(w.table), Some(p'.why.refusal))
              case DailyQuota(_) =>
                QuotaSeen(w, p.quota) && Issue(o, Record(before, SendsOf(p.quota)), p.c, p.now).1.Some?
  {
    assert ProcOk(o, w, w.procs[i]);
    hide ProcsOk; hide Recent;
  }
}
