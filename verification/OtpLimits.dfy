/**
 The limits on sends, over whole runs: src/acs/store/dynamodb.py:228-256, src/acs/store/memory.py:92-103.

 Each commit trims the history it keeps, and still no window of a day ever holds more than
 max_sends_per_day issues; and issues closer than the cooldown had the first challenge gone between.
 */
module OtpLimits {
  import opened Wrappers
  import opened Otp
  import opened OtpSteps
  import opened OtpRefinement

  /** When challenges were committed, in the order of the commits. */
  function Times(log: seq<Event>): seq<int> {
    if log == [] then []
    else
      var e := log[|log| - 1];
      Times(log[..|log| - 1]) + (if e.Issued? then [e.at] else [])
  }

  ghost predicate Ascending(ts: seq<int>) {
    forall i, j :: 0 <= i < j < |ts| ==> ts[i] <= ts[j]
  }

  /** Of any max + 1 sends in a row the last is more than a day after the first. */
  ghost predicate Spaced(ts: seq<int>, max: int) {
    forall i, j :: 0 <= i < |ts| && 0 <= j < |ts| && i + max <= j ==> ts[j] - ts[i] > DAY
  }

  /** The stored history is the end of the true one; what was trimmed is more than a day older than the last send. */
  ghost predicate KeepsRecent(sends: seq<int>, ts: seq<int>) {
    && |sends| <= |ts| && sends == ts[|ts| - |sends|..]
    && forall i :: 0 <= i < |ts| - |sends| ==> ts[i] < ts[|ts| - 1] - DAY
  }

  lemma {:induction false} NoneRecent(s: seq<int>, now: int)
    requires forall i :: 0 <= i < |s| ==> s[i] < now - DAY
    ensures Recent(s, now) == []
  {
    if s != [] { NoneRecent(s[..|s| - 1], now); }
  }

  lemma NoneAfter(ts: seq<int>, now: int)
    requires Ascending(ts + [now])
    ensures forall i :: 0 <= i < |ts| ==> ts[i] <= now
  {
    var all := ts + [now];
    forall i | 0 <= i < |ts|
      ensures ts[i] <= now
    {
      assert all[i] <= all[|ts|];
    }
  }

  /** Trimming an ascending history cuts it at one point: what is before it is old, the rest is kept. */
  lemma {:induction false} RecentIsSuffix(s: seq<int>, now: int) returns (k: nat)
    requires Ascending(s)
    ensures k <= |s| && Recent(s, now) == s[k..]
    ensures forall i :: 0 <= i < k ==> s[i] < now - DAY
  {
    if s == [] {
      k := 0;
    } else {
      var last := |s| - 1;
      var before := s[..last];
      assert forall i :: 0 <= i < last ==> before[i] == s[i] <= s[last];
      k := RecentIsSuffix(before, now);
      if s[last] < now - DAY {
        NoneRecent(s, now);
        k := |s|;
      } else {
        assert Recent(s, now) == before[k..] + [s[last]] == s[k..];
      }
    }
  }

  /** One more send, accepted by the daily cap. */
  lemma SendKeepsLimits(sends: seq<int>, ts: seq<int>, now: int, max: int)
    requires Ascending(ts + [now]) && KeepsRecent(sends, ts) && Spaced(ts, max)
    requires |Recent(sends, now)| < max
    ensures KeepsRecent(Recent(sends, now) + [now], ts + [now]) && Spaced(ts + [now], max)
  {
    hide Recent; hide Ascending; hide Spaced;
    var gone := |ts| - |sends|;
    NoneAfter(ts, now);
    SuffixAscends(ts, now, gone);
    var k := RecentIsSuffix(sends, now);
    var cut := gone + k;
    assert Recent(sends, now) == ts[cut..];
    forall i | 0 <= i < cut
      ensures ts[i] < now - DAY
    {
      if i >= gone { assert ts[i] == sends[i - gone]; }
    }
    LaterIsSpaced(ts, now, max, cut);
    KeptFrom(ts, cut, now);
  }

  lemma KeptFrom(ts: seq<int>, cut: nat, now: int)
    requires cut <= |ts| && forall i :: 0 <= i < cut ==> ts[i] < now - DAY
    ensures KeepsRecent(ts[cut..] + [now], ts + [now])
  {
    assert ts[cut..] + [now] == (ts + [now])[cut..];
  }

  lemma SuffixAscends(ts: seq<int>, now: int, from: nat)
    requires Ascending(ts + [now]) && from <= |ts|
    ensures Ascending(ts[from..])
  {
    var s := ts[from..];
    forall i, j | 0 <= i < j < |s|
      ensures s[i] <= s[j]
    {
      assert s[i] == (ts + [now])[from + i] && s[j] == (ts + [now])[from + j];
    }
  }

  lemma LaterIsSpaced(ts: seq<int>, now: int, max: int, cut: nat)
    requires Spaced(ts, max) && cut <= |ts| && |ts| - cut < max
    requires forall i :: 0 <= i < cut ==> ts[i] < now - DAY
    ensures Spaced(ts + [now], max)
  {
    var all := ts + [now];
    forall i, j | 0 <= i < |all| && 0 <= j < |all| && i + max <= j
      ensures all[j] - all[i] > DAY
    {
      if j < |ts| { assert all[j] == ts[j]; if i < |ts| { assert all[i] == ts[i]; } }
    }
  }

  /** How many sends fall in the day that ends at T. */
  function InDay(ts: seq<int>, T: int): nat {
    if ts == [] then 0
    else InDay(ts[..|ts| - 1], T) + (if T - DAY <= ts[|ts| - 1] <= T then 1 else 0)
  }

  lemma {:induction false} DaySpans(ts: seq<int>, T: int) returns (i: nat, j: nat)
    requires 0 < InDay(ts, T)
    ensures i <= j < |ts| && InDay(ts, T) <= j - i + 1
    ensures T - DAY <= ts[i] <= T && T - DAY <= ts[j] <= T
  {
    var last := |ts| - 1;
    if InDay(ts[..last], T) == 0 {
      i, j := last, last;
    } else {
      i, j := DaySpans(ts[..last], T);
      if T - DAY <= ts[last] <= T { j := last; }
    }
  }

  /** Spaced sends never crowd a day. */
  lemma SpacedMeansCapped(ts: seq<int>, max: int, T: int)
    requires Spaced(ts, max)
    ensures 0 < InDay(ts, T) ==> InDay(ts, T) <= max
  {
    if 0 < InDay(ts, T) {
      var i, j := DaySpans(ts, T);
    }
  }

  // ---- the cooldown ----

  /** The challenge the commits leave stored, and when it was issued. */
  function Open(log: seq<Event>): Option<(string, int)> {
    if log == [] then None
    else
      match log[|log| - 1]
      case Issued(id, at) => Some((id, at))
      case Guessed(_, _, _, outcome) => if outcome == Mismatch then Open(log[..|log| - 1]) else None
      case _ => None
  }

  /** Every commit but an issue concerns the stored challenge, and every issue waited for it. */
  predicate Fits(o: Policy, open: Option<(string, int)>, e: Event) {
    match e
    case Issued(_, at) => open.None? || at >= open.value.1 + o.ttlSeconds || at - open.value.1 >= o.cooldown
    case Guessed(id, _, _, _) => open.Some? && open.value.0 == id
    case Cleaned(id) => open.Some? && open.value.0 == id
    case Removed(id) => open.Some? && open.value.0 == id
  }

  ghost predicate Coherent(o: Policy, log: seq<Event>) {
    forall k :: 0 <= k < |log| ==> Fits(o, Open(log[..k]), log[k])
  }

  function StoredId(c: Option<Challenge>): Option<(string, int)> {
    if c.None? then None else Some((c.value.id, c.value.createdAt))
  }

  ghost predicate LimitsOk(o: Policy, w: World) {
    && (Ascending(Times(w.log)) ==>
         KeepsRecent(SendsOf(w.table.quota), Times(w.log)) && Spaced(Times(w.log), o.maxSends))
    && Open(w.log) == StoredId(w.table.challenge)
    && Coherent(o, w.log)
  }

  lemma TimesOne(log: seq<Event>, e: Event)
    ensures Times(log + [e]) == Times(log) + (if e.Issued? then [e.at] else [])
    ensures Open(log + [e]) == match e
                               case Issued(id, at) => Some((id, at))
                               case Guessed(_, _, _, outcome) => if outcome == Mismatch then Open(log) else None
                               case _ => None
  {
    assert (log + [e])[..|log|] == log;
  }

  lemma CoherentOne(o: Policy, log: seq<Event>, e: Event)
    requires Coherent(o, log) && Fits(o, Open(log), e)
    ensures Coherent(o, log + [e])
  {
    hide Open; hide Fits;
    var all := log + [e];
    forall k | 0 <= k < |all|
      ensures Fits(o, Open(all[..k]), all[k])
    {
      if k < |log| { assert all[..k] == log[..k]; } else { assert all[..k] == log; }
    }
  }

  /** One effect fits what is stored and leaves what it says. */
  lemma EffectFits(o: Policy, t: Table, e: Effect)
    requires Allowed(o, t, e) && !e.Quiet?
    requires t.challenge.Some? ==>
        !t.challenge.value.consumed && t.challenge.value.expiresAt == t.challenge.value.createdAt + o.ttlSeconds
    ensures EventOf(o, t, e).Some?
    ensures var x := EventOf(o, t, e).value;
            && Fits(o, StoredId(t.challenge), x)
            && (x.Issued? <==> e.Issues?)
            && (x.Issued? ==> x.at == e.now)
            && StoredId(Apply(o, t, e).challenge)
               == match x
                  case Issued(id, at) => Some((id, at))
                  case Guessed(_, _, _, outcome) => if outcome == Mismatch then StoredId(t.challenge) else None
                  case _ => None
    ensures e.Issues? ==> SendsOf(Apply(o, t, e).quota) == Recent(SendsOf(t.quota), e.now) + [e.now]
                          && |Recent(SendsOf(t.quota), e.now)| < o.maxSends
    ensures !e.Issues? ==> Apply(o, t, e).quota == t.quota
  {
    hide Recent;
  }

  lemma AscendingBefore(ts: seq<int>, now: int)
    requires Ascending(ts + [now])
    ensures Ascending(ts)
  {
    forall i, j | 0 <= i < j < |ts|
      ensures ts[i] <= ts[j]
    {
      assert (ts + [now])[i] <= (ts + [now])[j];
    }
  }

  lemma StepKeepsLimits(o: Policy, w: World, a: Action)
    requires Sound(o, w) && LimitsOk(o, w)
    ensures LimitsOk(o, Step(o, w, a))
  {
    hide Step; hide EffectOf; hide Open; hide Times; hide Recent; hide EventOf; hide Allowed; hide Fits;
    hide Ascending;
    hide Spaced; hide KeepsRecent; hide Coherent; hide Apply;
    var e, w' := EffectOf(o, w, a), Step(o, w, a);
    StepIsAtomic(o, w, a);
    CurrentIsDrawn(o, w);
    if e.Quiet? {
      QuietKeeps(o, w.table);
    } else {
      EffectFits(o, w.table, e);
      var x := EventOf(o, w.table, e).value;
      TimesOne(w.log, x);
      CoherentOne(o, w.log, x);
      assert w'.log == w.log + [x];
      if e.Issues? {
        var ts := Times(w.log);
        if Ascending(ts + [e.now]) {
          AscendingBefore(ts, e.now);
          SendKeepsLimits(SendsOf(w.table.quota), ts, e.now, o.maxSends);
        }
      } else {
        assert Times(w.log) + [] == Times(w.log);
      }
    }
  }

  lemma QuietKeeps(o: Policy, t: Table)
    ensures Apply(o, t, Quiet) == t && EventOf(o, t, Quiet).None?
  {
  }

  lemma CurrentIsDrawn(o: Policy, w: World)
    requires Sound(o, w)
    ensures w.table.challenge.Some? ==>
              var c := w.table.challenge.value;
              !c.consumed && c.expiresAt == c.createdAt + o.ttlSeconds
  {
    hide ProcsOk; hide QuotasOk;
    if w.table.challenge.Some? { assert Drawn(w, w.past[|w.past| - 1].value); }
  }

  // ---- whole runs ----

  lemma EmptyKeepsLimits(o: Policy)
    ensures LimitsOk(o, EMPTY)
  {
  }

  lemma {:induction false} RunKeepsLimits(o: Policy, w: World, actions: seq<Action>)
    requires Sound(o, w) && LimitsOk(o, w)
    ensures LimitsOk(o, Run(o, w, actions))
    decreases |actions|
  {
    if actions != [] {
      hide Sound; hide LimitsOk; hide Step;
      StepKeepsSound(o, w, actions[0]);
      StepKeepsLimits(o, w, actions[0]);
      RunKeepsLimits(o, Step(o, w, actions[0]), actions[1..]);
    }
  }

  /**
   The sliding cap: whatever the interleaving, if the clocks of the issues do not go back in the order
   they commit, no day holds more than max_sends_per_day of them.
   */
  lemma NoDayIsCrowded(o: Policy, actions: seq<Action>, T: int)
    requires Ascending(Times(Run(o, EMPTY, actions).log))
    ensures var n := InDay(Times(Run(o, EMPTY, actions).log), T);
            0 < n ==> n <= o.maxSends
  {
    hide Run; hide Times; hide InDay; hide Sound; hide Spaced; hide KeepsRecent; hide Ascending;
    hide Coherent; hide Open;
    EmptyIsSound(o);
    EmptyKeepsLimits(o);
    RunKeepsLimits(o, EMPTY, actions);
    SpacedMeansCapped(Times(Run(o, EMPTY, actions).log), o.maxSends, T);
  }

  /** The commits that take the stored challenge away. */
  predicate Takes(e: Event) {
    match e
    case Issued(_, _) => false
    case Guessed(_, _, _, outcome) => outcome != Mismatch
    case _ => true
  }

  lemma {:induction false} OpenUntilTaken(log: seq<Event>, i: nat, j: nat)
    requires i < j <= |log| && log[i].Issued?
    requires forall k :: i < k < j ==> !log[k].Issued? && !Takes(log[k])
    ensures Open(log[..j]) == Some((log[i].id, log[i].at))
    decreases j
  {
    assert log[..j][..j - 1] == log[..j - 1];
    if i + 1 < j { OpenUntilTaken(log, i, j - 1); }
  }

  /**
   The cooldown: of two issues in a row that are closer than it, the first challenge had been taken
   away between them, by a commit that concerned it, or had expired.
   */
  lemma CloseIssuesHadTheFirstGone(o: Policy, actions: seq<Action>, i: nat, j: nat)
    requires var log := Run(o, EMPTY, actions).log;
             && i < j < |log| && log[i].Issued? && log[j].Issued?
             && (forall k :: i < k < j ==> !log[k].Issued?)
             && log[j].at - log[i].at < o.cooldown
    ensures var log := Run(o, EMPTY, actions).log;
            log[j].at >= log[i].at + o.ttlSeconds || exists k :: i < k < j && Takes(log[k])
  {
    var log := Run(o, EMPTY, actions).log;
    hide Run; hide Times; hide Sound; hide Spaced; hide KeepsRecent; hide Ascending; hide Open;
    EmptyIsSound(o);
    EmptyKeepsLimits(o);
    RunKeepsLimits(o, EMPTY, actions);
    assert Fits(o, Open(log[..j]), log[j]);
    if forall k :: i < k < j ==> !Takes(log[k]) { OpenUntilTaken(log, i, j); }
  }

  /** The first of those commits concerned the first challenge. */
  lemma TakenIsTheFirst(o: Policy, actions: seq<Action>, i: nat, k: nat)
    requires var log := Run(o, EMPTY, actions).log;
             && i < k < |log| && log[i].Issued? && Takes(log[k])
             && (forall l :: i < l < k ==> !log[l].Issued? && !Takes(log[l]))
    ensures var log := Run(o, EMPTY, actions).log;
            log[k].id == log[i].id
  {
    var log := Run(o, EMPTY, actions).log;
    hide Run; hide Times; hide Sound; hide Spaced; hide KeepsRecent; hide Ascending; hide Open;
    EmptyIsSound(o);
    EmptyKeepsLimits(o);
    RunKeepsLimits(o, EMPTY, actions);
    assert Fits(o, Open(log[..k]), log[k]);
    OpenUntilTaken(log, i, k);
  }
}
