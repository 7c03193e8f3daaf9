/**
 How much of a queued package goes into the next message: src/acs/protocol/omadm/package.py, fill.

 `Sent` is the search as a function, `Fill` the search as the loop it is, with a log of the
 messages it built. The lemmas say what the search is for: the largest count that fits.
 */
module Fill {
  import opened Wrappers

  /** The message with the first n entries is within the client's limit. */
  predicate Fits<M>(build: nat -> M, size: M -> nat, limit: int, n: nat) {
    size(build(n)) <= limit
  }

  /** What fill demands of its caller: appending an entry never shrinks the message. */
  ghost predicate NonShrinking<M>(build: nat -> M, size: M -> nat, count: nat) {
    forall m: nat, n: nat :: m <= n <= count ==> size(build(m)) <= size(build(n))
  }

  function Gallop<M>(build: nat -> M, size: M -> nat, limit: int, fits: nat, tooMany: nat, step: nat): (r: (nat, nat))
    requires fits < tooMany && 0 < step
    ensures fits <= r.0 < r.1 <= tooMany
    decreases tooMany - fits
  {
    if fits + step < tooMany then
      if Fits(build, size, limit, fits + step)
      then Gallop(build, size, limit, fits + step, tooMany, 2 * step)
      else (fits, fits + step)
    else (fits, tooMany)
  }

  function Bisect<M>(build: nat -> M, size: M -> nat, limit: int, fits: nat, tooMany: nat): (n: nat)
    requires fits < tooMany
    ensures fits <= n < tooMany
    decreases tooMany - fits
  {
    if tooMany - fits > 1 then
      var probe := (fits + tooMany) / 2;
      if Fits(build, size, limit, probe)
      then Bisect(build, size, limit, probe, tooMany)
      else Bisect(build, size, limit, fits, probe)
    else fits
  }

  /**
   The number of entries fill puts into the message; None where it raises MessageTooLarge. With
   more entries required than there are, only the required number is tried.
   */
  function Sent<M>(build: nat -> M, size: M -> nat, limit: int, count: nat, required: nat): (n: Option<nat>)
    ensures n.Some? ==> required <= n.value && (required <= count ==> n.value <= count)
  {
    if count < required then (if Fits(build, size, limit, required) then Some(required) else None)
    else if required < count && Fits(build, size, limit, count) then Some(count)
    else if !Fits(build, size, limit, required) then None
    else
      var tooMany := if required < count then count else count + 1;
      var (f, t) := Gallop(build, size, limit, required, tooMany, 1);
      Some(Bisect(build, size, limit, f, t))
  }

  /** Whatever build does, a count that is returned fits: the message sent is within the limit. */
  lemma {:induction false} SentFits<M>(build: nat -> M, size: M -> nat, limit: int, count: nat, required: nat)
    ensures var n := Sent(build, size, limit, count, required);
            n.Some? ==> Fits(build, size, limit, n.value)
  {
    if required <= count && Fits(build, size, limit, required) {
      var tooMany := if required < count then count else count + 1;
      GallopFits(build, size, limit, required, tooMany, 1);
      var (f, t) := Gallop(build, size, limit, required, tooMany, 1);
      BisectFits(build, size, limit, f, t);
    }
  }

  lemma {:induction false} GallopFits<M>(build: nat -> M, size: M -> nat, limit: int, fits: nat, tooMany: nat,
                                         step: nat)
    requires fits < tooMany && 0 < step && Fits(build, size, limit, fits)
    ensures var (f, t) := Gallop(build, size, limit, fits, tooMany, step);
            Fits(build, size, limit, f) && (t == tooMany || !Fits(build, size, limit, t))
    decreases tooMany - fits
  {
    if fits + step < tooMany && Fits(build, size, limit, fits + step) {
      GallopFits(build, size, limit, fits + step, tooMany, 2 * step);
    }
  }

  lemma {:induction false} BisectFits<M>(build: nat -> M, size: M -> nat, limit: int, fits: nat, tooMany: nat)
    requires fits < tooMany && Fits(build, size, limit, fits)
    ensures var n := Bisect(build, size, limit, fits, tooMany);
            Fits(build, size, limit, n) && (n + 1 == tooMany || !Fits(build, size, limit, n + 1))
    decreases tooMany - fits
  {
    if tooMany - fits > 1 {
      var probe := (fits + tooMany) / 2;
      if Fits(build, size, limit, probe) {
        BisectFits(build, size, limit, probe, tooMany);
      } else {
        BisectFits(build, size, limit, fits, probe);
      }
    }
  }

  /**
   The point of the search: with a build that never shrinks it raises exactly when even the
   required entries do not fit, and otherwise sends the largest count that does.
   */
  lemma {:induction false} SentIsLargest<M>(build: nat -> M, size: M -> nat, limit: int, count: nat, required: nat)
    requires required <= count && NonShrinking(build, size, count)
    ensures var n := Sent(build, size, limit, count, required);
            && (n.None? <==> !Fits(build, size, limit, required))
            && (n.Some? ==> Fits(build, size, limit, n.value)
                            && forall m: nat :: n.value < m <= count ==> !Fits(build, size, limit, m))
  {
    SentFits(build, size, limit, count, required);
    var n := Sent(build, size, limit, count, required);
    if n.Some? && n.value < count {
      var (f, t) := Gallop(build, size, limit, required, count, 1);
      GallopFits(build, size, limit, required, count, 1);
      BisectFits(build, size, limit, f, t);
      assert !Fits(build, size, limit, n.value + 1);
      forall m: nat | n.value < m <= count
        ensures !Fits(build, size, limit, m)
      {
        assert size(build(n.value + 1)) <= size(build(m));
      }
    }
  }

  /** floor(log2(n)) */
  function Log2(n: nat): (k: nat)
    requires 0 < n
    ensures Pow2(k) <= n < Pow2(k + 1)
  {
    if n == 1 then 0 else 1 + Log2(n / 2)
  }

  function Pow2(k: nat): (p: nat)
    ensures 0 < p
  {
    if k == 0 then 1 else 2 * Pow2(k - 1)
  }

  lemma {:induction false} Pow2Order(a: nat, b: nat)
    requires a < b
    ensures 2 * Pow2(a) <= Pow2(b)
  {
    if a + 1 < b { Pow2Order(a, b - 1); }
  }

  /** Log2 is the only exponent between the two powers. */
  lemma Log2Unique(n: nat, k: nat)
    requires 0 < n && Pow2(k) <= n < Pow2(k + 1)
    ensures Log2(n) == k
  {
    var l := Log2(n);
    if l < k { Pow2Order(l, k); }
    if k < l { Pow2Order(k, l); }
  }

  /** No message after the first was built with more than `most` entries. */
  ghost predicate Below(builds: seq<nat>, most: int) {
    forall i :: 1 <= i < |builds| ==> builds[i] <= most
  }

  /** The logarithmic bound on the messages built to find that `sent` entries fit. */
  ghost predicate Economical(builds: seq<nat>, required: nat, sent: nat)
    requires required <= sent
  {
    && |builds| <= 3 + 2 * Log2(sent - required + 1)
    && Below(builds, required + 2 * (sent - required) + 1)
  }

  lemma EconomicalAfterGallop(builds: seq<nat>, required: nat, sent: nat, j: nat)
    requires required + Pow2(j) - 1 <= sent < required + 2 * Pow2(j) - 1
    requires |builds| <= 3 + 2 * j && Below(builds, required + 2 * Pow2(j) - 1)
    ensures Economical(builds, required, sent)
  {
    Log2Unique(sent - required + 1, j);
  }

  lemma Halve(gap: nat, j: nat)
    requires 1 < gap <= Pow2(j)
    ensures 0 < j && gap - gap / 2 <= Pow2(j - 1)
  {
  }

  /** The first loop of fill: double the step until a message is too large or the end is reached. */
  method GallopUp<M>(build: nat -> M, size: M -> nat, limit: int, required: nat, end: nat, first: M)
    returns (best: M, fits: nat, tooMany: nat, builds: seq<nat>, ghost j: nat)
    requires required < end && first == build(required)
    ensures (fits, tooMany) == Gallop(build, size, limit, required, end, 1)
    ensures best == build(fits)
    ensures fits == required + Pow2(j) - 1 && fits < tooMany <= required + 2 * Pow2(j) - 1
    ensures |builds| <= j + 1
    ensures forall i :: 0 <= i < |builds| ==> builds[i] <= required + 2 * Pow2(j) - 1
  {
    best, fits, tooMany, builds, j := first, required, end, [], 0;
    var step := 1;
    while fits + step < tooMany
      invariant required <= fits < tooMany
      invariant step == Pow2(j) && fits == required + step - 1
      invariant best == build(fits)
      invariant Gallop(build, size, limit, fits, tooMany, step) == Gallop(build, size, limit, required, end, 1)
      invariant |builds| <= j
      invariant forall i :: 0 <= i < |builds| ==> builds[i] <= fits
    {
      var probe := fits + step;
      var body := build(probe);
      builds := builds + [probe];
      if size(body) > limit {
        tooMany := probe;
        return;
      }
      fits, best := probe, body;
      step := step * 2;
      j := j + 1;
    }
  }

  /** The second loop of fill: halve the range between a count that fits and one that does not. */
  method BisectDown<M>(build: nat -> M, size: M -> nat, limit: int, low: nat, high: nat, first: M, ghost j: nat)
    returns (best: M, fits: nat, builds: seq<nat>)
    requires low < high <= low + Pow2(j) && first == build(low)
    ensures fits == Bisect(build, size, limit, low, high) && best == build(fits)
    ensures |builds| <= j
    ensures forall i :: 0 <= i < |builds| ==> builds[i] <= high
  {
    best, fits, builds := first, low, [];
    var tooMany := high;
    ghost var gap: nat := j;
    while tooMany - fits > 1
      invariant low <= fits < tooMany <= high
      invariant best == build(fits)
      invariant tooMany - fits <= Pow2(gap) && gap <= j
      invariant Bisect(build, size, limit, fits, tooMany) == Bisect(build, size, limit, low, high)
      invariant |builds| <= j - gap
      invariant forall i :: 0 <= i < |builds| ==> builds[i] <= high
    {
      var probe := (fits + tooMany) / 2;
      var body := build(probe);
      builds := builds + [probe];
      Halve(tooMany - fits, gap);
      gap := gap - 1;
      if size(body) <= limit {
        fits, best := probe, body;
      } else {
        tooMany := probe;
      }
    }
  }

  /**
   fill as the source runs it. `builds` lists the counts it called build with, in order. The
   result is the one `Sent` describes; with d entries sent beyond the required ones it builds at
   most 3 + 2 floor(log2(d + 1)) messages, and after the attempt at the whole queue none with
   more than required + 2d + 1 entries.
   */
  method Fill<M>(build: nat -> M, size: M -> nat, limit: int, count: nat, required: nat)
    returns (r: Result<(M, nat), nat>, builds: seq<nat>)
    ensures r.Ok? <==> Sent(build, size, limit, count, required).Some?
    ensures r.Ok? ==> Sent(build, size, limit, count, required) == Some(r.value.1)
                      && r.value.0 == build(r.value.1)
    ensures r.Err? ==> r.error == size(build(required)) && limit < r.error
    ensures r.Ok? ==> Economical(builds, required, r.value.1)
    ensures r.Err? ==> |builds| <= 2
  {
    builds := [];
    if required < count {
      var whole := build(count);
      builds := builds + [count];
      if size(whole) <= limit {
        return Ok((whole, count)), builds;
      }
    }
    var first := build(required);
    builds := builds + [required];
    if size(first) > limit {
      return Err(size(first)), builds;
    }
    if count < required {
      // Both loops below are empty: no count lies between the required one and the end.
      return Ok((first, required)), builds;
    }
    // The smallest count known not to fit: here count > required means the whole queue did not.
    var end := if required < count then count else count + 1;
    var best, fits, tooMany, up, j := GallopUp(build, size, limit, required, end, first);
    var sent, down;
    best, sent, down := BisectDown(build, size, limit, fits, tooMany, best, j);
    builds := builds + up + down;
    EconomicalAfterGallop(builds, required, sent, j);
    r := Ok((best, sent));
  }
}
