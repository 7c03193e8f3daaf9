/**
 What a commit leaves in the store when it is cut off after any number of its writes:
 src/acs/protocol/omadm/session.py:100-133.
 */
module DmCommit {
  import opened Wrappers
  import opened DmModel

  /** The writes of a commit after the device's, which come in the order of the progress. */
  function RecordWrites(c: Changes): seq<Write> {
    if c.progressInRemainder then SessionWrites(c) + RemainderWrites(c) else RemainderWrites(c) + SessionWrites(c)
  }

  lemma {:induction false} ApplyAppends(st: Stored, ws: seq<Write>, w: Write)
    ensures ApplyAll(st, ws + [w]) == Apply(ApplyAll(st, ws), w)
    decreases |ws|
  {
    if ws == [] {
      assert ws + [w] == [w];
    } else {
      assert (ws + [w])[1..] == ws[1..] + [w];
      ApplyAppends(Apply(st, ws[0]), ws[1..], w);
    }
  }

  lemma ApplyPrefix(st: Stored, ws: seq<Write>, k: nat)
    requires k < |ws|
    ensures ApplyAll(st, ws[..k + 1]) == Apply(ApplyAll(st, ws[..k]), ws[k])
  {
    assert ws[..k + 1] == ws[..k] + [ws[k]];
    ApplyAppends(st, ws[..k], ws[k]);
  }

  /** The store after the first k writes of a commit. */
  function Cut(st: Stored, c: Changes, k: nat): Stored
    requires k <= |Writes(c)|
  {
    ApplyAll(st, Writes(c)[..k])
  }

  /** A commit that records its progress in the session: nothing of it shows before the last write. */
  ghost predicate InSession(c: Changes) {
    && !c.progressInRemainder
    && (c.session.Some? <==> !c.deleteSession)
    && (c.pending.Some? ==> c.session.Some?)
  }

  lemma SessionLast(st: Stored, c: Changes, k: nat)
    requires InSession(c) && k <= |Writes(c)|
    ensures Writes(c) != []
    ensures var r := Cut(st, c, k);
            if k == |Writes(c)| then
              && r.session == c.session
              && r.pending == (if c.deleteSession then None else if c.pending.Some? then c.pending
                               else if c.deletePending then None else st.pending)
            else
              && r.session == st.session
              && (c.deleteSession && k == |Writes(c)| - 1 ==> r.pending.None?)
              && (|| r.pending == st.pending
                  || (r.pending.None? && (c.deletePending || (c.deleteSession && k == |Writes(c)| - 1)))
                  || (c.pending.Some? && r.pending == c.pending))
  {
    var ws := Writes(c);
    assert ws[..0] == [];
    if 0 < k { ApplyPrefix(st, ws, k - 1); }
    if 1 < k { ApplyPrefix(st, ws, k - 2); }
    if 2 < k { ApplyPrefix(st, ws, k - 3); }
    if 3 < k { ApplyPrefix(st, ws, k - 4); }
    assert k <= 4;
    hide ApplyAll;
  }

  /** A commit that records its progress in the remainder: the session is written first. */
  ghost predicate InRemainder(c: Changes) {
    && c.progressInRemainder && c.device.Some?
    && (c.session.Some? <==> !c.deleteSession)
    && (c.pending.Some? <==> !c.deletePending)
    && (c.pending.Some? ==> c.session.Some?)
  }

  lemma RemainderLast(st: Stored, c: Changes, k: nat)
    requires InRemainder(c) && k <= |Writes(c)|
    ensures Writes(c) != []
    ensures var r := Cut(st, c, k);
            if k == |Writes(c)| then r.session == c.session && r.pending == c.pending
            else if c.deleteSession then
              if k < 2 then r.session == st.session && r.pending == st.pending
              else r.session.None? && (r.pending.None? || r.pending == st.pending)
            else (r.session == st.session || r.session == c.session) && r.pending == st.pending
  {
    var ws := Writes(c);
    assert ws[..0] == [];
    if 0 < k { ApplyPrefix(st, ws, k - 1); }
    if 1 < k { ApplyPrefix(st, ws, k - 2); }
    if 2 < k { ApplyPrefix(st, ws, k - 3); }
    if 3 < k { ApplyPrefix(st, ws, k - 4); }
    assert k <= 4;
    hide ApplyAll;
  }
}
