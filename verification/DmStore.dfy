/**
 The DM records of MemoryStore and the commit that writes them, updated in place:
 src/acs/store/memory.py:141-184 and src/acs/protocol/omadm/session.py:89-133.
 */
module DmStore {
  import opened Wrappers
  import opened DmModel
  import opened DmCommit

  /** A dictionary-backed store whose writes can fail: `fuse` counts the ones that still succeed. */
  class MemoryStore {
    var sessions: map<string, Session>
    var pending: map<string, Pending>
    var devices: map<string, Device>
    var fuse: Option<nat>

    constructor ()
      ensures sessions == map[] && pending == map[] && devices == map[] && fuse == None
    {
      sessions, pending, devices, fuse := map[], map[], map[], None;
    }

    /** The records of one session key and its device. */
    function Records(key: string, device: string): Stored
      reads this
    {
      Stored(if key in sessions then Some(sessions[key]) else None,
             if key in pending then Some(pending[key]) else None,
             if device in devices then Some(devices[device]) else None)
    }

    /** Everything but the records of one session key and its device. */
    function Elsewhere(key: string, device: string): (map<string, Session>, map<string, Pending>, map<string, Device>)
      reads this
    {
      (sessions - {key}, pending - {key}, devices - {device})
    }

    /** Whether the next write succeeds. */
    method Burn() returns (ok: bool)
      modifies this`fuse
      ensures ok <==> old(fuse) != Some(0)
      ensures fuse == if old(fuse).Some? && ok then Some(old(fuse).value - 1) else old(fuse)
    {
      ok := fuse != Some(0);
      if fuse.Some? && ok { fuse := Some(fuse.value - 1); }
    }

    method PutDevice(device: string, d: Device) returns (ok: bool)
      modifies this`fuse, this`devices
      ensures ok <==> old(fuse) != Some(0)
      ensures fuse == if old(fuse).Some? && ok then Some(old(fuse).value - 1) else old(fuse)
      ensures devices == if ok then old(devices)[device := d] else old(devices)
    {
      ok := Burn();
      if ok { devices := devices[device := d]; }
    }

    method PutDmSession(key: string, x: Session) returns (ok: bool)
      modifies this`fuse, this`sessions
      ensures ok <==> old(fuse) != Some(0)
      ensures fuse == if old(fuse).Some? && ok then Some(old(fuse).value - 1) else old(fuse)
      ensures sessions == if ok then old(sessions)[key := x] else old(sessions)
    {
      ok := Burn();
      if ok { sessions := sessions[key := x]; }
    }

    method DeleteDmSession(key: string) returns (ok: bool)
      modifies this`fuse, this`sessions
      ensures ok <==> old(fuse) != Some(0)
      ensures fuse == if old(fuse).Some? && ok then Some(old(fuse).value - 1) else old(fuse)
      ensures sessions == if ok then old(sessions) - {key} else old(sessions)
    {
      ok := Burn();
      if ok { sessions := sessions - {key}; }
    }

    method PutDmPending(key: string, p: Pending) returns (ok: bool)
      modifies this`fuse, this`pending
      ensures ok <==> old(fuse) != Some(0)
      ensures fuse == if old(fuse).Some? && ok then Some(old(fuse).value - 1) else old(fuse)
      ensures pending == if ok then old(pending)[key := p] else old(pending)
    {
      ok := Burn();
      if ok { pending := pending[key := p]; }
    }

    method DeleteDmPending(key: string) returns (ok: bool)
      modifies this`fuse, this`pending
      ensures ok <==> old(fuse) != Some(0)
      ensures fuse == if old(fuse).Some? && ok then Some(old(fuse).value - 1) else old(fuse)
      ensures pending == if ok then old(pending) - {key} else old(pending)
    {
      ok := Burn();
      if ok { pending := pending - {key}; }
    }

    /** get_dm_session: an expired session is removed on the way. */
    method GetDmSession(key: string, clock: int, ghost device: string) returns (r: Option<Session>)
      modifies this`sessions
      ensures Records(key, device) == SweepSession(old(Records(key, device)), clock)
      ensures r == Records(key, device).session
      ensures var x := old(Records(key, device)).session;
              r == if x.Some? && (x.value.expiresAt == 0 || clock <= x.value.expiresAt) then x else None
      ensures sessions - {key} == old(sessions) - {key}
    {
      if key !in sessions { return None; }
      var session := sessions[key];
      if session.expiresAt != 0 && session.expiresAt < clock {
        sessions := sessions - {key};
        return None;
      }
      r := Some(session);
    }

    method GetDmPending(key: string, clock: int, ghost device: string) returns (r: Option<Pending>)
      modifies this`pending
      ensures Records(key, device) == SweepPending(old(Records(key, device)), clock)
      ensures r == Records(key, device).pending
      ensures var p := old(Records(key, device)).pending;
              r == if p.Some? && (p.value.expiresAt == 0 || clock <= p.value.expiresAt) then p else None
      ensures pending - {key} == old(pending) - {key}
    {
      if key !in pending { return None; }
      var p := pending[key];
      if p.expiresAt != 0 && p.expiresAt < clock {
        pending := pending - {key};
        return None;
      }
      r := Some(p);
    }

    method GetDevice(device: string) returns (r: Option<Device>)
      ensures r == Records("", device).device
    {
      r := if device in devices then Some(devices[device]) else None;
    }
  }

  // ---- runs of writes ----

  function DeviceWrites(c: Changes): seq<Write> {
    if c.device.Some? then [PutDevice(c.device.value)] else []
  }

  /** What a run of writes does to the records while the fuse lasts. */
  ghost predicate Runs(before: Stored, after: Stored, fuse: Option<nat>, left: Option<nat>, ws: seq<Write>, ok: bool) {
    && (ok <==> fuse.None? || |ws| <= fuse.value)
    && after == ApplyAll(before, if fuse.None? || |ws| <= fuse.value then ws else ws[..fuse.value])
    && left == (if fuse.None? then None else if |ws| <= fuse.value then Some(fuse.value - |ws|) else Some(0))
  }

  lemma {:induction false} ApplyConcat(st: Stored, a: seq<Write>, b: seq<Write>)
    ensures ApplyAll(st, a + b) == ApplyAll(ApplyAll(st, a), b)
    decreases |b|
  {
    if b == [] {
      assert a + b == a;
    } else {
      var last := |b| - 1;
      assert a + b == (a + b[..last]) + [b[last]] && b == b[..last] + [b[last]];
      ApplyConcat(st, a, b[..last]);
      ApplyAppends(st, a + b[..last], b[last]);
      ApplyAppends(ApplyAll(st, a), b[..last], b[last]);
    }
  }

  lemma RunsThen(a: Stored, b: Stored, c: Stored, f: Option<nat>, g: Option<nat>, h: Option<nat>, ws: seq<Write>,
                 vs: seq<Write>, ok: bool)
    requires Runs(a, b, f, g, ws, true) && Runs(b, c, g, h, vs, ok)
    ensures Runs(a, c, f, h, ws + vs, ok)
  {
    if ok {
      ApplyConcat(a, ws, vs);
    } else {
      ApplyConcat(a, ws, vs[..g.value]);
      assert (ws + vs)[..f.value] == ws + vs[..g.value];
    }
    hide ApplyAll;
  }

  lemma RunsStopped(a: Stored, b: Stored, f: Option<nat>, g: Option<nat>, ws: seq<Write>, vs: seq<Write>)
    requires Runs(a, b, f, g, ws, false)
    ensures Runs(a, b, f, g, ws + vs, false)
  {
    assert (ws + vs)[..f.value] == ws[..f.value];
    hide ApplyAll;
  }

  lemma RunsNone(a: Stored, f: Option<nat>)
    ensures Runs(a, a, f, f, [], true)
  {
  }

  /** The next write of a run: it goes through, or it stops the run. */
  lemma RunsOn(a: Stored, b: Stored, f: Option<nat>, g: Option<nat>, all: seq<Write>, n: nat)
    requires n < |all| && Runs(a, b, f, g, all[..n], true)
    ensures g != Some(0) ==> Runs(a, Apply(b, all[n]), f, if g.Some? then Some(g.value - 1) else g, all[..n + 1], true)
    ensures g == Some(0) ==> Runs(a, b, f, g, all, false)
  {
    ApplyPrefix(a, all, n);
    if g == Some(0) { assert all[..n] == all[..f.value]; }
    hide ApplyAll;
  }

  // ---- the commit ----

  /** _DmChanges: what handling a message asks to be saved. */
  class DmChanges {
    var session: Option<Session>
    var device: Option<Device>
    var pending: Option<Pending>
    var deletePendingId: string
    var deleteSessionId: string
    var progressInRemainder: bool

    constructor ()
      ensures Value() == NO_CHANGES
    {
      session, device, pending := None, None, None;
      deletePendingId, deleteSessionId, progressInRemainder := "", "", false;
    }

    function Value(): Changes
      reads this
    {
      Changes(session, device, pending, deletePendingId != "", deleteSessionId != "", progressInRemainder)
    }

    /** The ids, where set, are the session's own key. */
    predicate For(key: string)
      reads this
    {
      key != "" && deletePendingId in {"", key} && deleteSessionId in {"", key}
    }

    method SaveRemainder(store: MemoryStore, key: string, ghost dev: string) returns (ok: bool)
      requires For(key)
      modifies store`fuse, store`pending
      ensures Runs(old(store.Records(key, dev)), store.Records(key, dev), old(store.fuse), store.fuse,
          RemainderWrites(Value()), ok)
      ensures store.pending - {key} == old(store.pending) - {key}
    {
      hide Runs;
      ghost var a, f, all, n := store.Records(key, dev), store.fuse, RemainderWrites(Value()), 0;
      RunsNone(a, f);
      assert all[..0] == [];
      if deletePendingId != "" {
        RunsOn(a, store.Records(key, dev), f, store.fuse, all, n);
        ok := store.DeleteDmPending(deletePendingId);
        if !ok { return; }
        n := n + 1;
      }
      assert Runs(a, store.Records(key, dev), f, store.fuse, all[..n], true);
      if pending.Some? {
        RunsOn(a, store.Records(key, dev), f, store.fuse, all, n);
        ok := store.PutDmPending(key, pending.value);
        if !ok { return; }
        n := n + 1;
      }
      assert Runs(a, store.Records(key, dev), f, store.fuse, all[..n], true);
      if deleteSessionId != "" {
        RunsOn(a, store.Records(key, dev), f, store.fuse, all, n);
        ok := store.DeleteDmPending(deleteSessionId);
        if !ok { return; }
        n := n + 1;
      }
      assert all[..n] == all;
      ok := true;
    }

    method SaveSession(store: MemoryStore, key: string, ghost dev: string) returns (ok: bool)
      requires For(key)
      modifies store`fuse, store`sessions
      ensures Runs(old(store.Records(key, dev)), store.Records(key, dev), old(store.fuse), store.fuse,
          SessionWrites(Value()), ok)
      ensures store.sessions - {key} == old(store.sessions) - {key}
    {
      hide Runs;
      ghost var a, f, all, n := store.Records(key, dev), store.fuse, SessionWrites(Value()), 0;
      RunsNone(a, f);
      assert all[..0] == [];
      if session.Some? {
        RunsOn(a, store.Records(key, dev), f, store.fuse, all, n);
        ok := store.PutDmSession(key, session.value);
        if !ok { return; }
        n := n + 1;
      }
      if deleteSessionId != "" {
        RunsOn(a, store.Records(key, dev), f, store.fuse, all, n);
        ok := store.DeleteDmSession(deleteSessionId);
        if !ok { return; }
        n := n + 1;
      }
      assert all[..n] == all;
      ok := true;
    }

    method SaveDevice(store: MemoryStore, ghost key: string, dev: string) returns (ok: bool)
      modifies store`fuse, store`devices
      ensures Runs(old(store.Records(key, dev)), store.Records(key, dev), old(store.fuse), store.fuse,
          DeviceWrites(Value()), ok)
      ensures store.devices - {dev} == old(store.devices) - {dev}
    {
      hide Runs;
      ghost var a, f, all := store.Records(key, dev), store.fuse, DeviceWrites(Value());
      RunsNone(a, f);
      assert all[..0] == [];
      ok := true;
      if device.Some? {
        RunsOn(a, store.Records(key, dev), f, store.fuse, all, 0);
        ok := store.PutDevice(dev, device.value);
        assert all[..1] == all;
      }
    }

    /**
     commit: the writes of `Writes`, in that order, up to the one that fails. No other session's or
     device's records are touched.
     */
    method Commit(store: MemoryStore, key: string, dev: string) returns (ok: bool)
      requires For(key)
      modifies store
      ensures Runs(old(store.Records(key, dev)), store.Records(key, dev), old(store.fuse), store.fuse,
          Writes(Value()), ok)
      ensures store.Elsewhere(key, dev) == old(store.Elsewhere(key, dev))
    {
      hide Runs;
      ghost var a, f, c := store.Records(key, dev), store.fuse, Value();
      ghost var first, second := DeviceWrites(c), RecordWrites(c);
      assert Writes(c) == first + second;
      ok := SaveDevice(store, key, dev);
      if !ok { RunsStopped(a, store.Records(key, dev), f, store.fuse, first, second); return; }
      ghost var b, g := store.Records(key, dev), store.fuse;
      if progressInRemainder {
        ok := SaveSession(store, key, dev);
        ghost var x, h := store.Records(key, dev), store.fuse;
        if !ok {
          RunsStopped(b, x, g, h, SessionWrites(c), RemainderWrites(c));
        } else {
          ok := SaveRemainder(store, key, dev);
          RunsThen(b, x, store.Records(key, dev), g, h, store.fuse, SessionWrites(c), RemainderWrites(c), ok);
        }
      } else {
        ok := SaveRemainder(store, key, dev);
        ghost var x, h := store.Records(key, dev), store.fuse;
        if !ok {
          RunsStopped(b, x, g, h, RemainderWrites(c), SessionWrites(c));
        } else {
          ok := SaveSession(store, key, dev);
          RunsThen(b, x, store.Records(key, dev), g, h, store.fuse, RemainderWrites(c), SessionWrites(c), ok);
        }
      }
      RunsThen(a, b, store.Records(key, dev), f, g, store.fuse, first, second, ok);
    }
  }
}
