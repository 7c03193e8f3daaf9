/**
 DmService as the source runs it, over a store it updates in place, and the client's loop:
 src/acs/protocol/omadm/session.py:223-475, :607-773 and tools/dm_client_sim.py:219-244.

 Every method is proved against its function in DmModel, so what is proved about runs of `Perform`
 is about this code.
 */
module DmService {
  import opened Wrappers
  import opened Package
  import opened Messages
  import opened DmModel
  import opened DmStore
  import F = DmReplies
  import Fill
  import G = DmGuards
  import R = DmRecords
  import S = SyncMl
  import T = MoTree
  import B = SyncMlBuilder

  /** DmResponse, as far as it is decided here. */
  datatype Response = Response(status: nat, reply: Option<Reply>, finished: bool)

  /** A response with what is to be saved, or the status of a refusal, is the outcome of the model. */
  ghost predicate Is(r: Result<Response, nat>, c: Changes, out: Outcome) {
    match r
    case Ok(x) => out.Answered? && out.status == x.status && out.reply == x.reply && out.finished == x.finished
        && out.changes == c
    case Err(status) => out == Refused(status)
  }

  class DmService {
    const settings: Settings
    const store: MemoryStore

    constructor (settings: Settings, store: MemoryStore)
      ensures this.settings == settings && this.store == store
    {
      this.settings, this.store := settings, store;
    }

    /** _next_message: the message and how many entries of the queue it holds, found by `fill`. */
    method NextMessage(m: S.Message, code: string, challenge: Option<B.Challenge>, queue: seq<Entry>, required: nat)
      returns (r: Option<(Reply, nat)>)
      ensures r == DmModel.NextMessage(settings, m, code, challenge, queue, required)
      ensures r.Some? ==>
                && G.Within(settings, m, settings.size(r.value.0)) && F.Addressed(settings, m, r.value.0)
                && r.value.0.code == code && r.value.0.challenge == challenge
    {
      hide G.Within; hide F.Addressed;
      F.NextSays(settings, m, code, challenge, queue, required);
      var base := BaseReply(settings, m, code, challenge);
      var build := (n: nat) => Messages.Prefix(base, queue, n);
      var filled, _ := Fill.Fill(build, settings.size, MaxMsgSize(settings, m), |queue|, required);
      hide Fill.Sent; hide BaseReply; hide MaxMsgSize;
      r := if filled.Ok? then Some(filled.value) else None;
    }

    /** _absorb_device_values. */
    method AbsorbDeviceValues(m: S.Message, imsi: string, dev: string, ghost key: string) returns (d: Device)
      ensures d == Absorbed(settings, m, imsi, store.Records(key, dev).device)
      ensures R.RecordedFrom(settings, m, imsi, store.Records(key, dev).device, d)
    {
      hide R.RecordedFrom;
      R.LastReportIsRecorded(settings, m, imsi, store.Records(key, dev).device);
      var stored := store.GetDevice(dev);
      var device := if stored.Some? then stored.value else Device("", map[]);
      var values := device.values;
      var i := 0;
      while i < |m.commands|
        invariant i <= |m.commands|
        invariant AbsorbCommands(settings.tree, m.commands[i..], values)
            == AbsorbCommands(settings.tree, m.commands, device.values)
      {
        var c := m.commands[i];
        assert m.commands[i..][1..] == m.commands[i + 1..];
        if c.name in {"Replace", "Results", "Add"} { values := AbsorbItemsOf(c.items, values); }
        i := i + 1;
      }
      d := Device(if imsi != "" then imsi else device.imsi, values);
    }

    method AbsorbItemsOf(items: seq<S.Item>, before: map<string, string>) returns (values: map<string, string>)
      ensures values == AbsorbItems(settings.tree, items, before)
    {
      values := before;
      var i := 0;
      while i < |items|
        invariant i <= |items|
        invariant AbsorbItems(settings.tree, items[i..], values) == AbsorbItems(settings.tree, items, before)
      {
        var item := items[i];
        var uri := item.Uri();
        assert items[i..][1..] == items[i + 1..];
        if uri != "" && item.data != "" {
          var node := T.Node(settings.tree, uri);
          if node.Some? && node.value.source == T.Device { values := values[uri := item.data]; }
        }
        i := i + 1;
      }
    }

    /** _start_package: the message, and how many entries are left for later ones. */
    method StartPackage(m: S.Message, session: Session, queue: seq<Entry>, changes: DmChanges)
      returns (r: Result<(Reply, nat), nat>)
      modifies changes`pending
      ensures var (code, challenge) := HeaderChallenge(settings, session);
              var next := DmModel.NextMessage(settings, m, code, challenge, queue, if queue == [] then 0 else 1);
              if next.None? then r == Err(400) && changes.pending == old(changes.pending)
              else
                var rest := Rest(queue, next.value.1);
                var rows := ToStored(rest, settings.jsonSize);
                if rest != [] && rows.Err? then r == Err(413)
                else
                  && r == Ok((next.value.0, |rest|))
                  && changes.pending == if rest == [] then old(changes.pending)
                                        else Some(Pending(session.phase, rows.value, 1, session.expiresAt))
    {
      hide R.RecordedFrom; hide G.Within; hide F.Addressed;
      hide DmModel.NextMessage; hide ToRows;
      var (code, challenge) := HeaderChallenge(settings, session);
      var next := NextMessage(m, code, challenge, queue, if queue == [] then 0 else 1);
      if next.None? { return Err(400); }
      var (reply, sent) := next.value;
      var rest := if sent <= |queue| then queue[sent..] else [];
      if rest != [] {
        var rows := ToStored(rest, settings.jsonSize);
        if rows.Err? { return Err(413); }
        changes.pending := Some(Pending(session.phase, rows.value, 1, session.expiresAt));
      }
      r := Ok((reply, |rest|));
    }

    method HandleInit(m: S.Message, session: Session, changes: DmChanges, dev: string, ghost key: string)
      returns (r: Result<Response, nat>)
      modifies changes
      requires changes.Value() == NO_CHANGES.(deletePending := changes.deletePendingId != "")
      ensures Is(r, changes.Value(),
          DmModel.HandleInit(settings, store.Records(key, dev), m, session, old(changes.Value())))
      ensures changes.deletePendingId == old(changes.deletePendingId)
          && changes.deleteSessionId == old(changes.deleteSessionId)
    {
      hide R.RecordedFrom; hide G.Within; hide F.Addressed;
      hide DmModel.NextMessage; hide ToStored; hide Acks; hide S.HasAlert; hide HeaderChallenge; hide Gets; hide Rest;
      hide T.DeviceQueryUris; hide Absorbed;
      if !(S.HasAlert(m, "1201") || S.HasAlert(m, "1200")) { return Ok(Response(400, None, false)); }
      var device := AbsorbDeviceValues(m, session.imsi, dev, key);
      changes.device := Some(device);
      var queue := Acks(settings, m) + Gets(T.DeviceQueryUris(settings.tree));
      var moved := session.(phase := DevInfo);
      var started :- StartPackage(m, moved, queue, changes);
      changes.session := Some(moved);
      r := Ok(Response(200, Some(started.0), false));
    }

    method HandleDevInfo(rq: Request, session: Session, changes: DmChanges, dev: string, ghost key: string)
      returns (r: Result<Response, nat>)
      modifies changes
      requires changes.Value() == NO_CHANGES.(deletePending := changes.deletePendingId != "")
      ensures Is(r, changes.Value(),
          DmModel.HandleDevInfo(settings, store.Records(key, dev), rq, session, old(changes.Value())))
      ensures changes.deletePendingId == old(changes.deletePendingId)
          && changes.deleteSessionId == old(changes.deleteSessionId)
    {
      hide R.RecordedFrom; hide G.Within; hide F.Addressed;
      hide DmModel.NextMessage; hide ToStored; hide Acks; hide HeaderChallenge; hide Adds; hide Replaces;
      hide Uris; hide Rest;
      hide T.InteriorNodesFor; hide Absorbed;
      var device := AbsorbDeviceValues(rq.message, session.imsi, dev, key);
      changes.device := Some(device);
      var interiors := T.InteriorNodes(settings.tree, Uris(rq.values));
      var queue := Acks(settings, rq.message) + Adds(interiors) + Replaces(rq.values);
      var moved := session.(phase := Configure);
      var started :- StartPackage(rq.message, moved, queue, changes);
      changes.session := Some(moved);
      r := Ok(Response(200, Some(started.0), false));
    }

    method HandleFinish(m: S.Message, session: Session, changes: DmChanges, key: string)
      returns (r: Result<Response, nat>)
      modifies changes
      requires key != "" && changes.Value() == NO_CHANGES.(deletePending := changes.deletePendingId != "")
      ensures Is(r, changes.Value(), DmModel.HandleFinish(settings, m, session, old(changes.Value())))
      ensures changes.deletePendingId == old(changes.deletePendingId) && changes.deleteSessionId in {"", key}
    {
      hide DmModel.NextMessage; hide ToStored; hide Acks; hide HeaderChallenge; hide Rest; hide FailuresIn;
      var moved := session.(phase := Done, reportedFailures := session.reportedFailures + FailuresIn(m.commands));
      var started :- StartPackage(m, moved, Acks(settings, m), changes);
      if started.1 > 0 {
        changes.session := Some(moved);
        return Ok(Response(200, Some(started.0), false));
      }
      changes.deleteSessionId := key;
      r := Ok(Response(200, Some(started.0), true));
    }

    method ContinuePackage(m: S.Message, session: Session, pending: Pending, changes: DmChanges, dev: string,
                           key: string)
      returns (r: Result<Response, nat>)
      modifies changes
      requires key != "" && changes.Value() == NO_CHANGES
      ensures Is(r, changes.Value(),
          DmModel.ContinuePackage(settings, store.Records(key, dev), m, session, pending, NO_CHANGES))
      ensures changes.deletePendingId in {"", key} && changes.deleteSessionId in {"", key}
    {
      hide R.RecordedFrom; hide G.Within; hide F.Addressed;
      hide DmModel.NextMessage; hide ToStored; hide FromStored; hide Acks; hide HeaderChallenge; hide Rest;
      hide FailuresIn; hide Absorbed;
      if pending.messages >= MAX_MESSAGES_PER_PACKAGE {
        changes.deleteSessionId := key;
        return Ok(Response(413, None, true));
      }
      var device := AbsorbDeviceValues(m, session.imsi, dev, key);
      changes.device := Some(device);
      changes.progressInRemainder := true;
      var counted := if session.phase == Configure || session.phase == Done
                     then session.(reportedFailures := session.reportedFailures + FailuresIn(m.commands)) else session;
      var acks := Acks(settings, m);
      var (code, challenge) := HeaderChallenge(settings, counted);
      var next := NextMessage(m, code, challenge, acks + FromStored(pending.rows), |acks| + 1);
      if next.None? { return Err(400); }
      var rest := Rest(acks + FromStored(pending.rows), next.value.1);
      if rest != [] {
        var rows := ToStored(rest, settings.jsonSize);
        if rows.Err? { return Err(413); }
        changes.pending := Some(pending.(rows := rows.value, messages := pending.messages + 1));
      } else {
        changes.deletePendingId := key;
        if counted.phase == Done {
          changes.deleteSessionId := key;
          return Ok(Response(200, Some(next.value.0), true));
        }
      }
      changes.session := Some(counted);
      r := Ok(Response(200, Some(next.value.0), false));
    }

    /** Alert 1223 or 1226: one last message with every acknowledgement, and the session goes. */
    method CloseForClient(m: S.Message, session: Session, changes: DmChanges, key: string)
      returns (r: Result<Response, nat>)
      modifies changes
      requires key != "" && changes.Value() == NO_CHANGES.(deletePending := changes.deletePendingId != "")
      ensures Is(r, changes.Value(), DmModel.CloseForClient(settings, m, session, old(changes.Value())))
      ensures changes.deletePendingId == old(changes.deletePendingId) && changes.deleteSessionId in {"", key}
    {
      hide R.RecordedFrom; hide G.Within; hide F.Addressed;
      hide DmModel.NextMessage; hide Acks; hide HeaderChallenge;
      var acks := Acks(settings, m);
      var (code, challenge) := HeaderChallenge(settings, session);
      var next := NextMessage(m, code, challenge, acks, |acks|);
      if next.None? { return Err(400); }
      changes.deleteSessionId := key;
      r := Ok(Response(200, Some(next.value.0), true));
    }

    /** _handle_message after authentication. */
    method HandleAccepted(rq: Request, session: Session, changes: DmChanges, key: string, dev: string)
      returns (r: Result<Response, nat>)
      requires key != "" && changes.Value() == NO_CHANGES && changes.For(key)
      modifies changes, store`pending
      ensures store.Records(key, dev) ==
              if TooManyCommands(settings, rq.message) then old(store.Records(key, dev))
              else SweepPending(old(store.Records(key, dev)), rq.pendingClock)
      ensures store.pending - {key} == old(store.pending) - {key}
      ensures Is(r, changes.Value(), DmModel.HandleAccepted(settings, store.Records(key, dev), rq, session))
      ensures changes.For(key)
    {
      hide Acks; hide S.HasAlert; hide Is; hide DmModel.CloseForClient; hide DmModel.HandleInit;
      hide DmModel.HandleDevInfo;
      hide DmModel.HandleFinish; hide DmModel.ContinuePackage; hide SweepPending;
      var m := rq.message;
      if |Acks(settings, m)| > MAX_ACKNOWLEDGED_COMMANDS {
        TooManyIs(settings, store.Records(key, dev), rq, session);
        return Ok(Response(413, None, false));
      }
      var pending := store.GetDmPending(key, rq.pendingClock, dev);
      if pending.Some? && pending.value.phase != session.phase {
        changes.deletePendingId := key;
        pending := None;
      }
      if S.HasAlert(m, "1223") || S.HasAlert(m, "1226") {
        r := CloseForClient(m, session, changes, key);
      } else if pending.Some? {
        r := ContinuePackage(m, session, pending.value, changes, dev, key);
      } else if session.phase == Init {
        r := HandleInit(m, session, changes, dev, key);
      } else if session.phase == DevInfo {
        r := HandleDevInfo(rq, session, changes, dev, key);
      } else {
        r := HandleFinish(m, session, changes, key);
      }
    }

    /** _handle_message: an expired record is gone once it has been read. */
    method HandleMessage(rq: Request, changes: DmChanges, key: string, dev: string) returns (r: Result<Response, nat>)
      requires key != "" && changes.Value() == NO_CHANGES && changes.For(key)
      modifies changes, store`sessions, store`pending
      ensures store.Records(key, dev) == Swept(settings, old(store.Records(key, dev)), rq)
      ensures store.Elsewhere(key, dev) == old(store.Elsewhere(key, dev))
      ensures Is(r, changes.Value(), DmModel.Handle(settings, store.Records(key, dev), rq))
      ensures changes.For(key)
    {
      hide Acks; hide DmModel.NextMessage; hide DmModel.HandleAccepted; hide Is; hide SweepPending;
      hide SweepSession; hide TooManyCommands;
      var header := rq.message.header;
      if header.sessionId == "" || header.msgId == "" {
        PlainIs(Response(400, None, false));
        return Ok(Response(400, None, false));
      }
      var stored := store.GetDmSession(key, rq.sessionClock, dev);
      var session := if stored.Some? then stored.value
                     else Session(Init, "", 0, false, "", 0, rq.sessionClock + settings.sessionTtl);
      match rq.auth
      case Rejected(nonce, code, authType) =>
        changes.session := Some(session.(nonce := nonce, authenticated := false));
        var next := NextMessage(rq.message, code, Some(B.Challenge(authType, nonce)), [], 0);
        r := if next.None? then Err(400) else Ok(Response(200, Some(next.value.0), false));
        RejectedIs(settings, store.Records(key, dev), rq, session, r, changes.Value());
      case Accepted(username) =>
        var n := settings.number(header.msgId);
        session := session.(authenticated := true, imsi := if username != "" then username else session.imsi,
                            lastMsgId := if n.Some? then n.value else 0);
        assert SessionFor(settings, store.Records(key, dev), rq).phase == session.phase;
        ghost var st1 := store.Records(key, dev);
        r := HandleAccepted(rq, session, changes, key, dev);
        SweepsApart(st1, rq.pendingClock);
    }

    /**
     One request, as the client sees it: None where the commit fails and no answer leaves the
     server. Records of other sessions and devices are left alone.
     */
    method Handle(rq: Request, key: string, dev: string) returns (r: Option<Result<Response, nat>>)
      requires key != ""
      modifies store
      ensures var e := Perform(settings, old(store.Records(key, dev)), Attempt(rq, old(store.fuse)));
              && store.Records(key, dev) == e.st
              && r == (if e.answer.Some? then Some(Told(e.answer.value)) else None)
      ensures store.Elsewhere(key, dev) == old(store.Elsewhere(key, dev))
      ensures old(store.fuse).None? ==> store.fuse.None?
    {
      hide DmModel.Handle; hide Swept; hide ApplyAll; hide Writes; hide Perform;
      var changes := new DmChanges();
      ghost var before, fuse := store.Records(key, dev), store.fuse;
      var handled := HandleMessage(rq, changes, key, dev);
      ghost var out := DmModel.Handle(settings, store.Records(key, dev), rq);
      if handled.Err? {
        RefusedIsPerform(settings, before, rq, fuse);
        return Some(handled);
      }
      var ok := changes.Commit(store, key, dev);
      RunsIsPerform(settings, before, store.Records(key, dev), rq, fuse, store.fuse, out, ok);
      r := if ok then Some(handled) else None;
    }
  }

  /** What the server says of an outcome. */
  function Told(out: Outcome): Result<Response, nat> {
    match out
    case Refused(status) => Err(status)
    case Answered(status, reply, finished, _, _) => Ok(Response(status, reply, finished))
  }

  /** A run of writes from the fuse is the commit of an attempt that fails where the fuse blows. */
  lemma RunsIsPerform(s: Settings, before: Stored, after: Stored, rq: Request, fuse: Option<nat>, left: Option<nat>,
                      out: Outcome, ok: bool)
    requires out == DmModel.Handle(s, Swept(s, before, rq), rq) && out.Answered?
    requires Runs(Swept(s, before, rq), after, fuse, left, Writes(out.changes), ok)
    ensures Perform(s, before, Attempt(rq, fuse)) == Effect(after, if ok then Some(out) else None)
  {
    hide DmModel.Handle; hide Swept; hide ApplyAll;
    var ws := Writes(out.changes);
    hide Writes;
  }

  lemma RefusedIsPerform(s: Settings, st: Stored, rq: Request, fuse: Option<nat>)
    requires DmModel.Handle(s, Swept(s, st, rq), rq).Refused?
    ensures Perform(s, st, Attempt(rq, fuse)) == Effect(Swept(s, st, rq), Some(DmModel.Handle(s, Swept(s, st, rq), rq)))
  {
    hide DmModel.Handle; hide Swept;
  }

  lemma SweepsApart(st: Stored, clock: int)
    ensures SweepPending(st, clock).session == st.session
  {
  }

  lemma PlainIs(x: Response)
    ensures Is(Ok(x), NO_CHANGES, Answered(x.status, x.reply, x.finished, NO_CHANGES, NoPackage))
  {
  }

  lemma TooManyIs(s: Settings, st: Stored, rq: Request, session: Session)
    requires TooManyCommands(s, rq.message)
    ensures Is(Ok(Response(413, None, false)), NO_CHANGES, DmModel.HandleAccepted(s, st, rq, session))
  {
    hide Acks;
  }

  lemma RejectedIs(s: Settings, st: Stored, rq: Request, session: Session, r: Result<Response, nat>, c: Changes)
    requires WellAddressed(rq.message) && rq.auth.Rejected? && session == SessionFor(s, st, rq)
    requires c == NO_CHANGES.(session := Some(session.(nonce := rq.auth.nonce, authenticated := false)))
    requires var next := DmModel.NextMessage(s, rq.message, rq.auth.code,
        Some(B.Challenge(rq.auth.authType, rq.auth.nonce)), [], 0);
             r == if next.None? then Err(400) else Ok(Response(200, Some(next.value.0), false))
    ensures Is(r, c, DmModel.Handle(s, st, rq))
  {
    hide DmModel.NextMessage;
  }
}
