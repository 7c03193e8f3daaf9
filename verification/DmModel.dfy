/**
 One message of an OMA-DM session on values: src/acs/protocol/omadm/session.py.

 `Handle` is `_handle_message`: what the server answers to one request in one state of the two
 records, and what it means to save. `Writes` is the order `_DmChanges.commit` saves it in. The
 encoding is a size measure, authentication an input, and each record is read at its own moment.
 */
module DmModel {
  import opened Wrappers
  import opened Package
  import opened Messages
  import S = SyncMl
  import T = MoTree
  import B = SyncMlBuilder
  import Fill

  datatype Phase = Init | DevInfo | Configure | Done

  /** DmSession, as far as the handling of a message reads or writes it. */
  datatype Session = Session(phase: Phase, imsi: string, lastMsgId: nat, authenticated: bool, nonce: string,
                             reportedFailures: nat, expiresAt: int)

  /** DmPendingPackage. */
  datatype Pending = Pending(phase: Phase, rows: seq<seq<string>>, messages: nat, expiresAt: int)

  datatype Device = Device(imsi: string, values: map<string, string>)

  /** The records one session key and its device have in the store. */
  datatype Stored = Stored(session: Option<Session>, pending: Option<Pending>, device: Option<Device>)

  /** What does not change between the messages of a session key. */
  datatype Settings = Settings(
    tree: T.MoTree,
    deviceId: string,
    accountUri: string,
    md5: bool,
    maxMsgSize: nat,
    sessionTtl: int,
    number: string -> Option<nat>,          // int() of a digit string
    size: Reply -> nat,                     // bytes of the encoded message
    jsonSize: seq<seq<string>> -> nat)      // bytes of the stored rows as compact JSON

  /** The outcome of authentication: the user, or the nonce and status of the challenge. */
  datatype Auth = Accepted(username: string) | Rejected(nonce: string, code: string, authType: string)

  /**
   One request, with what the handling takes from outside: how authentication came out, the values
   the server has for the device, and the clock at the read of each record.
   */
  datatype Request = Request(message: S.Message, auth: Auth, values: seq<B.Value>, sessionClock: int, pendingClock: int)

  datatype Changes = Changes(session: Option<Session>, device: Option<Device>, pending: Option<Pending>,
                             deletePending: bool, deleteSession: bool, progressInRemainder: bool)

  const NO_CHANGES := Changes(None, None, None, false, false, false)

  /** Which branch answered, for those who watch from outside. */
  datatype Kind =
    | NoPackage                                            // an error answer
    | Challenged
    | ClosedByClient
    | Abandoned
    | Started(phase: Phase, queue: seq<Entry>, sent: nat)
    | Continued(acks: nat, remainder: seq<Entry>, sent: nat)

  datatype Outcome =
    | Refused(status: nat)    // an exception before anything is saved
    | Answered(status: nat, reply: Option<Reply>, finished: bool, changes: Changes, kind: Kind)

  // ---- pieces ----

  function StatusFor(t: T.MoTree, c: S.Command): string {
    if c.name in {"Copy", "Delete", "Sequence", "Atomic", "Exec"} then "406"
    else if c.name in {"Get", "Replace", "Add"} && c.FirstUri() != "" && T.Node(t, c.FirstUri()).None? then "404"
    else if c.name in {"Alert", "Results", "Get", "Replace", "Add", "Put"} then "200"
    else "406"
  }

  function AckOf(t: T.MoTree, msgId: string, c: S.Command): Entry {
    Status(c.name, msgId, B.Decimal(c.cmdId), StatusFor(t, c), c.FirstUri())
  }

  function AcksFrom(t: T.MoTree, msgId: string, cs: seq<S.Command>): (r: seq<Entry>)
    ensures |r| <= |cs|
  {
    if cs == [] then []
    else if cs[0].name == "Status" then AcksFrom(t, msgId, cs[1..])
    else [AckOf(t, msgId, cs[0])] + AcksFrom(t, msgId, cs[1..])
  }

  /** _acks: a status for every command but Status itself. */
  function Acks(s: Settings, m: S.Message): seq<Entry> {
    AcksFrom(s.tree, m.header.msgId, m.commands)
  }

  function FailuresIn(cs: seq<S.Command>): nat {
    if cs == [] then 0
    else
      var c := cs[0];
      (if c.name == "Status" && c.data != "" && c.data[0] != '2' && c.data != "418" then 1 else 0) + FailuresIn(cs[1..])
  }

  function AbsorbItems(t: T.MoTree, items: seq<S.Item>, values: map<string, string>): map<string, string> {
    if items == [] then values
    else
      var i := items[0];
      var node := if i.Uri() == "" then None else T.Node(t, i.Uri());
      AbsorbItems(t, items[1..],
                  if i.data != "" && node.Some? && node.value.source == T.Device
                   then values[i.Uri() := i.data] else values)
  }

  function AbsorbCommands(t: T.MoTree, cs: seq<S.Command>, values: map<string, string>): map<string, string> {
    if cs == [] then values
    else
      AbsorbCommands(t, cs[1..],
                     if cs[0].name in {"Replace", "Results", "Add"}
                     then AbsorbItems(t, cs[0].items, values) else values)
  }

  /** _absorb_device_values. */
  function Absorbed(s: Settings, m: S.Message, imsi: string, device: Option<Device>): Device {
    var d := if device.Some? then device.value else Device("", map[]);
    Device(if imsi != "" then imsi else d.imsi, AbsorbCommands(s.tree, m.commands, d.values))
  }

  function MaxMsgSize(s: Settings, m: S.Message): nat {
    if m.header.maxMsgSize > 0 && m.header.maxMsgSize < s.maxMsgSize then m.header.maxMsgSize else s.maxMsgSize
  }

  /** The message before any entries: header, and the status of the client's SyncHdr. */
  function BaseReply(s: Settings, m: S.Message, code: string, challenge: Option<B.Challenge>): Reply {
    var n := s.number(m.header.msgId);
    Reply(B.Envelope(m.header.sessionId, if n.Some? then n.value else 1,
                     if m.header.source != "" then m.header.source else s.deviceId, s.accountUri, MaxMsgSize(s, m)),
          m.header.msgId, m.header.target, code, challenge, [], false)
  }

  /** _header_status. */
  function HeaderChallenge(s: Settings, session: Session): (string, Option<B.Challenge>) {
    (if session.authenticated then "212" else "200",
     if session.authenticated && s.md5 && session.nonce != ""
     then Some(B.Challenge("syncml:auth-md5", session.nonce)) else None)
  }

  /** _next_message: the reply and how much of the queue it holds; None for MessageTooLarge. */
  function NextMessage(s: Settings, m: S.Message, code: string, challenge: Option<B.Challenge>,
                       queue: seq<Entry>, required: nat): (r: Option<(Reply, nat)>)
    ensures r.Some? ==>
      var (reply, n) := r.value;
      && required <= n && (required <= |queue| ==> n <= |queue|)
      && reply == Prefix(BaseReply(s, m, code, challenge), queue, n)
      && s.size(reply) <= MaxMsgSize(s, m)
  {
    var base := BaseReply(s, m, code, challenge);
    var build := (n: nat) => Prefix(base, queue, n);
    var limit := MaxMsgSize(s, m);
    var sent := Fill.Sent(build, s.size, limit, |queue|, required);
    Fill.SentFits(build, s.size, limit, |queue|, required);
    if sent.None? then None else Some((Prefix(base, queue, sent.value), sent.value))
  }

  function Rest(queue: seq<Entry>, n: nat): seq<Entry> {
    if n <= |queue| then queue[n..] else []
  }

  // ---- reading the records ----

  predicate Expired(expiresAt: int, clock: int) {
    expiresAt != 0 && expiresAt < clock
  }

  /** get_dm_session deletes an expired session and reports none. */
  function SweepSession(st: Stored, clock: int): Stored {
    if st.session.Some? && Expired(st.session.value.expiresAt, clock) then st.(session := None) else st
  }

  function SweepPending(st: Stored, clock: int): Stored {
    if st.pending.Some? && Expired(st.pending.value.expiresAt, clock) then st.(pending := None) else st
  }

  predicate WellAddressed(m: S.Message) {
    m.header.sessionId != "" && m.header.msgId != ""
  }

  predicate TooManyCommands(s: Settings, m: S.Message) {
    |Acks(s, m)| > MAX_ACKNOWLEDGED_COMMANDS
  }

  /** The remainder is read only for an authenticated message of an acceptable size. */
  predicate ReadsRemainder(s: Settings, rq: Request) {
    WellAddressed(rq.message) && rq.auth.Accepted? && !TooManyCommands(s, rq.message)
  }

  /** The store as the reads of this request leave it. */
  function Swept(s: Settings, st: Stored, rq: Request): Stored {
    var st1 := if WellAddressed(rq.message) then SweepSession(st, rq.sessionClock) else st;
    if ReadsRemainder(s, rq) then SweepPending(st1, rq.pendingClock) else st1
  }

  /** The stored session, or a new one. */
  function SessionFor(s: Settings, st: Stored, rq: Request): Session {
    if st.session.Some? then st.session.value else Session(Init, "", 0, false, "", 0, rq.sessionClock + s.sessionTtl)
  }

  // ---- one message ----

  function Handle(s: Settings, st: Stored, rq: Request): Outcome {
    if !WellAddressed(rq.message) then Answered(400, None, false, NO_CHANGES, NoPackage)
    else
      var session := SessionFor(s, st, rq);
      match rq.auth
      case Rejected(nonce, code, authType) =>
        var session' := session.(nonce := nonce, authenticated := false);
        var next := NextMessage(s, rq.message, code, Some(B.Challenge(authType, nonce)), [], 0);
        if next.None? then Refused(400)
        else Answered(200, Some(next.value.0), false, NO_CHANGES.(session := Some(session')), Challenged)
      case Accepted(username) =>
        var n := s.number(rq.message.header.msgId);
        HandleAccepted(s, st, rq, session.(authenticated := true,
                                           imsi := if username != "" then username else session.imsi,
                                           lastMsgId := if n.Some? then n.value else 0))
  }

  /** The stored remainder belongs to the phase the session is in. */
  predicate Matches(pending: Option<Pending>, phase: Phase) {
    pending.Some? && pending.value.phase == phase
  }

  function HandleAccepted(s: Settings, st: Stored, rq: Request, session: Session): Outcome {
    var m := rq.message;
    if TooManyCommands(s, m) then Answered(413, None, false, NO_CHANGES, NoPackage)
    else
      var stale := st.pending.Some? && !Matches(st.pending, session.phase);
      var changes := NO_CHANGES.(deletePending := stale);
      if S.HasAlert(m, "1223") || S.HasAlert(m, "1226") then CloseForClient(s, m, session, changes)
      else if Matches(st.pending, session.phase) then ContinuePackage(s, st, m, session, st.pending.value, changes)
      else
        match session.phase
        case Init => HandleInit(s, st, m, session, changes)
        case DevInfo => HandleDevInfo(s, st, rq, session, changes)
        case _ => HandleFinish(s, m, session, changes)
  }

  /** Alert 1223 or 1226: acknowledge in one last message and delete the session. */
  function CloseForClient(s: Settings, m: S.Message, session: Session, changes: Changes): Outcome {
    var acks := Acks(s, m);
    var (code, challenge) := HeaderChallenge(s, session);
    var next := NextMessage(s, m, code, challenge, acks, |acks|);
    if next.None? then Refused(400)
    else Answered(200, Some(next.value.0), true, changes.(deleteSession := true), ClosedByClient)
  }

  /** The entries that ask for the inventory. */
  function Gets(uris: seq<string>): (es: seq<Entry>)
    ensures |es| == |uris|
    ensures forall i :: 0 <= i < |es| ==> es[i] == Item("Get", uris[i], "", "", "")
  {
    seq(|uris|, i requires 0 <= i < |uris| => Item("Get", uris[i], "", "", ""))
  }

  function Adds(uris: seq<string>): (es: seq<Entry>)
    ensures |es| == |uris|
    ensures forall i :: 0 <= i < |es| ==> es[i] == Item("Add", uris[i], "", "node", "node")
  {
    seq(|uris|, i requires 0 <= i < |uris| => Item("Add", uris[i], "", "node", "node"))
  }

  function Replaces(values: seq<B.Value>): (es: seq<Entry>)
    ensures |es| == |values|
    ensures forall i :: 0 <= i < |es| ==>
        es[i] == Item("Replace", values[i].uri, values[i].data, values[i].format, values[i].type_)
  {
    seq(|values|, i requires 0 <= i < |values| =>
      Item("Replace", values[i].uri, values[i].data, values[i].format, values[i].type_))
  }

  function Uris(values: seq<B.Value>): (us: seq<string>)
    ensures |us| == |values|
    ensures forall i :: 0 <= i < |us| ==> us[i] == values[i].uri
  {
    seq(|values|, i requires 0 <= i < |values| => values[i].uri)
  }

  function After(phase: Phase): Phase {
    match phase
    case Init => DevInfo
    case DevInfo => Configure
    case _ => Done
  }

  /** The package that answers a request which finds the session in `phase` with nothing left to send. */
  function QueueFor(s: Settings, phase: Phase, rq: Request): seq<Entry> {
    var acks := Acks(s, rq.message);
    match phase
    case Init => acks + Gets(T.DeviceQueryUris(s.tree))
    case DevInfo => acks + Adds(T.InteriorNodesFor(s.tree, Uris(rq.values))) + Replaces(rq.values)
    case _ => acks
  }

  function HandleInit(s: Settings, st: Stored, m: S.Message, session: Session, changes: Changes): Outcome {
    if !(S.HasAlert(m, "1201") || S.HasAlert(m, "1200")) then Answered(400, None, false, changes, NoPackage)
    else
      var device := Absorbed(s, m, session.imsi, st.device);
      StartPackage(s, m, session.(phase := DevInfo), Acks(s, m) + Gets(T.DeviceQueryUris(s.tree)),
                   changes.(device := Some(device)))
  }

  function HandleDevInfo(s: Settings, st: Stored, rq: Request, session: Session, changes: Changes): Outcome {
    var device := Absorbed(s, rq.message, session.imsi, st.device);
    var interiors := T.InteriorNodesFor(s.tree, Uris(rq.values));
    StartPackage(s, rq.message, session.(phase := Configure),
                 Acks(s, rq.message) + Adds(interiors) + Replaces(rq.values), changes.(device := Some(device)))
  }

  function HandleFinish(s: Settings, m: S.Message, session: Session, changes: Changes): Outcome {
    StartPackage(s, m, session.(phase := Done, reportedFailures := session.reportedFailures + FailuresIn(m.commands)),
                 Acks(s, m), changes)
  }

  /**
   _start_package and what its three callers do with the result. A package of the last phase that
   fits one message closes the session instead of saving it.
   */
  function StartPackage(s: Settings, m: S.Message, session: Session, queue: seq<Entry>, changes: Changes): Outcome {
    var (code, challenge) := HeaderChallenge(s, session);
    var next := NextMessage(s, m, code, challenge, queue, if queue == [] then 0 else 1);
    if next.None? then Refused(400)
    else
      var (reply, n) := next.value;
      var rest := Rest(queue, n);
      var kind := Started(session.phase, queue, n);
      if rest == [] then
        if session.phase == Done then Answered(200, Some(reply), true, changes.(deleteSession := true), kind)
        else Answered(200, Some(reply), false, changes.(session := Some(session)), kind)
      else
        var rows := ToStored(rest, s.jsonSize);
        if rows.Err? then Refused(413)
        else
          Answered(200, Some(reply), false,
                   changes.(session := Some(session),
                       pending := Some(Pending(session.phase, rows.value, 1, session.expiresAt))), kind)
  }

  /** _continue_package. */
  function ContinuePackage(s: Settings, st: Stored, m: S.Message, session: Session, pending: Pending,
                           changes: Changes): Outcome {
    if pending.messages >= MAX_MESSAGES_PER_PACKAGE then
      Answered(413, None, true, changes.(deleteSession := true), Abandoned)
    else
      var changes' := changes.(device := Some(Absorbed(s, m, session.imsi, st.device)), progressInRemainder := true);
      var failures := if session.phase == Configure || session.phase == Done then FailuresIn(m.commands) else 0;
      var session' := session.(reportedFailures := session.reportedFailures + failures);
      var acks := Acks(s, m);
      var remainder := FromStored(pending.rows);
      var (code, challenge) := HeaderChallenge(s, session');
      var next := NextMessage(s, m, code, challenge, acks + remainder, |acks| + 1);
      if next.None? then Refused(400)
      else
        var (reply, n) := next.value;
        var rest := Rest(acks + remainder, n);
        var kind := Continued(|acks|, remainder, n - |acks|);
        if rest != [] then
          var rows := ToStored(rest, s.jsonSize);
          if rows.Err? then Refused(413)
          else
            Answered(200, Some(reply), false,
                     changes'.(session := Some(session'),
                         pending := Some(pending.(rows := rows.value, messages := pending.messages + 1))), kind)
        else if session'.phase == Done then
          Answered(200, Some(reply), true, changes'.(deletePending := true, deleteSession := true), kind)
        else
          Answered(200, Some(reply), false, changes'.(deletePending := true, session := Some(session')), kind)
  }

  // ---- commit ----

  datatype Write =
    | PutDevice(device: Device)
    | PutSession(session: Session)
    | DeleteSession
    | PutPending(pending: Pending)
    | DeletePending

  function RemainderWrites(c: Changes): seq<Write> {
    (if c.deletePending then [DeletePending] else [])
    + (if c.pending.Some? then [PutPending(c.pending.value)] else [])
    + (if c.deleteSession then [DeletePending] else [])
  }

  function SessionWrites(c: Changes): seq<Write> {
    (if c.session.Some? then [PutSession(c.session.value)] else [])
    + (if c.deleteSession then [DeleteSession] else [])
  }

  /** _DmChanges.commit: the record that holds the progress is written last. */
  function Writes(c: Changes): seq<Write> {
    (if c.device.Some? then [PutDevice(c.device.value)] else [])
    + (if c.progressInRemainder then SessionWrites(c) + RemainderWrites(c) else RemainderWrites(c) + SessionWrites(c))
  }

  function Apply(st: Stored, w: Write): Stored {
    match w
    case PutDevice(d) => st.(device := Some(d))
    case PutSession(x) => st.(session := Some(x))
    case DeleteSession => st.(session := None)
    case PutPending(p) => st.(pending := Some(p))
    case DeletePending => st.(pending := None)
  }

  function ApplyAll(st: Stored, ws: seq<Write>): Stored
    decreases |ws|
  {
    if ws == [] then st else ApplyAll(Apply(st, ws[0]), ws[1..])
  }

  // ---- attempts ----

  /** A request, and the write of its commit that fails, if one does. */
  datatype Attempt = Attempt(request: Request, failAt: Option<nat>)

  /** What an attempt leaves in the store, and the answer if the client gets one. */
  datatype Effect = Effect(st: Stored, answer: Option<Outcome>)

  function Perform(s: Settings, st: Stored, a: Attempt): Effect {
    var st1 := Swept(s, st, a.request);
    var out := Handle(s, st1, a.request);
    if out.Refused? then Effect(st1, Some(out))
    else
      var ws := Writes(out.changes);
      if a.failAt.Some? && a.failAt.value < |ws| then Effect(ApplyAll(st1, ws[..a.failAt.value]), None)
      else Effect(ApplyAll(st1, ws), Some(out))
  }
}
