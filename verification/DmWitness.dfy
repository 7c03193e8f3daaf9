/**
 Runs in which the failures that the theorems single out really happen: src/acs/protocol/omadm/session.py:100-133,
 :238, :271, :440-451, :470-475.

 A server with an empty management tree whose messages hold one entry each, and clients that send alerts.
 */
module DmWitness {
  import opened Wrappers
  import P = Package
  import opened Messages
  import opened DmModel
  import opened DmGuards
  import opened DmCommit
  import opened DmSafety
  import opened DmRetry
  import D = DmSplit
  import S = SyncMl
  import T = MoTree

  const TTL := 100

  /** A message's size is the number of its entries, and the limit is one. */
  const TINY := Settings(T.MoTree([]), "", "", false, 1, TTL, _ => None, (r: Reply) => |r.entries|, _ => 0)

  function Alert(code: string): S.Command {
    S.Command("Alert", 1, [], code, "", "", "")
  }

  /** An authenticated request with some alerts, at a moment for each of its two reads. */
  function Alerts(commands: seq<S.Command>, sessionClock: int, pendingClock: int): Request {
    Request(S.Message(S.SyncHdr("1", "1", "", "", "", 0, None, "", ""), commands, true), Accepted("u"), [],
        sessionClock, pendingClock)
  }

  lemma {:induction false} EachIsAcknowledged(cs: seq<S.Command>)
    requires forall i :: 0 <= i < |cs| ==> cs[i].name == "Alert"
    ensures |AcksFrom(TINY.tree, "1", cs)| == |cs|
    decreases |cs|
  {
    hide AckOf;
    if cs != [] { EachIsAcknowledged(cs[1..]); }
  }

  /** Each alert gets one acknowledgement. */
  lemma AlertsAck(cs: seq<S.Command>, sessionClock: int, pendingClock: int)
    requires |cs| <= 2 && forall i :: 0 <= i < |cs| ==> cs[i].name == "Alert"
    ensures var rq := Alerts(cs, sessionClock, pendingClock);
            |Acks(TINY, rq.message)| == |cs| && ReadsRemainder(TINY, rq)
  {
    EachIsAcknowledged(cs);
    hide AcksFrom;
  }

  /** The packages of this server are nothing but acknowledgements. */
  lemma OnlyAcks(phase: Phase, rq: Request)
    requires rq.values == []
    ensures QueueFor(TINY, phase, rq) == Acks(TINY, rq.message)
  {
    hide AcksFrom;
    assert T.AllNodes(TINY.tree) == [];
    assert Gets(T.DeviceQueryUris(TINY.tree)) == [];
    assert Uris(rq.values) == [] && Replaces(rq.values) == [];
    assert Adds(T.InteriorNodesFor(TINY.tree, [])) == [];
    var acks := Acks(TINY, rq.message);
    assert acks + [] == acks && acks + [] + [] == acks;
  }

  /** A first message takes one entry. */
  lemma OneAtATime(st: Stored, rq: Request)
    requires rq.values == [] && rq.message.header.maxMsgSize == 0 && 1 <= |Acks(TINY, rq.message)|
    ensures CanStart(TINY, st, rq)
    ensures Fits(TINY, st, rq.message, QueueFor(TINY, PhaseOf(st), rq)) <==> |Acks(TINY, rq.message)| == 1
  {
    OnlyAcks(PhaseOf(st), rq);
    hide Acks; hide QueueFor;
  }

  /** A request with one or two alerts that is answered with the first message of the next package. */
  lemma Starting(w: World, cs: seq<S.Command>, clock: int)
    requires Inv(w) && 1 <= |cs| <= 2 && forall i :: 0 <= i < |cs| ==> cs[i].name == "Alert"
    requires var rq := Alerts(cs, clock, clock);
             && Swept(TINY, w.st, rq) == w.st && !Remains(w.st) && !Leaves(rq.message)
             && (PhaseOf(w.st) == Init ==> Opens(rq.message))
    ensures var (a, v) := (Attempt(Alerts(cs, clock, clock), None),
        D.ViewAfterStart(TINY, w.st, Alerts(cs, clock, clock)));
            var w' := Next(TINY, w, a);
            && Orderly(TINY, w, [a]) && Inv(w')
            && (if |cs| == 1 then ViewOf(w'.st) == D.EndView(v) && w'.st.pending.None?
                else D.MidPackage(w'.st, v) && |w'.st.pending.value.rows| == 1 && w'.st.pending.value.messages == 1)
  {
    var rq := Alerts(cs, clock, clock);
    var a := Attempt(rq, None);
    AlertsAck(cs, clock, clock);
    OneAtATime(w.st, rq);
    OnlyAcks(PhaseOf(w.st), rq);
    hide Acks; hide QueueFor; hide CanStart; hide Fits; hide Leaves; hide Opens; hide Handle; hide Swept;
    hide ReadsRemainder; hide Perform;
    hide Next; hide ViewOf; hide D.EndView; hide D.ViewAfterStart; hide FlightOk; hide CompletedOk;
    hide RemainderOk; hide PhaseOk;
    D.StartsMeans(TINY, w.st, rq);
    D.StartStep(TINY, w.st, rq);
    NextIsPerform(TINY, w, a);
    NotStraddled(w, rq, a);
    StepKeeps(TINY, w, a);
    OneIsOrderly(w, a);
    var e := Perform(TINY, w.st, a);
    if |cs| == 1 {
      WholeLeavesNothing(w.st, rq);
    } else {
      D.MidPackageHasRest(e.st, D.ViewAfterStart(TINY, w.st, rq));
    }
  }

  /** A package that went in one message leaves no remainder, not even an old one. */
  lemma WholeLeavesNothing(st: Stored, rq: Request)
    requires PendingOk(st.pending) && Swept(TINY, st, rq) == st
    requires var out := Handle(TINY, st, rq); D.IsMessage(out) && out.kind.Started? && out.reply.value.final
    ensures Perform(TINY, st, Attempt(rq, None)).st.pending.None?
  {
    var out := Handle(TINY, st, rq);
    PerformSplits(TINY, st, Attempt(rq, None));
    HandleHasShape(TINY, st, rq);
    hide Handle; hide Swept; hide QueueFor; hide Perform; hide P.FromStored; hide Chunk; hide Writes; hide Cut;
    SessionLast(st, out.changes, |Writes(out.changes)|);
  }

  lemma NotStraddled(w: World, rq: Request, a: Attempt)
    requires !Remains(w.st) && a == Attempt(rq, None)
    ensures !Straddles(TINY, w.st, rq) && !CutWhileEnding(TINY, w.st, a)
  {
    hide ReadsRemainder; hide Leaves; hide Fits; hide Swept; hide Acks;
  }

  lemma OneIsOrderly(w: World, a: Attempt)
    requires !Straddles(TINY, w.st, a.request) && !CutWhileEnding(TINY, w.st, a)
    ensures Orderly(TINY, w, [a])
  {
    hide Next; hide Straddles; hide CutWhileEnding;
    assert Orderly(TINY, Next(TINY, w, a), [a][1..]);
  }

  lemma FreshIsInv()
    ensures Inv(FRESH)
  {
  }

  /** After a whole package of the inventory or configuration phase the next request comes in time. */
  lemma InTime(st: Stored, v: SessionView, cs: seq<S.Command>)
    requires ViewOf(st) == D.EndView(v) && v.phase != Done && v.expiresAt == TTL && st.pending.None?
    ensures Swept(TINY, st, Alerts(cs, 0, 0)) == st && !Remains(st) && PhaseOf(st) == v.phase
  {
    hide ReadsRemainder;
  }

  lemma PlainAlerts(cs: seq<S.Command>)
    requires forall i :: 0 <= i < |cs| ==> cs[i] == Alert("1000")
    ensures !Leaves(Alerts(cs, 0, 0).message)
  {
  }

  lemma RunOne(w: World, a: Attempt)
    ensures Run(TINY, w, [a]) == Next(TINY, w, a)
  {
    hide Next;
    assert Run(TINY, w, [a]) == Run(TINY, Next(TINY, w, a), [a][1..]);
  }

  /** The first request of all: two alerts, of whose acknowledgements one goes and one stays. */
  function First(): Attempt {
    Attempt(Alerts([Alert("1201"), Alert("1000")], 0, 0), None)
  }

  lemma FirstIsSplit()
    ensures Orderly(TINY, FRESH, [First()]) && Inv(Run(TINY, FRESH, [First()]))
    ensures var st := Run(TINY, FRESH, [First()]).st;
            && Remains(st) && PendingOk(st.pending)
            && st.session.value.expiresAt == st.pending.value.expiresAt == TTL
  {
    var cs := [Alert("1201"), Alert("1000")];
    assert cs[0].data == "1201" && cs[1].data == "1000";
    FreshIsInv();
    OpensAtFirst(cs);
    Starting(FRESH, cs, 0);
    RunOne(FRESH, First());
    hide Next; hide Handle; hide Orderly; hide Inv; hide Run; hide P.FromStored;
  }

  lemma OpensAtFirst(cs: seq<S.Command>)
    requires cs == [Alert("1201"), Alert("1000")] || cs == [Alert("1201")]
    ensures var m := Alerts(cs, 0, 0).message; Opens(m) && !Leaves(m)
    ensures Swept(TINY, FRESH.st, Alerts(cs, 0, 0)) == FRESH.st
  {
    var m := Alerts(cs, 0, 0).message;
    assert m.commands[0].name == "Alert" && m.commands[0].data == "1201";
  }

  /** A request that reads its session in the last moment and its remainder a moment later. */
  lemma StraddlingHappens() returns (rq: Request)
    ensures Orderly(TINY, FRESH, [First()]) && Straddles(TINY, Run(TINY, FRESH, [First()]).st, rq)
  {
    FirstIsSplit();
    rq := Alerts([Alert("1222")], TTL, TTL + 1);
    AlertsAck([Alert("1222")], TTL, TTL + 1);
    hide Run; hide Orderly; hide Acks; hide ReadsRemainder;
  }

  /** A client that leaves in mid-package, where the second write of the commit fails. */
  lemma CuttingHappens() returns (a: Attempt)
    ensures Orderly(TINY, FRESH, [First()]) && CutWhileEnding(TINY, Run(TINY, FRESH, [First()]).st, a)
  {
    FirstIsSplit();
    var cs := [Alert("1226")];
    var rq := Alerts(cs, 0, 0);
    a := Attempt(rq, Some(1));
    AlertsAck(cs, 0, 0);
    assert rq.message.commands[0].data == "1226";
    assert Leaves(rq.message);
    var st := Run(TINY, FRESH, [First()]).st;
    hide Run; hide Orderly; hide Acks; hide ReadsRemainder; hide Leaves;
    assert Swept(TINY, st, rq) == st;
    assert Fits(TINY, st, rq.message, Acks(TINY, rq.message));
  }

  /** A session of three requests that ends in the middle of its closing package. */
  function ToTheClose(): seq<Attempt> {
    [Attempt(Alerts([Alert("1201")], 0, 0), None), Attempt(Alerts([Alert("1000")], 0, 0), None),
     Attempt(Alerts([Alert("1000"), Alert("1000")], 0, 0), None)]
  }

  lemma TwoPackages(w1: World, w2: World)
    requires w1 == Next(TINY, FRESH, Attempt(Alerts([Alert("1201")], 0, 0), None))
    requires w2 == Next(TINY, w1, Attempt(Alerts([Alert("1000")], 0, 0), None))
    ensures Orderly(TINY, FRESH, [Attempt(Alerts([Alert("1201")], 0, 0), None)])
    ensures Orderly(TINY, w1, [Attempt(Alerts([Alert("1000")], 0, 0), None)])
    ensures Inv(w2) && ViewOf(w2.st) == D.EndView(SessionView(Configure, "", TTL)) && w2.st.pending.None?
  {
    hide Next; hide Handle; hide Orderly; hide Inv; hide Leaves; hide Opens;
    FreshIsInv();
    OpensAtFirst([Alert("1201")]);
    Starting(FRESH, [Alert("1201")], 0);
    var v1 := D.ViewAfterStart(TINY, FRESH.st, Alerts([Alert("1201")], 0, 0));
    assert v1 == SessionView(DevInfo, "", TTL);
    InTime(w1.st, v1, [Alert("1000")]);
    PlainAlerts([Alert("1000")]);
    Starting(w1, [Alert("1000")], 0);
    assert D.ViewAfterStart(TINY, w1.st, Alerts([Alert("1000")], 0, 0)) == SessionView(Configure, "", TTL);
  }

  lemma OneThen(w: World, a: Attempt, rest: seq<Attempt>)
    requires Orderly(TINY, w, [a]) && Orderly(TINY, Next(TINY, w, a), rest)
    ensures Orderly(TINY, w, [a] + rest) && Run(TINY, w, [a] + rest) == Run(TINY, Next(TINY, w, a), rest)
  {
    hide Next; hide Straddles; hide CutWhileEnding;
    assert ([a] + rest)[1..] == rest && ([a] + rest)[0] == a;
  }

  /** A request whose closing answer is lost for good. */
  lemma LosingTheCloseHappens() returns (rq: Request)
    ensures Orderly(TINY, FRESH, ToTheClose())
    ensures var w := Run(TINY, FRESH, ToTheClose());
            && Inv(w) && Swept(TINY, w.st, rq) == w.st
            && Remains(w.st) && ReadsRemainder(TINY, rq) && !Leaves(rq.message)
            && w.st.pending.value.messages < P.MAX_MESSAGES_PER_PACKAGE
            && PhaseOf(w.st) == Done && Fits(TINY, w.st, rq.message, RestOf(TINY, w.st, rq.message))
  {
    hide Next; hide Handle; hide Orderly; hide Inv; hide Leaves; hide Opens; hide Run; hide P.FromStored;
    hide Acks; hide ReadsRemainder;
    var all := ToTheClose();
    var a, b, c := all[0], all[1], all[2];
    var w1 := Next(TINY, FRESH, a);
    var w2 := Next(TINY, w1, b);
    TwoPackages(w1, w2);
    var two := [Alert("1000"), Alert("1000")];
    InTime(w2.st, SessionView(Configure, "", TTL), two);
    PlainAlerts(two);
    Starting(w2, two, 0);
    RunOne(w2, c);
    OneThen(w1, b, [c]);
    OneThen(FRESH, a, [b] + [c]);
    assert all == [a] + ([b] + [c]);
    rq := Alerts([], 0, 0);
    PlainAlerts([]);
    AlertsAck([], 0, 0);
  }
}
