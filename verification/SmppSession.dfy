/**
 The session's read loop and the sender's three requests as the source runs them:
 src/acs/sms/smpp.py:213-282 and :391-432.
 */
module SmppSession {
  import opened Wrappers
  import opened Smpp

  function Flatten(chunks: seq<Bytes>): Bytes {
    if chunks == [] then [] else chunks[0] + Flatten(chunks[1..])
  }

  lemma {:induction false} FlattenConcat(a: seq<Bytes>, b: seq<Bytes>)
    ensures Flatten(a + b) == Flatten(a) + Flatten(b)
  {
    if a == [] {
      assert a + b == b;
    } else {
      assert (a + b)[1..] == a[1..] + b;
      FlattenConcat(a[1..], b);
    }
  }

  /** What the peer sends before one deadline, in chunks as the network cut it, and how it ends. */
  datatype Arrival = Arrival(chunks: seq<Bytes>, ending: Ending)

  /** A connection with no chunk boundaries: the bytes not yet read, how they end, and what comes later. */
  datatype Line = Line(bytes: Bytes, ending: Ending, later: seq<(Bytes, Ending)>)

  function Later(arrivals: seq<Arrival>): (r: seq<(Bytes, Ending)>)
    ensures |r| == |arrivals|
    ensures forall i :: 0 <= i < |r| ==> r[i] == (Flatten(arrivals[i].chunks), arrivals[i].ending)
  {
    seq(|arrivals|, i requires 0 <= i < |arrivals| => (Flatten(arrivals[i].chunks), arrivals[i].ending))
  }

  /** A new deadline: more bytes come in. */
  function Advance(l: Line): Line {
    if l.later == [] then l else Line(l.bytes + l.later[0].0, l.later[0].1, l.later[1..])
  }

  class Socket {
    var incoming: seq<Bytes>
    var ending: Ending
    var arrivals: seq<Arrival>
    var sent: Bytes

    constructor (arrivals: seq<Arrival>)
      requires forall i, k :: 0 <= i < |arrivals| && 0 <= k < |arrivals[i].chunks| ==> arrivals[i].chunks[k] != []
      ensures Valid() && LineOf() == Line([], Stalls, Later(arrivals)) && sent == []
    {
      incoming, ending, this.arrivals, sent := [], Stalls, arrivals, [];
    }

    /** No chunk is empty: an empty read means the end. */
    ghost predicate Valid()
      reads this
    {
      && (forall k :: 0 <= k < |incoming| ==> incoming[k] != [])
      && (forall i, k :: 0 <= i < |arrivals| && 0 <= k < |arrivals[i].chunks| ==> arrivals[i].chunks[k] != [])
    }

    ghost function LineOf(): Line
      reads this
    {
      Line(Flatten(incoming), ending, Later(arrivals))
    }

    method Wait()
      requires Valid()
      modifies this`incoming, this`ending, this`arrivals
      ensures Valid() && LineOf() == Advance(old(LineOf()))
    {
      if arrivals != [] {
        FlattenConcat(incoming, arrivals[0].chunks);
        assert Later(arrivals)[1..] == Later(arrivals[1..]);
        incoming, ending, arrivals := incoming + arrivals[0].chunks, arrivals[0].ending, arrivals[1..];
      }
    }

    /** recv: some bytes of what has come, at least one and at most n, or the end. */
    method Recv(n: nat) returns (r: Result<Bytes, Ending>)
      requires Valid() && 0 < n
      modifies this`incoming
      ensures Valid()
      ensures r.Ok? ==> 0 < |r.value| <= n && old(Flatten(incoming)) == r.value + Flatten(incoming)
      ensures r.Err? ==> old(Flatten(incoming)) == [] && Flatten(incoming) == [] && r.error == ending
    {
      if incoming == [] { return Err(ending); }
      var chunk := incoming[0];
      if |chunk| <= n {
        incoming := incoming[1..];
        return Ok(chunk);
      }
      ghost var before := Flatten(incoming);
      ghost var rest := incoming[1..];
      incoming := [chunk[n..]] + incoming[1..];
      assert incoming[1..] == rest;
      assert before == chunk[..n] + (chunk[n..] + Flatten(rest));
      r := Ok(chunk[..n]);
    }

    method SendAll(bytes: Bytes)
      modifies this`sent
      ensures sent == old(sent) + bytes
    {
      sent := sent + bytes;
    }
  }

  class Session {
    const sock: Socket
    var sequence: nat

    constructor (sock: Socket)
      ensures this.sock == sock && sequence == 0
    {
      this.sock, sequence := sock, 0;
    }

    method NextSequenceNumber() returns (n: nat)
      modifies this`sequence
      ensures n == sequence == NextSequence(old(sequence)) && 1 <= n <= LAST_SEQUENCE
    {
      sequence := sequence % LAST_SEQUENCE + 1;
      n := sequence;
    }

    method Write(p: Pdu)
      modifies sock`sent
      ensures sock.sent == old(sock.sent) + Encode(p)
    {
      sock.SendAll(Encode(p));
    }

    /** _read_exact: exactly `size` bytes, however they were cut; or the end, with everything read. */
    method ReadExact(size: nat) returns (r: Result<Bytes, Ending>)
      requires sock.Valid()
      modifies sock`incoming
      ensures sock.Valid()
      ensures var before := old(Flatten(sock.incoming));
              if size <= |before| then r == Ok(before[..size]) && Flatten(sock.incoming) == before[size..]
              else r == Err(sock.ending) && Flatten(sock.incoming) == []
    {
      ghost var before := Flatten(sock.incoming);
      var chunks: Bytes := [];
      while |chunks| < size
        invariant sock.Valid() && |chunks| <= size
        invariant before == chunks + Flatten(sock.incoming)
        decreases size - |chunks|
      {
        var got := sock.Recv(size - |chunks|);
        if got.Err? { return Err(got.error); }
        chunks := chunks + got.value;
      }
      r := Ok(chunks);
    }

    /** _read: the next PDU; a length that cannot be right is answered with generic_nack. */
    method Read() returns (r: Result<Pdu, Verdict>)
      requires sock.Valid()
      modifies sock`incoming, sock`sent
      ensures sock.Valid()
      ensures var before := old(Flatten(sock.incoming));
              match FrameOf(before)
              case Incomplete => r == Err(Ended(sock.ending)) && Flatten(sock.incoming) == []
                  && sock.sent == old(sock.sent)
              case BadLength(q) =>
                r == Err(Malformed) && Flatten(sock.incoming) == before[HEADER_SIZE..]
                && sock.sent == old(sock.sent) + Encode(Pdu(GENERIC_NACK, ESME_RINVCMDLEN, q, []))
              case Framed(p, rest) => r == Ok(p) && Flatten(sock.incoming) == rest && sock.sent == old(sock.sent)
    {
      hide WordAt;
      ghost var before := Flatten(sock.incoming);
      var header := ReadExact(HEADER_SIZE);
      if header.Err? { return Err(Ended(header.error)); }
      var h := header.value;
      SameWords(before, h);
      var length, q := WordAt(h, 0), WordAt(h, 12);
      if length < HEADER_SIZE || length > MAX_PDU {
        Write(Pdu(GENERIC_NACK, ESME_RINVCMDLEN, q, []));
        return Err(Malformed);
      }
      var body := ReadExact(length - HEADER_SIZE);
      if body.Err? { return Err(Ended(body.error)); }
      assert |before| >= length && body.value == before[HEADER_SIZE..length];
      r := Ok(Pdu(WordAt(h, 4), WordAt(h, 8), q, body.value));
    }

    /** _answer: false where it raises because the peer unbound. */
    method Answer(p: Pdu) returns (goesOn: bool)
      modifies sock`sent
      ensures sock.sent == old(sock.sent) + Encode(AnswerTo(p))
      ensures goesOn <==> p.commandId != UNBIND
    {
      if p.commandId == ENQUIRE_LINK {
        Write(Pdu(ENQUIRE_LINK_RESP, ESME_ROK, p.sequence, []));
        return true;
      }
      if p.commandId == UNBIND {
        Write(Pdu(UNBIND_RESP, ESME_ROK, p.sequence, []));
        return false;
      }
      if p.commandId == DELIVER_SM {
        Write(Pdu(DELIVER_SM_RESP, ESME_RX_T_APPN, p.sequence, [0]));
        return true;
      }
      Write(Pdu(GENERIC_NACK, ESME_RINVCMDID, p.sequence, []));
      goesOn := true;
    }

    /** The loop of request: read, answer the peer's requests, and return at the first thing that is not one. */
    method Await(expected: nat, number: nat) returns (r: Verdict)
      requires sock.Valid()
      modifies sock`incoming, sock`sent
      ensures sock.Valid()
      ensures var served := Serve(old(Flatten(sock.incoming)), sock.ending, expected, number);
              && r == served.result
              && Flatten(sock.incoming) == served.rest
              && sock.sent == old(sock.sent) + EncodeAll(served.answers)
    {
      hide FrameOf; hide Encode; hide AnswerTo; hide Flatten; hide Serve; hide EncodeAll;
      ghost var start, ending := sock.sent, sock.ending;
      ghost var served := Serve(Flatten(sock.incoming), ending, expected, number);
      ghost var answers: seq<Pdu> := [];
      NoneEncoded(start);
      while true
        invariant sock.Valid() && sock.ending == ending
        invariant var later := Serve(Flatten(sock.incoming), ending, expected, number);
                  served.result == later.result && served.rest == later.rest
                      && served.answers == answers + later.answers
        invariant sock.sent == start + EncodeAll(answers)
        decreases |Flatten(sock.incoming)|
      {
        ghost var before := Flatten(sock.incoming);
        ServeUnfolds(before, ending, expected, number);
        var read := Read();
        if read.Err? {
          Written(start, answers, Serve(before, ending, expected, number).answers);
          return read.error;
        }
        var p := read.value;
        if p.commandId != GENERIC_NACK && p.commandId < RESPONSE_BIT {
          Written(start, answers, [AnswerTo(p)]);
          var goesOn := Answer(p);
          if !goesOn { return Unbound; }
          ghost var later := Serve(Flatten(sock.incoming), ending, expected, number).answers;
          assert answers + ([AnswerTo(p)] + later) == (answers + [AnswerTo(p)]) + later;
          answers := answers + [AnswerTo(p)];
        } else {
          assert answers + [] == answers;
          return if p.commandId == GENERIC_NACK then Nacked(p.status)
                 else if p.commandId != expected || p.sequence != number then Unexpected
                 else Response(p);
        }
      }
    }

    /**
     request: what comes back, what is written meanwhile and what stays unread are those of `Serve`
     on the peer's bytes. Where the network cut them does not appear.
     */
    method Request(commandId: nat, body: Bytes) returns (r: Verdict)
      requires sock.Valid()
      modifies this`sequence, sock
      ensures sock.Valid() && sequence == NextSequence(old(sequence))
      ensures var line := Advance(old(sock.LineOf()));
              var served := Serve(line.bytes, line.ending, Expected(commandId), sequence);
              && r == served.result
              && sock.sent == old(sock.sent) + Encode(Pdu(commandId, ESME_ROK, sequence, body))
                               + EncodeAll(served.answers)
              && sock.LineOf() == line.(bytes := served.rest)
    {
      hide Encode; hide Flatten; hide Serve; hide EncodeAll; hide Later; hide Advance;
      var number := NextSequenceNumber();
      Write(Pdu(commandId, ESME_ROK, number, body));
      sock.Wait();
      r := Await(Expected(commandId), number);
    }
  }

  lemma NoneEncoded(sent: Bytes)
    ensures sent + EncodeAll([]) == sent
  {
  }

  /** What is written after some answers, when there is at most one more. */
  lemma Written(start: Bytes, answers: seq<Pdu>, more: seq<Pdu>)
    ensures more == [] ==> answers + more == answers
    ensures |more| == 1 ==> start + EncodeAll(answers + more) == start + EncodeAll(answers) + Encode(more[0])
  {
    if |more| == 1 {
      OneEncoded(more);
      EncodeAllConcat(answers, more);
      hide Encode; hide EncodeAll;
      assert start + (EncodeAll(answers) + Encode(more[0])) == start + EncodeAll(answers) + Encode(more[0]);
    } else if more == [] {
      assert answers + more == answers;
    }
  }

  lemma ServeUnfolds(s: Bytes, ending: Ending, expected: nat, number: nat)
    ensures var (f, x) := (FrameOf(s), Serve(s, ending, expected, number));
            && (f.Incomplete? ==> x == Served(Ended(ending), [], []))
            && (f.BadLength? ==> |s| >= HEADER_SIZE
                                 && x == Served(Malformed, [Pdu(GENERIC_NACK, ESME_RINVCMDLEN, f.sequence, [])],
                                      s[HEADER_SIZE..]))
            && (f.Framed? && f.pdu.commandId == GENERIC_NACK ==> x == Served(Nacked(f.pdu.status), [], f.rest))
            && (f.Framed? && f.pdu.commandId > GENERIC_NACK ==>
                  x == Served(if f.pdu.commandId != expected || f.pdu.sequence != number then Unexpected
                      else Response(f.pdu), [], f.rest))
            && (f.Framed? && f.pdu.commandId == UNBIND ==> x == Served(Unbound, [AnswerTo(f.pdu)], f.rest))
    ensures var f := FrameOf(s);
            f.Framed? && IsRequest(f.pdu) ==>
              var later := Serve(f.rest, ending, expected, number);
              Serve(s, ending, expected, number) == later.(answers := [AnswerTo(f.pdu)] + later.answers)
  {
    hide AnswerTo;
  }

  /** command_id | 0x80000000 */
  function Expected(commandId: nat): nat {
    if commandId < RESPONSE_BIT then commandId + RESPONSE_BIT else commandId
  }

  lemma SameWords(s: Bytes, h: Bytes)
    requires HEADER_SIZE <= |s| && h == s[..HEADER_SIZE]
    ensures WordAt(h, 0) == WordAt(s, 0) && WordAt(h, 4) == WordAt(s, 4) && WordAt(h, 8) == WordAt(s, 8)
        && WordAt(h, 12) == WordAt(s, 12)
  {
  }

  lemma OneEncoded(ps: seq<Pdu>)
    ensures |ps| == 1 ==> EncodeAll(ps) == Encode(ps[0])
    ensures ps == [] ==> EncodeAll(ps) == []
  {
    hide Encode;
    if |ps| == 1 { assert EncodeAll(ps[1..]) == []; }
  }

  lemma {:induction false} EncodeAllConcat(a: seq<Pdu>, b: seq<Pdu>)
    ensures EncodeAll(a + b) == EncodeAll(a) + EncodeAll(b)
  {
    hide Encode;
    if a == [] {
      assert a + b == b;
    } else {
      assert (a + b)[1..] == a[1..] + b;
      EncodeAllConcat(a[1..], b);
    }
  }

  // ---- one message ----

  /** The response to one request of a session, and the line it leaves. */
  function Exchange(l: Line, commandId: nat, number: nat): (Served, Line) {
    var line := Advance(l);
    var served := Serve(line.bytes, line.ending, Expected(commandId), number);
    (served, line.(bytes := served.rest))
  }

  predicate Accepts(v: Verdict) {
    v.Response? && v.pdu.status == ESME_ROK
  }

  /** What send makes of the peer's bytes: the body of submit_sm_resp, or None where it raises. */
  function SendOutcome(l: Line): Option<Bytes> {
    var (bind, l1) := Exchange(l, BIND_TRANSCEIVER, SequenceAt(1));
    if !Accepts(bind.result) then None
    else
      var (submit, _) := Exchange(l1, SUBMIT_SM, SequenceAt(2));
      if Accepts(submit.result) then Some(submit.result.pdu.body) else None
  }

  /** What send writes: a request, the answers to what comes before its response, and the next request. */
  function SendWrites(l: Line, bindBody: Bytes, submitBody: Bytes): Bytes {
    var (bind, l1) := Exchange(l, BIND_TRANSCEIVER, SequenceAt(1));
    Encode(Pdu(BIND_TRANSCEIVER, ESME_ROK, SequenceAt(1), bindBody)) + EncodeAll(bind.answers) +
    if !Accepts(bind.result) then []
    else
      var (submit, l2) := Exchange(l1, SUBMIT_SM, SequenceAt(2));
      Encode(Pdu(SUBMIT_SM, ESME_ROK, SequenceAt(2), submitBody)) + EncodeAll(submit.answers) +
      if !submit.result.Response? then []
      else
        var (unbind, _) := Exchange(l2, UNBIND, SequenceAt(3));
        Encode(Pdu(UNBIND, ESME_ROK, SequenceAt(3), [])) + EncodeAll(unbind.answers)
  }

  /** send: bind, submit, unbind; how the unbinding goes changes nothing. */
  method Send(sock: Socket, bindBody: Bytes, submitBody: Bytes) returns (r: Option<Bytes>)
    requires sock.Valid()
    modifies sock
    ensures r == SendOutcome(old(sock.LineOf()))
    ensures sock.sent == old(sock.sent) + SendWrites(old(sock.LineOf()), bindBody, submitBody)
  {
    hide Serve; hide Encode; hide EncodeAll; hide Advance; hide Flatten; hide Later;
    assert SequenceAt(1) == NextSequence(0) && SequenceAt(2) == NextSequence(SequenceAt(1));
    assert SequenceAt(3) == NextSequence(SequenceAt(2));
    hide NextSequence; hide SequenceAt;
    var session := new Session(sock);
    var bind := session.Request(BIND_TRANSCEIVER, bindBody);
    if !bind.Response? || bind.pdu.status != ESME_ROK { return None; }
    var submit := session.Request(SUBMIT_SM, submitBody);
    if !submit.Response? { return None; }
    var _ := session.Request(UNBIND, []);
    r := if submit.pdu.status == ESME_ROK then Some(submit.pdu.body) else None;
  }

  /** A request as it goes out: its length, its command, status 0 and its number, each in four bytes. */
  function Outgoing(command: byte, number: byte, body: Bytes): Bytes
    requires |body| < 240
  {
    [0, 0, 0, (16 + |body|) as byte, 0, 0, 0, command, 0, 0, 0, 0, 0, 0, 0, number] + body
  }

  lemma RequestBytes(body: Bytes)
    requires |body| < 240
    ensures Encode(Pdu(BIND_TRANSCEIVER, ESME_ROK, SequenceAt(1), body)) == Outgoing(9, 1, body)
    ensures Encode(Pdu(SUBMIT_SM, ESME_ROK, SequenceAt(2), body)) == Outgoing(4, 2, body)
    ensures Encode(Pdu(UNBIND, ESME_ROK, SequenceAt(3), body)) == Outgoing(6, 3, body)
  {
    SequenceIs(1); SequenceIs(2); SequenceIs(3);
    ShortWord(16 + |body|); ShortWord(9); ShortWord(4); ShortWord(6);
    ShortWord(0); ShortWord(1); ShortWord(2); ShortWord(3);
    hide Word; hide SequenceAt;
  }

  /** The requests on the wire, in their order and numbered from 1. */
  lemma SendInBytes(l: Line, bindBody: Bytes, submitBody: Bytes)
    requires |bindBody| < 240 && |submitBody| < 240
    ensures var (bind, l1) := Exchange(l, BIND_TRANSCEIVER, 1);
            var (submit, l2) := Exchange(l1, SUBMIT_SM, 2);
            var (unbind, _) := Exchange(l2, UNBIND, 3);
            SendWrites(l, bindBody, submitBody)
            == Outgoing(9, 1, bindBody) + EncodeAll(bind.answers) +
               if !Accepts(bind.result) then []
               else Outgoing(4, 2, submitBody) + EncodeAll(submit.answers) +
                    if !submit.result.Response? then [] else Outgoing(6, 3, []) + EncodeAll(unbind.answers)
  {
    hide Encode; hide EncodeAll; hide Exchange; hide Accepts; hide Outgoing;
    RequestBytes(bindBody);
    RequestBytes(submitBody);
    RequestBytes([]);
    SequenceIs(1); SequenceIs(2); SequenceIs(3);
    hide SequenceAt;
  }

  /**
   A message is reported sent whenever the peer says so: a bind response numbered 1 among its first bytes and a
   submit response numbered 2 among what follows, both with status 0 and after requests of its own only.
   */
  lemma SentWhenThePeerSaysSo(l: Line, qs: seq<Pdu>, bindBody: Bytes, tail: Bytes, ps: seq<Pdu>, body: Bytes,
                              rest: Bytes)
    requires |bindBody| <= 60000 && |body| <= 60000
    requires forall i :: 0 <= i < |qs| ==> qs[i].Packs() && HEADER_SIZE + |qs[i].body| <= MAX_PDU && IsRequest(qs[i])
    requires forall i :: 0 <= i < |ps| ==> ps[i].Packs() && HEADER_SIZE + |ps[i].body| <= MAX_PDU && IsRequest(ps[i])
    requires |l.later| >= 2
    requires l.bytes + l.later[0].0 == EncodeAll(qs) + Encode(Pdu(0x80000009, 0, 1, bindBody)) + tail
    requires tail + l.later[1].0 == EncodeAll(ps) + Encode(Pdu(0x80000004, 0, 2, body)) + rest
    ensures SendOutcome(l) == Some(body)
  {
    hide Serve; hide Encode; hide EncodeAll;
    SequenceIs(1);
    SequenceIs(2);
    hide SequenceAt;
    var (first, second) := (Pdu(0x80000009, 0, 1, bindBody), Pdu(0x80000004, 0, 2, body));
    AnswersWhatComesFirst(qs, first, tail, l.later[0].1, Expected(BIND_TRANSCEIVER), 1);
    AnswersWhatComesFirst(ps, second, rest, l.later[1].1, Expected(SUBMIT_SM), 2);
    assert l.later[1..][0] == l.later[1];
  }

  /**
   A message is reported sent exactly on the peer's word: its bytes hold a bind response numbered 1
   and, after it, a submit response numbered 2, both with status ESME_ROK, and nothing but answered
   requests of its own before either.
   */
  lemma SentOnThePeersWord(l: Line) returns (qs: seq<Pdu>, bind: Pdu, ps: seq<Pdu>, submit: Pdu)
    requires SendOutcome(l).Some?
    ensures var (first, l1) := Exchange(l, BIND_TRANSCEIVER, 1);
            var (second, _) := Exchange(l1, SUBMIT_SM, 2);
            && Advance(l).bytes == EncodeAll(qs) + Encode(bind) + first.rest
            && Advance(l1).bytes == EncodeAll(ps) + Encode(submit) + second.rest
    ensures bind.commandId == 0x80000009 && bind.sequence == 1 && bind.status == 0
    ensures submit.commandId == 0x80000004 && submit.sequence == 2 && submit.status == 0
    ensures (forall i :: 0 <= i < |qs| ==> IsRequest(qs[i])) && (forall i :: 0 <= i < |ps| ==> IsRequest(ps[i]))
    ensures SendOutcome(l) == Some(submit.body)
  {
    hide Serve; hide Encode; hide EncodeAll; hide Advance;
    SequenceIs(1);
    SequenceIs(2);
    hide SequenceAt;
    var line := Advance(l);
    qs := ReturnsOnlyTheResponse(line.bytes, line.ending, Expected(BIND_TRANSCEIVER), 1);
    var (first, l1) := Exchange(l, BIND_TRANSCEIVER, 1);
    var next := Advance(l1);
    ps := ReturnsOnlyTheResponse(next.bytes, next.ending, Expected(SUBMIT_SM), 2);
    bind, submit := first.result.pdu, Exchange(l1, SUBMIT_SM, 2).0.result.pdu;
  }

  /** What arrives after the second deadline, the answer to unbind with it, does not change the outcome. */
  lemma UnbindChangesNothing(l: Line, m: Line)
    requires l.bytes == m.bytes && l.ending == m.ending && |l.later| >= 2 && |m.later| >= 2
        && l.later[..2] == m.later[..2]
    ensures SendOutcome(l) == SendOutcome(m)
  {
    hide Serve; hide SequenceAt;
    assert l.later[0] == l.later[..2][0] && m.later[0] == m.later[..2][0];
    assert l.later[1] == l.later[..2][1] && m.later[1] == m.later[..2][1];
  }
}
