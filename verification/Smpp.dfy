/**
 One SMPP 3.4 session: src/acs/sms/smpp.py:149-163 and :213-282, over a peer that may cut its bytes
 into chunks as it likes.

 `Serve` says what a request does from the peer's bytes alone; the session's loops are proved against
 it, and its own lemmas say what it reads, answers and returns.
 */
module Smpp {
  import opened Wrappers

  const GENERIC_NACK: nat := 0x80000000
  const SUBMIT_SM: nat := 0x00000004
  const DELIVER_SM: nat := 0x00000005
  const DELIVER_SM_RESP: nat := 0x80000005
  const UNBIND: nat := 0x00000006
  const UNBIND_RESP: nat := 0x80000006
  const BIND_TRANSCEIVER: nat := 0x00000009
  const ENQUIRE_LINK: nat := 0x00000015
  const ENQUIRE_LINK_RESP: nat := 0x80000015
  const RESPONSE_BIT: nat := 0x80000000
  const ESME_ROK: nat := 0
  const ESME_RINVCMDLEN: nat := 2
  const ESME_RINVCMDID: nat := 3
  const ESME_RX_T_APPN: nat := 0x64
  const HEADER_SIZE: nat := 16
  const MAX_PDU: nat := 65536
  const WORD: nat := 0x1_0000_0000
  const LAST_SEQUENCE: nat := 0x7FFF_FFFF

  datatype Pdu = Pdu(commandId: nat, status: nat, sequence: nat, body: Bytes) {
    /** Each field fits its four octets. */
    predicate Packs() {
      commandId < WORD && status < WORD && sequence < WORD && HEADER_SIZE + |body| < WORD
    }

    predicate IsResponse() {
      commandId >= RESPONSE_BIT
    }
  }

  // ---- framing: SMPP 3.4 section 3.2 ----

  function Word(n: nat): (r: Bytes)
    ensures |r| == 4
  {
    [(n / 0x1000000 % 256) as byte, (n / 0x10000 % 256) as byte, (n / 0x100 % 256) as byte, (n % 256) as byte]
  }

  function WordAt(s: Bytes, i: nat): (n: nat)
    requires i + 4 <= |s|
    ensures n < WORD
  {
    s[i] as nat * 0x1000000 + s[i + 1] as nat * 0x10000 + s[i + 2] as nat * 0x100 + s[i + 3] as nat
  }

  lemma WordReads(n: nat)
    requires n < WORD
    ensures WordAt(Word(n), 0) == n
  {
    var a, b, c := n / 0x100, n / 0x10000, n / 0x1000000;
    assert b == a / 0x100 && c == b / 0x100 && c < 0x100;
    assert n == a * 0x100 + n % 0x100 && a == b * 0x100 + a % 0x100 && b == c * 0x100 + b % 0x100;
  }

  lemma WordOf(s: Bytes)
    requires |s| == 4
    ensures Word(WordAt(s, 0)) == s
  {
    var n := WordAt(s, 0);
    assert n / 0x1000000 == s[0] as nat && n / 0x10000 == s[0] as nat * 0x100 + s[1] as nat;
    assert n / 0x100 == s[0] as nat * 0x10000 + s[1] as nat * 0x100 + s[2] as nat;
  }

  /** Pdu.encode. */
  function Encode(p: Pdu): (r: Bytes)
    ensures |r| == HEADER_SIZE + |p.body|
  {
    Word(HEADER_SIZE + |p.body|) + Word(p.commandId) + Word(p.status) + Word(p.sequence) + p.body
  }

  /** What the front of a stream holds. */
  datatype Frame = Incomplete | BadLength(sequence: nat) | Framed(pdu: Pdu, rest: Bytes)

  function FrameOf(s: Bytes): (f: Frame)
    ensures f.Framed? ==> |f.rest| < |s|
  {
    if |s| < HEADER_SIZE then Incomplete
    else
      var length := WordAt(s, 0);
      if length < HEADER_SIZE || length > MAX_PDU then BadLength(WordAt(s, 12))
      else if |s| < length then Incomplete
      else Framed(Pdu(WordAt(s, 4), WordAt(s, 8), WordAt(s, 12), s[HEADER_SIZE..length]), s[length..])
  }

  lemma WordWithin(s: Bytes, i: nat, w: Bytes)
    requires i + 4 <= |s| && |w| == 4 && s[i..i + 4] == w
    ensures WordAt(s, i) == WordAt(w, 0)
  {
    assert s[i] == w[0] && s[i + 1] == w[1] && s[i + 2] == w[2] && s[i + 3] == w[3];
  }

  /** What was encoded is framed back, whatever follows it. */
  lemma EncodedFrames(p: Pdu, rest: Bytes)
    requires p.Packs() && HEADER_SIZE + |p.body| <= MAX_PDU
    ensures FrameOf(Encode(p) + rest) == Framed(p, rest)
  {
    hide Word; hide WordAt;
    var s, n := Encode(p) + rest, HEADER_SIZE + |p.body|;
    assert s[0..4] == Word(n) && s[4..8] == Word(p.commandId) && s[8..12] == Word(p.status)
        && s[12..16] == Word(p.sequence);
    WordWithin(s, 0, Word(n)); WordReads(n);
    WordWithin(s, 4, Word(p.commandId)); WordReads(p.commandId);
    WordWithin(s, 8, Word(p.status)); WordReads(p.status);
    WordWithin(s, 12, Word(p.sequence)); WordReads(p.sequence);
    assert s[HEADER_SIZE..n] == p.body && s[n..] == rest;
  }

  /** What is framed was encoded so, and nothing of the stream is lost. */
  lemma FramedEncodes(s: Bytes)
    requires FrameOf(s).Framed?
    ensures FrameOf(s).pdu.Packs() && s == Encode(FrameOf(s).pdu) + FrameOf(s).rest
  {
    hide Word; hide WordAt;
    var p, length := FrameOf(s).pdu, WordAt(s, 0);
    assert |p.body| == length - HEADER_SIZE;
    WordWithin(s, 0, s[0..4]); WordOf(s[0..4]);
    WordWithin(s, 4, s[4..8]); WordOf(s[4..8]);
    WordWithin(s, 8, s[8..12]); WordOf(s[8..12]);
    WordWithin(s, 12, s[12..16]); WordOf(s[12..16]);
    assert s == s[0..4] + s[4..8] + s[8..12] + s[12..16] + s[16..length] + s[length..];
  }

  // ---- a request, from the peer's bytes alone ----

  /** How the peer's bytes end: it closes the connection, or says nothing more before the deadline. */
  datatype Ending = Closes | Stalls

  datatype Verdict =
    | Response(pdu: Pdu)
    | Nacked(status: nat)
    | Unexpected
    | Unbound
    | Malformed
    | Ended(ending: Ending)

  /** _answer: what a request of the peer gets. */
  function AnswerTo(p: Pdu): Pdu {
    if p.commandId == ENQUIRE_LINK then Pdu(ENQUIRE_LINK_RESP, ESME_ROK, p.sequence, [])
    else if p.commandId == UNBIND then Pdu(UNBIND_RESP, ESME_ROK, p.sequence, [])
    else if p.commandId == DELIVER_SM then Pdu(DELIVER_SM_RESP, ESME_RX_T_APPN, p.sequence, [0])
    else Pdu(GENERIC_NACK, ESME_RINVCMDID, p.sequence, [])
  }

  /** What a request returns, what it writes meanwhile, and the bytes it leaves unread. */
  datatype Served = Served(result: Verdict, answers: seq<Pdu>, rest: Bytes)

  function Serve(s: Bytes, ending: Ending, expected: nat, sequence: nat): Served
    decreases |s|
  {
    match FrameOf(s)
    case Incomplete => Served(Ended(ending), [], [])
    case BadLength(q) => Served(Malformed, [Pdu(GENERIC_NACK, ESME_RINVCMDLEN, q, [])], s[HEADER_SIZE..])
    case Framed(p, rest) =>
      if p.commandId == GENERIC_NACK then Served(Nacked(p.status), [], rest)
      else if !p.IsResponse() then
        if p.commandId == UNBIND then Served(Unbound, [AnswerTo(p)], rest)
        else
          var later := Serve(rest, ending, expected, sequence);
          later.(answers := [AnswerTo(p)] + later.answers)
      else if p.commandId != expected || p.sequence != sequence then Served(Unexpected, [], rest)
      else Served(Response(p), [], rest)
  }

  /** A request of the peer that does not end the session. */
  predicate IsRequest(p: Pdu) {
    !p.IsResponse() && p.commandId != UNBIND
  }

  function EncodeAll(ps: seq<Pdu>): Bytes {
    if ps == [] then [] else Encode(ps[0]) + EncodeAll(ps[1..])
  }

  function AnswersTo(ps: seq<Pdu>): (r: seq<Pdu>)
    ensures |r| == |ps|
    ensures forall i :: 0 <= i < |ps| ==> r[i] == AnswerTo(ps[i])
  {
    if ps == [] then [] else [AnswerTo(ps[0])] + AnswersTo(ps[1..])
  }

  // ---- the same in bytes ----

  lemma WordBytes()
    ensures Word(ENQUIRE_LINK) == [0, 0, 0, 0x15] && Word(ENQUIRE_LINK_RESP) == [0x80, 0, 0, 0x15]
    ensures Word(UNBIND) == [0, 0, 0, 6] && Word(UNBIND_RESP) == [0x80, 0, 0, 6]
    ensures Word(DELIVER_SM) == [0, 0, 0, 5] && Word(DELIVER_SM_RESP) == [0x80, 0, 0, 5]
    ensures Word(GENERIC_NACK) == [0x80, 0, 0, 0] && Word(ESME_ROK) == [0, 0, 0, 0]
    ensures Word(ESME_RINVCMDID) == [0, 0, 0, 3] && Word(ESME_RX_T_APPN) == [0, 0, 0, 0x64]
    ensures Word(16) == [0, 0, 0, 16] && Word(17) == [0, 0, 0, 17]
  {
  }

  lemma ShortWord(n: nat)
    requires n < 256
    ensures Word(n) == [0, 0, 0, n as byte]
  {
  }

  /** The bytes that answer a request of the peer with this command and number. */
  function AnswerBytes(command: Bytes, number: Bytes): Bytes {
    if command == [0, 0, 0, 0x15] then [0, 0, 0, 16, 0x80, 0, 0, 0x15, 0, 0, 0, 0] + number
    else if command == [0, 0, 0, 6] then [0, 0, 0, 16, 0x80, 0, 0, 6, 0, 0, 0, 0] + number
    else if command == [0, 0, 0, 5] then [0, 0, 0, 17, 0x80, 0, 0, 5, 0, 0, 0, 0x64] + number + [0]
    else [0, 0, 0, 16, 0x80, 0, 0, 0, 0, 0, 0, 3] + number
  }

  lemma AnswerIsBytes(p: Pdu)
    requires p.Packs()
    ensures Encode(AnswerTo(p)) == AnswerBytes(Word(p.commandId), Word(p.sequence))
  {
    WordBytes();
    WordReads(p.commandId);
    WordReads(ENQUIRE_LINK); WordReads(UNBIND); WordReads(DELIVER_SM);
    hide Word; hide WordAt;
    var q := Word(p.sequence);
    assert q + [] == q;
  }

  /** A PDU of the peer, as it comes in, is taken off the stream and answered so: its number is echoed. */
  lemma PeerIsAnswered(command: Bytes, status: Bytes, number: Bytes, body: Bytes, rest: Bytes)
    requires |command| == 4 && |status| == 4 && |number| == 4 && |body| < 240
    ensures var f := FrameOf([0, 0, 0, (16 + |body|) as byte] + command + status + number + body + rest);
            && f.Framed? && f.rest == rest && f.pdu.body == body
            && Encode(AnswerTo(f.pdu)) == AnswerBytes(command, number)
  {
    var p := Pdu(WordAt(command, 0), WordAt(status, 0), WordAt(number, 0), body);
    WordOf(command); WordOf(status); WordOf(number);
    ShortWord(16 + |body|);
    hide WordAt; hide Word; hide AnswerTo; hide AnswerBytes;
    EncodedFrames(p, rest);
    AnswerIsBytes(p);
    assert Encode(p) + rest == [0, 0, 0, (16 + |body|) as byte] + command + status + number + body + rest;
  }

  /** How a request ends without its response: nacked, answered with something else, unbound, or cut off. */
  lemma OtherEndings(s: Bytes, ending: Ending, expected: nat, sequence: nat)
    ensures var (f, x) := (FrameOf(s), Serve(s, ending, expected, sequence));
            && (f.Incomplete? ==> x == Served(Ended(ending), [], []))
            && (f.BadLength? ==>
                  && |s| >= 16 && x.result == Malformed && x.rest == s[16..]
                  && |x.answers| == 1 && Encode(x.answers[0]) == [0, 0, 0, 16, 0x80, 0, 0, 0, 0, 0, 0, 2] + s[12..16])
            && (f.Framed? && f.pdu.commandId == 0x80000000 ==> x == Served(Nacked(f.pdu.status), [], f.rest))
            && (f.Framed? && f.pdu.commandId > 0x80000000 ==>
                  f.pdu.commandId != expected || f.pdu.sequence != sequence ==> x == Served(Unexpected, [], f.rest))
            && (f.Framed? && f.pdu.commandId == 6 ==> x.result == Unbound && |x.answers| == 1 && x.rest == f.rest)
  {
    if FrameOf(s).BadLength? {
      WordWithin(s, 12, s[12..16]);
      WordOf(s[12..16]);
      WordBytes();
      ShortWord(2);
      var q := Word(WordAt(s, 12));
      assert q == s[12..16] && q + [] == q;
    }
    hide Word; hide WordAt;
  }

  /** A length that no PDU has: less than a header, or more than 65536. */
  lemma BadLengths(s: Bytes)
    ensures FrameOf(s).BadLength? <==>
              |s| >= 16 &&
              (var n := s[0] as nat * 16777216 + s[1] as nat * 65536 + s[2] as nat * 256 + s[3] as nat;
               n < 16 || n > 65536)
  {
  }

  /**
   The requests the peer puts before its response are answered, each once and in their order, and
   then the response is returned with the bytes after it unread.
   */
  lemma {:induction false} AnswersWhatComesFirst(qs: seq<Pdu>, r: Pdu, tail: Bytes, ending: Ending, expected: nat,
                                                 sequence: nat)
    requires forall i :: 0 <= i < |qs| ==> qs[i].Packs() && HEADER_SIZE + |qs[i].body| <= MAX_PDU && IsRequest(qs[i])
    requires r.Packs() && HEADER_SIZE + |r.body| <= MAX_PDU
    requires r.commandId == expected && r.sequence == sequence && r.IsResponse() && expected != GENERIC_NACK
    ensures Serve(EncodeAll(qs) + Encode(r) + tail, ending, expected, sequence)
        == Served(Response(r), AnswersTo(qs), tail)
    decreases |qs|
  {
    hide FrameOf; hide Encode; hide AnswerTo;
    if qs == [] {
      assert EncodeAll(qs) + Encode(r) + tail == Encode(r) + tail;
      EncodedFrames(r, tail);
    } else {
      var more := EncodeAll(qs[1..]) + Encode(r) + tail;
      assert EncodeAll(qs) + Encode(r) + tail == Encode(qs[0]) + more;
      EncodedFrames(qs[0], more);
      AnswersWhatComesFirst(qs[1..], r, tail, ending, expected, sequence);
    }
  }

  /**
   And nothing else is ever returned: a response that comes back has the expected command and number,
   everything before it was a request of the peer, and exactly those were answered.
   */
  lemma {:induction false} ReturnsOnlyTheResponse(s: Bytes, ending: Ending, expected: nat, sequence: nat)
    returns (qs: seq<Pdu>)
    requires Serve(s, ending, expected, sequence).result.Response?
    ensures var x := Serve(s, ending, expected, sequence);
            && x.result.pdu.commandId == expected && x.result.pdu.sequence == sequence
            && s == EncodeAll(qs) + Encode(x.result.pdu) + x.rest
            && x.answers == AnswersTo(qs)
            && forall i :: 0 <= i < |qs| ==> IsRequest(qs[i])
    decreases |s|
  {
    hide FrameOf; hide Encode; hide AnswerTo;
    FramedEncodes(s);
    var p, rest := FrameOf(s).pdu, FrameOf(s).rest;
    if p.IsResponse() {
      qs := [];
      assert EncodeAll(qs) + Encode(p) + rest == Encode(p) + rest;
    } else {
      var later := ReturnsOnlyTheResponse(rest, ending, expected, sequence);
      qs := [p] + later;
      var x := Serve(rest, ending, expected, sequence);
      assert qs[1..] == later;
      assert EncodeAll(qs) + Encode(x.result.pdu) + x.rest
          == Encode(p) + (EncodeAll(later) + Encode(x.result.pdu) + x.rest);
    }
  }

  // ---- sequence numbers: SMPP 3.4 section 5.1.4 ----

  function NextSequence(n: nat): nat {
    n % LAST_SEQUENCE + 1
  }

  /** The number of the k-th request of a session. */
  function SequenceAt(k: nat): nat {
    if k == 0 then 0 else NextSequence(SequenceAt(k - 1))
  }

  lemma {:induction false} SequenceIs(k: nat)
    requires 0 < k
    ensures SequenceAt(k) == (k - 1) % LAST_SEQUENCE + 1
  {
    if k > 1 {
      SequenceIs(k - 1);
      var m := (k - 2) % LAST_SEQUENCE;
      assert k - 1 == (k - 2) / LAST_SEQUENCE * LAST_SEQUENCE + m + 1;
    }
  }

  /** Numbers stay in 1..0x7FFFFFFF and none is used twice in that many requests. */
  lemma SequencesAreDistinct(j: nat, k: nat)
    requires 0 < j < k < j + 0x7FFFFFFF
    ensures 1 <= SequenceAt(j) <= 0x7FFFFFFF && SequenceAt(j) != SequenceAt(k)
  {
    SequenceIs(j);
    SequenceIs(k);
    hide SequenceAt;
    var a, b := j - 1, k - 1;
    assert a == a / LAST_SEQUENCE * LAST_SEQUENCE + a % LAST_SEQUENCE;
    assert b == b / LAST_SEQUENCE * LAST_SEQUENCE + b % LAST_SEQUENCE;
    if a % LAST_SEQUENCE == b % LAST_SEQUENCE {
      assert b - a == (b / LAST_SEQUENCE - a / LAST_SEQUENCE) * LAST_SEQUENCE;
    }
  }
}
