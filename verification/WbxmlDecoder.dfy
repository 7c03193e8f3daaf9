/**
 The WBXML decoder: src/acs/protocol/omadm/wbxml.py, _Decoder; WAP-192 sections 5.3 and 5.8.

 Its output is modelled as the events it writes (tags and character data) together with their
 size in bytes. `Step` is one turn of the byte loop on values, `Loop` the whole loop, and the
 class is the loop over an offset that the source runs.
 */
module WbxmlDecoder {
  import opened Wrappers
  import opened WbxmlFormat
  import Utf8

  datatype Tag = Tag(page: nat, name: string)

  /** One write to the output; only the root declares namespaces, by naming the SyncML one. */
  datatype Event =
    | Start(tag: Tag, declares: Option<string>)
    | Empty(tag: Tag, declares: Option<string>)
    | Text(text: string)
    | End(tag: Tag)

  datatype Document = Document(publicId: nat, events: seq<Event>)

  function QName(tag: Tag): string {
    if tag.page == 0 then tag.name else "metinf:" + tag.name
  }

  function Declaration(declares: Option<string>): string {
    match declares
    case None => ""
    case Some(ns) => " xmlns=\"" + ns + "\" xmlns:metinf=\"" + METINF_NS + "\""
  }

  /** xml.sax.saxutils.escape with the carriage return the decoder adds. */
  function Escape(text: string): string {
    if text == "" then ""
    else
      (match text[0]
       case '&' => "&amp;"
       case '<' => "&lt;"
       case '>' => "&gt;"
       case '\r' => "&#13;"
       case c => [c]) + Escape(text[1..])
  }

  function Rendered(e: Event): string {
    match e
    case Start(tag, declares) => "<" + QName(tag) + Declaration(declares) + ">"
    case Empty(tag, declares) => "<" + QName(tag) + Declaration(declares) + "/>"
    case Text(text) => Escape(text)
    case End(tag) => "</" + QName(tag) + ">"
  }

  /** The bytes one event adds to the output. */
  function Size(e: Event): nat {
    |Utf8.Encode(Rendered(e))|
  }

  function SizeOf(events: seq<Event>): nat {
    if events == [] then 0 else SizeOf(events[..|events| - 1]) + Size(events[|events| - 1])
  }

  datatype State = State(rest: Bytes, page: nat, stack: seq<Tag>, elements: nat, events: seq<Event>, size: nat)

  /** _Output.write: refuse before the limit is passed. */
  function Write(st: State, e: Event): (r: Result<State, WbxmlError>)
    ensures r.Ok? ==>
              && r.value == st.(events := st.events + [e], size := st.size + Size(e))
              && r.value.size <= MAX_XML_BYTES
  {
    if Size(e) > MAX_XML_BYTES - st.size then Err(OutputTooLarge)
    else Ok(st.(events := st.events + [e], size := st.size + Size(e)))
  }

  function TakeBytes(b: Bytes, length: nat): (r: Result<(Bytes, Bytes), WbxmlError>)
    ensures r.Ok? ==> length <= |b| && r.value == (b[..length], b[length..])
  {
    if length > |b| then Err(Truncated) else Ok((b[..length], b[length..]))
  }

  function InlineString(b: Bytes): (r: Result<(Bytes, Bytes), WbxmlError>)
    ensures r.Ok? ==> |r.value.1| < |b|
  {
    var end := Find(b, 0);
    if end == |b| then Err(UnterminatedInline) else Ok((b[..end], b[end + 1..]))
  }

  /** The bytes of one text token, after the token itself, and what follows. */
  function TextBytes(table: Bytes, token: byte, b: Bytes): (r: Result<(Bytes, Bytes), WbxmlError>)
    ensures r.Ok? ==> |r.value.1| <= |b|
  {
    if token == STR_I then InlineString(b)
    else if token == STR_T then
      var (offset, rest) :- Integer(b);
      var raw :- TableString(table, offset);
      Ok((raw, rest))
    else
      var (length, rest) :- Integer(b);
      TakeBytes(rest, length)
  }

  function StepText(table: Bytes, token: byte, st: State): (r: Result<State, WbxmlError>)
    requires st.rest != []
    ensures r.Ok? ==> |r.value.rest| < |st.rest|
  {
    if st.stack == [] then Err(TextOutsideRoot)
    else
      var (raw, rest) :- TextBytes(table, token, st.rest[1..]);
      var text :- DecodeText(raw);
      Write(st.(rest := rest), Text(text))
  }

  function StepTag(ns: string, token: byte, st: State): (r: Result<State, WbxmlError>)
    requires st.rest != []
    ensures r.Ok? ==> |r.value.rest| < |st.rest|
  {
    var low := token as nat % 64;
    if token == 0x84 || token == 0xC4 || (low >= 5 && token >= 0x80) then Err(Attributes)
    else if low < 5 then Err(GlobalToken)
    else
      var name := TagName(st.page, low);
      if name.None? then Err(UnknownTag)
      else if |st.stack| >= MAX_DEPTH then Err(TooDeep)
      else if st.elements + 1 > MAX_ELEMENTS then Err(TooManyElements)
      else if st.elements == 0 && (st.page != 0 || name.value != "SyncML") then Err(NotSyncML)
      else
        var tag := Tag(st.page, name.value);
        var declares := if st.elements == 0 then Some(ns) else None;
        var content := token as nat / 64 % 2 == 1;
        var next := st.(rest := st.rest[1..], elements := st.elements + 1);
        if content then Write(next.(stack := st.stack + [tag]), Start(tag, declares))
        else Write(next, Empty(tag, declares))
  }

  /** One turn of the loop. */
  function Step(table: Bytes, ns: string, st: State): (r: Result<State, WbxmlError>)
    requires st.rest != []
    ensures r.Ok? ==> |r.value.rest| < |st.rest|
  {
    var token := st.rest[0];
    if st.elements > 0 && st.stack == [] then Err(TrailingContent)
    else if token == SWITCH_PAGE then
      if |st.rest| < 2 then Err(Truncated)
      else if st.rest[1] >= 2 then Err(CodePage)
      else Ok(st.(rest := st.rest[2..], page := st.rest[1] as nat))
    else if token == END then
      if st.stack == [] then Err(UnexpectedEnd)
      else
        var top := |st.stack| - 1;
        Write(st.(rest := st.rest[1..], stack := st.stack[..top]), Event.End(st.stack[top]))
    else if token == STR_I || token == STR_T || token == OPAQUE then StepText(table, token, st)
    else StepTag(ns, token, st)
  }

  function Loop(table: Bytes, ns: string, st: State): Result<seq<Event>, WbxmlError>
    decreases |st.rest|
  {
    if st.rest == [] then
      if st.stack != [] then Err(MissingEnd)
      else if st.elements == 0 then Err(MissingRoot)
      else Ok(st.events)
    else
      var next :- Step(table, ns, st);
      Loop(table, ns, next)
  }

  /** A document identifier: a number on the wire, or the name at an offset in the string table. */
  datatype PublicRef = Numeric(id: nat) | InTable(offset: nat)

  datatype Header = Header(publicRef: PublicRef, table: Bytes, body: Bytes)

  function ReadHeader(payload: Bytes): Result<Header, WbxmlError> {
    var (version, b1) :- TakeBytes(payload, 1);
    if version[0] != VERSION_12 && version[0] != VERSION_13 then Err(Version)
    else
      var (id, b2) :- Integer(b1);
      var (publicRef, b3) :- if id == 0 then ReadOffset(b2) else Ok((Numeric(id), b2));
      var (charset, b4) :- Integer(b3);
      if charset != CHARSET_UTF8 then Err(Charset)
      else
        var (length, b5) :- Integer(b4);
        var (table, body) :- TakeBytes(b5, length);
        Ok(Header(publicRef, table, body))
  }

  function ReadOffset(b: Bytes): Result<(PublicRef, Bytes), WbxmlError> {
    var (offset, rest) :- Integer(b);
    Ok((InTable(offset), rest))
  }

  function ResolvePublicId(publicRef: PublicRef, table: Bytes): (r: Result<nat, WbxmlError>)
    ensures r.Ok? ==> r.value == PUBLIC_ID_11 || r.value == PUBLIC_ID_12
  {
    var id :- match publicRef
              case Numeric(n) => Ok(n)
              case InTable(offset) => ReadPublicName(table, offset);
    if id == PUBLIC_ID_11 || id == PUBLIC_ID_12 then Ok(id) else Err(PublicIdentifier)
  }

  function ReadPublicName(table: Bytes, offset: nat): Result<nat, WbxmlError> {
    var raw :- TableString(table, offset);
    var name :- DecodeText(raw);
    Ok(PublicId(name))
  }

  function Initial(body: Bytes): State {
    State(body, 0, [], 0, [], 0)
  }

  function Decode(payload: Bytes): Result<Document, WbxmlError> {
    if |payload| > MAX_INPUT_BYTES then Err(InputTooLarge)
    else
      var header :- ReadHeader(payload);
      var id :- ResolvePublicId(header.publicRef, header.table);
      var events :- Loop(header.table, PublicNamespace(id), Initial(header.body));
      Ok(Document(id, events))
  }

  // ---- soundness on arbitrary bytes ----

  /** The open tags after some events; None when an end tag does not match. */
  function Open(events: seq<Event>): Option<seq<Tag>> {
    if events == [] then Some([])
    else
      var before := Open(events[..|events| - 1]);
      if before.None? then None
      else Apply(before.value, events[|events| - 1])
  }

  function Apply(stack: seq<Tag>, e: Event): Option<seq<Tag>> {
    match e
    case Start(tag, _) => Some(stack + [tag])
    case End(tag) =>
      if stack != [] && stack[|stack| - 1] == tag then Some(stack[..|stack| - 1]) else None
    case _ => Some(stack)
  }

  function Elements(events: seq<Event>): nat {
    if events == [] then 0
    else Elements(events[..|events| - 1]) +
         (if events[|events| - 1].Start? || events[|events| - 1].Empty? then 1 else 0)
  }

  /** The first event opens SyncML and declares its namespace. */
  predicate OpensRoot(e: Event, ns: string) {
    (e.Start? || e.Empty?) && e.tag == Tag(0, "SyncML") && e.declares == Some(ns)
  }

  /**
   What holds of the output at every turn of the loop, said event by event: only the first event
   opens the root, nothing follows its end, and no limit is passed.
   */
  ghost predicate Sound(events: seq<Event>, ns: string)
    decreases |events|
  {
    events == [] ||
    (var before := events[..|events| - 1];
     var e := events[|events| - 1];
     && Sound(before, ns)
     && (if before == [] then OpensRoot(e, ns) else Open(before) != Some([]))
     && Open(events).Some? && |Open(events).value| <= MAX_DEPTH
     && Elements(events) <= MAX_ELEMENTS
     && SizeOf(events) <= MAX_XML_BYTES)
  }

  /** The same, about all prefixes at once. */
  lemma {:induction false} SoundPrefixes(events: seq<Event>, ns: string, i: nat)
    requires Sound(events, ns) && 0 < i <= |events|
    ensures OpensRoot(events[0], ns)
    ensures Open(events[..i]).Some? && |Open(events[..i]).value| <= MAX_DEPTH
    ensures i < |events| ==> Open(events[..i]) != Some([])
    ensures Elements(events[..i]) <= MAX_ELEMENTS && SizeOf(events[..i]) <= MAX_XML_BYTES
  {
    if i < |events| {
      var before := events[..|events| - 1];
      assert before[..i] == events[..i];
      SoundPrefixes(before, ns, i);
      if i == |events| - 1 { assert before[..i] == before; }
    } else {
      assert events[..i] == events;
      if i > 1 { SoundPrefixes(events[..i - 1], ns, i - 1); }
    }
  }

  ghost predicate Consistent(st: State, ns: string) {
    && Sound(st.events, ns)
    && Open(st.events) == Some(st.stack)
    && st.elements == Elements(st.events)
    && st.size == SizeOf(st.events)
    && (st.elements == 0 <==> st.events == [])
  }

  lemma Extended(st: State, e: Event, next: State, ns: string)
    requires Consistent(st, ns)
    requires next.events == st.events + [e] && next.size == st.size + Size(e) <= MAX_XML_BYTES
    requires Apply(st.stack, e) == Some(next.stack) && |next.stack| <= MAX_DEPTH
    requires next.elements == st.elements + (if e.Start? || e.Empty? then 1 else 0) <= MAX_ELEMENTS
    requires if st.elements == 0 then OpensRoot(e, ns) else st.stack != []
    ensures Consistent(next, ns)
  {
    assert next.events[..|next.events| - 1] == st.events;
  }

  /** Every turn of the loop keeps the output sound, whatever the bytes. */
  lemma StepKeepsConsistent(table: Bytes, ns: string, st: State)
    requires st.rest != [] && Consistent(st, ns)
    requires Step(table, ns, st).Ok?
    ensures Consistent(Step(table, ns, st).value, ns)
  {
    var next := Step(table, ns, st).value;
    var token := st.rest[0];
    if token == SWITCH_PAGE {
    } else if token == END {
      Extended(st, Event.End(st.stack[|st.stack| - 1]), next, ns);
    } else if token == STR_I || token == STR_T || token == OPAQUE {
      TextKeepsConsistent(table, ns, token, st);
    } else {
      TagKeepsConsistent(ns, token, st);
    }
  }

  lemma TextKeepsConsistent(table: Bytes, ns: string, token: byte, st: State)
    requires st.rest != [] && Consistent(st, ns)
    requires StepText(table, token, st).Ok?
    ensures Consistent(StepText(table, token, st).value, ns)
  {
    var next := StepText(table, token, st).value;
    StackNeedsRoot(st, ns);
    Extended(st, next.events[|st.events|], next, ns);
  }

  lemma StackNeedsRoot(st: State, ns: string)
    requires Consistent(st, ns) && st.stack != []
    ensures st.elements > 0 && |st.stack| <= MAX_DEPTH && st.elements <= MAX_ELEMENTS
  {
  }

  lemma SizeIsBounded(st: State, ns: string)
    requires Consistent(st, ns)
    ensures st.size <= MAX_XML_BYTES
  {
  }

  lemma TagKeepsConsistent(ns: string, token: byte, st: State)
    requires st.rest != [] && Consistent(st, ns)
    requires st.elements > 0 ==> st.stack != []
    requires StepTag(ns, token, st).Ok?
    ensures Consistent(StepTag(ns, token, st).value, ns)
  {
    var next := StepTag(ns, token, st).value;
    Extended(st, next.events[|st.events|], next, ns);
  }

  lemma {:induction false} LoopIsSound(table: Bytes, ns: string, st: State)
    requires Consistent(st, ns) && Loop(table, ns, st).Ok?
    ensures Sound(Loop(table, ns, st).value, ns) && Open(Loop(table, ns, st).value) == Some([])
    ensures Loop(table, ns, st).value != []
    decreases |st.rest|
  {
    if st.rest != [] {
      StepKeepsConsistent(table, ns, st);
      LoopIsSound(table, ns, Step(table, ns, st).value);
    }
  }

  /**
   Whatever the bytes, what the decoder accepts is one balanced SyncML element within every
   limit: at most 64 open tags, 16384 elements and 2 MiB of output.
   */
  lemma DecodeIsSound(payload: Bytes)
    requires Decode(payload).Ok?
    ensures var d := Decode(payload).value;
            && (d.publicId == PUBLIC_ID_11 || d.publicId == PUBLIC_ID_12)
            && d.events != []
            && Sound(d.events, PublicNamespace(d.publicId))
            && Open(d.events) == Some([])
  {
    var header := ReadHeader(payload).value;
    var id := ResolvePublicId(header.publicRef, header.table).value;
    LoopIsSound(header.table, PublicNamespace(id), Initial(header.body));
  }

  // ---- the decoder as the source runs it ----

  /** _Decoder: an offset into the payload, the string table, and the output so far. */
  class Decoder {
    const payload: Bytes
    var offset: nat
    var table: Bytes
    var events: seq<Event>
    var size: nat

    ghost predicate Valid()
      reads this
    {
      offset <= |payload|
    }

    /** The payload not yet read. */
    ghost function Rest(): Bytes
      requires Valid()
      reads this
    {
      payload[offset..]
    }

    constructor (payload: Bytes)
      ensures Valid() && this.payload == payload
      ensures offset == 0 && events == [] && size == 0
    {
      this.payload := payload;
      offset, table, events, size := 0, [], [], 0;
    }

    method Take(length: nat) returns (r: Result<Bytes, WbxmlError>)
      requires Valid()
      modifies `offset
      ensures Valid()
      ensures r.Ok? <==> length <= |old(Rest())|
      ensures r.Ok? ==> r.value == old(Rest())[..length] && Rest() == old(Rest())[length..]
                        && offset == old(offset) + length
      ensures r.Err? ==> r.error == Truncated && offset == old(offset)
    {
      if length > |payload| - offset {
        return Err(Truncated);
      }
      var start := offset;
      offset := offset + length;
      assert payload[start..][..length] == payload[start..offset];
      r := Ok(payload[start..offset]);
    }

    method TakeInteger() returns (r: Result<nat, WbxmlError>)
      requires Valid()
      modifies `offset
      ensures Valid() && old(offset) <= offset
      ensures match Integer(old(Rest()))
              case Ok((v, rest)) => r == Ok(v) && Rest() == rest && old(offset) < offset
              case Err(e) => r == Err(e)
    {
      var value: nat := 0;
      ghost var whole := Integer(Rest());
      for i := 0 to MAX_MB_UINT32_BYTES
        invariant Valid() && offset == old(offset) + i
        invariant ReadInteger(Rest(), MAX_MB_UINT32_BYTES - i, value) == whole
      {
        ghost var here := Rest();
        var byteRead := Take(1);
        if byteRead.Err? {
          assert whole == Err(Truncated);
          return Err(byteRead.error);
        }
        var b := byteRead.value[0];
        var next := value * 128 + b as nat % 128;
        assert whole == ReadInteger(here, MAX_MB_UINT32_BYTES - i, value) && here[0] == b && here[1..] == Rest();
        if next > MAX_UINT32 {
          assert whole == Err(IntegerTooLarge);
          return Err(IntegerTooLarge);
        }
        if b < 128 {
          assert whole == Ok((next, Rest()));
          return Ok(next);
        }
        value := next;
      }
      r := Err(IntegerTooLong);
    }

    method TakeInline() returns (r: Result<Bytes, WbxmlError>)
      requires Valid()
      modifies `offset
      ensures Valid() && old(offset) <= offset
      ensures match InlineString(old(Rest()))
              case Ok((raw, rest)) => r == Ok(raw) && Rest() == rest && old(offset) < offset
              case Err(e) => r == Err(e)
    {
      var end := Find(payload[offset..], 0);
      if end == |payload| - offset {
        return Err(UnterminatedInline);
      }
      r := Take(end);
      var _ := Take(1);
    }

    method TakeText(token: byte) returns (r: Result<Bytes, WbxmlError>)
      requires Valid()
      modifies `offset
      ensures Valid() && old(offset) <= offset
      ensures match TextBytes(old(table), token, old(Rest()))
              case Ok((raw, rest)) => r == Ok(raw) && Rest() == rest
              case Err(e) => r == Err(e)
    {
      if token == STR_I {
        r := TakeInline();
      } else {
        var n := TakeInteger();
        if n.Err? {
          return Err(n.error);
        }
        if token == STR_T {
          r := TableString(table, n.value);
        } else {
          r := Take(n.value);
        }
      }
    }

    /** _Output.write. */
    method Emit(e: Event) returns (ok: bool)
      modifies `events, `size
      requires size <= MAX_XML_BYTES
      ensures ok <==> old(size) + Size(e) <= MAX_XML_BYTES
      ensures ok ==> events == old(events) + [e] && size == old(size) + Size(e)
      ensures !ok ==> events == old(events) && size == old(size)
    {
      ok := Size(e) <= MAX_XML_BYTES - size;
      if ok {
        events := events + [e];
        size := size + Size(e);
      }
    }

    method ReadPublicRef() returns (r: Result<PublicRef, WbxmlError>)
      requires Valid()
      modifies `offset
      ensures Valid()
      ensures match Integer(old(Rest()))
              case Err(e) => r == Err(e)
              case Ok((id, rest)) =>
                if id != 0 then r == Ok(Numeric(id)) && Rest() == rest
                else match ReadOffset(rest)
                     case Ok((ref, rest2)) => r == Ok(ref) && Rest() == rest2
                     case Err(e) => r == Err(e)
    {
      var id := TakeInteger();
      if id.Err? {
        return Err(id.error);
      }
      if id.value != 0 {
        return Ok(Numeric(id.value));
      }
      var at := TakeInteger();
      r := if at.Ok? then Ok(InTable(at.value)) else Err(at.error);
    }

    method TakeHeader() returns (r: Result<PublicRef, WbxmlError>)
      requires Valid() && offset == 0
      modifies `offset, `table
      ensures Valid()
      ensures match ReadHeader(payload)
              case Ok(h) => r == Ok(h.publicRef) && table == h.table && Rest() == h.body
              case Err(e) => r == Err(e)
    {
      assert payload[0..] == payload;
      var version := Take(1);
      if version.Err? {
        return Err(version.error);
      }
      if version.value[0] != VERSION_12 && version.value[0] != VERSION_13 {
        return Err(Version);
      }
      var publicRef := ReadPublicRef();
      if publicRef.Err? {
        return publicRef;
      }
      var charset := TakeInteger();
      if charset.Err? {
        return Err(charset.error);
      }
      if charset.value != CHARSET_UTF8 {
        return Err(Charset);
      }
      var length := TakeInteger();
      if length.Err? {
        return Err(length.error);
      }
      var bytes := Take(length.value);
      if bytes.Err? {
        return Err(bytes.error);
      }
      table := bytes.value;
      r := publicRef;
    }

    /** The state of the loop, given its local variables. */
    ghost function Now(page: nat, stack: seq<Tag>, elements: nat): State
      requires Valid()
      reads this
    {
      State(Rest(), page, stack, elements, events, size)
    }

    /** The text branch of the loop. */
    method EmitText(token: byte, ghost page: nat, stack: seq<Tag>, ghost elements: nat)
      returns (r: Option<WbxmlError>)
      requires Valid() && size <= MAX_XML_BYTES && 0 < offset
      modifies `offset, `events, `size
      ensures Valid()
      ensures match StepText(table, token,
          State(payload[old(offset) - 1..], page, stack, elements, old(events), old(size)))
              case Ok(next) => r == None && next == Now(page, stack, elements)
              case Err(e) => r == Some(e)
    {
      assert payload[offset - 1..][1..] == payload[offset..];
      if stack == [] {
        return Some(TextOutsideRoot);
      }
      var raw := TakeText(token);
      if raw.Err? {
        return Some(raw.error);
      }
      var text := DecodeText(raw.value);
      if text.Err? {
        return Some(text.error);
      }
      var ok := Emit(Text(text.value));
      r := if ok then None else Some(OutputTooLarge);
    }

    /** The body of the loop: one token and what belongs to it. */
    method Turn(ns: string, page: nat, stack: seq<Tag>, elements: nat)
      returns (r: Option<WbxmlError>, page': nat, stack': seq<Tag>, elements': nat)
      requires Valid() && offset < |payload| && size <= MAX_XML_BYTES
      modifies `offset, `events, `size
      ensures Valid()
      ensures match Step(table, ns, old(Now(page, stack, elements)))
              case Ok(next) => r == None && next == Now(page', stack', elements') && old(offset) < offset
              case Err(e) => r == Some(e)
    {
      hide StepText; hide StepTag; hide SizeOf;
      r, page', stack', elements' := None, page, stack, elements;
      if elements > 0 && stack == [] {
        r := Some(TrailingContent);
        return;
      }
      var token := payload[offset];
      assert Rest()[0] == token && Rest()[1..] == payload[offset + 1..];
      offset := offset + 1;
      if token == SWITCH_PAGE {
        var next := Take(1);
        if next.Err? {
          r := Some(Truncated);
        } else if next.value[0] >= 2 {
          r := Some(CodePage);
        } else {
          page' := next.value[0] as nat;
        }
      } else if token == END {
        if stack == [] {
          r := Some(UnexpectedEnd);
          return;
        }
        var ok := Emit(Event.End(stack[|stack| - 1]));
        if ok {
          stack' := stack[..|stack| - 1];
        } else {
          r := Some(OutputTooLarge);
        }
      } else if token == STR_I || token == STR_T || token == OPAQUE {
        r := EmitText(token, page, stack, elements);
      } else {
        var entered := EnterTag(ns, token, page, stack, elements);
        if entered.Ok? {
          stack', elements' := entered.value, elements + 1;
        } else {
          r := Some(entered.error);
        }
      }
    }

    /**
     The byte loop. The offset grows on every turn, the output stays sound, and what it returns
     is what `Loop` says of the bytes after the header.
     */
    method Run(ns: string) returns (r: Result<seq<Event>, WbxmlError>)
      requires Valid() && events == [] && size == 0
      modifies `offset, `events, `size
      ensures r == Loop(table, ns, Initial(old(Rest())))
    {
      var page: nat := 0;
      var stack: seq<Tag> := [];
      var elements: nat := 0;
      ghost var start := Initial(Rest());
      while offset < |payload|
        invariant Valid()
        invariant Consistent(Now(page, stack, elements), ns)
        invariant Loop(table, ns, Now(page, stack, elements)) == Loop(table, ns, start)
        decreases |payload| - offset
      {
        ghost var before := Now(page, stack, elements);
        ghost var step := Step(table, ns, before);
        if step.Ok? { StepKeepsConsistent(table, ns, before); }
        SizeIsBounded(before, ns);
        var error;
        error, page, stack, elements := Turn(ns, page, stack, elements);
        if error.Some? {
          return Err(error.value);
        }
      }
      if stack != [] {
        return Err(MissingEnd);
      }
      if elements == 0 {
        return Err(MissingRoot);
      }
      r := Ok(events);
    }

    /** The tag branch of the loop; returns the stack after it. */
    method EnterTag(ns: string, token: byte, page: nat, stack: seq<Tag>, elements: nat)
      returns (r: Result<seq<Tag>, WbxmlError>)
      requires size <= MAX_XML_BYTES && 0 < offset <= |payload|
      modifies `events, `size
      ensures match StepTag(ns, token, State(payload[offset - 1..], page, stack, elements, old(events), old(size)))
              case Ok(next) =>
                r == Ok(next.stack) && events == next.events && size == next.size
                && next.elements == elements + 1 && next.page == page && next.rest == Rest()
              case Err(e) => r == Err(e)
    {
      assert payload[offset - 1..][1..] == payload[offset..];
      var low := token as nat % 64;
      if token == 0x84 || token == 0xC4 || (low >= 5 && token >= 0x80) {
        return Err(Attributes);
      }
      if low < 5 {
        return Err(GlobalToken);
      }
      var name := TagName(page, low);
      if name.None? {
        return Err(UnknownTag);
      }
      if |stack| >= MAX_DEPTH {
        return Err(TooDeep);
      }
      if elements + 1 > MAX_ELEMENTS {
        return Err(TooManyElements);
      }
      var declares: Option<string> := None;
      if elements == 0 {
        if page != 0 || name.value != "SyncML" {
          return Err(NotSyncML);
        }
        declares := Some(ns);
      }
      var tag := Tag(page, name.value);
      var content := token as nat / 64 % 2 == 1;
      var ok := Emit(if content then Start(tag, declares) else Empty(tag, declares));
      if !ok {
        return Err(OutputTooLarge);
      }
      r := Ok(if content then stack + [tag] else stack);
    }

    /** The whole decoder, on any bytes: it always ends, with the result `Decode` gives. */
    method DecodeDocument() returns (r: Result<Document, WbxmlError>)
      requires Valid() && offset == 0 && events == [] && size == 0
      modifies this
      ensures r == Decode(payload)
    {
      if |payload| > MAX_INPUT_BYTES {
        return Err(InputTooLarge);
      }
      var publicRef := TakeHeader();
      if publicRef.Err? {
        return Err(publicRef.error);
      }
      var id := ResolvePublicId(publicRef.value, table);
      if id.Err? {
        return Err(id.error);
      }
      var run := Run(PublicNamespace(id.value));
      r := if run.Ok? then Ok(Document(id.value, run.value)) else Err(run.error);
    }
  }
}
