/**
 The wire vocabulary of the WBXML codec: constants, multi-byte integers, string tables and tag
 tables. src/acs/protocol/omadm/wbxml.py; WAP-192 (WBXML 1.3) sections 5.1, 5.7 and 5.8.
 */
module WbxmlFormat {
  import opened Wrappers
  import Utf8

  const VERSION_12: byte := 0x02
  const VERSION_13: byte := 0x03
  const PUBLIC_ID_11: nat := 0x0FD3
  const PUBLIC_ID_12: nat := 0x1201
  const CHARSET_UTF8: nat := 106

  const MAX_INPUT_BYTES: nat := 512 * 1024
  const MAX_XML_BYTES: nat := 2 * 1024 * 1024
  const MAX_DEPTH: nat := 64
  const MAX_ELEMENTS: nat := 16384
  const MAX_MB_UINT32_BYTES: nat := 5
  const MAX_UINT32: nat := 0xFFFF_FFFF

  const MAX_ENCODE_BYTES: nat := 16 * 1024 * 1024
  const MAX_ENCODE_DEPTH: nat := 128
  const MAX_ENCODE_ELEMENTS: nat := 8 * MAX_ELEMENTS

  const SWITCH_PAGE: byte := 0x00
  const END: byte := 0x01
  const STR_I: byte := 0x03
  const STR_T: byte := 0x83
  const OPAQUE: byte := 0xC3
  const CONTENT: byte := 0x40

  const METINF_NS := "syncml:metinf"
  const SYNCML_NS_11 := "SYNCML:SYNCML1.1"
  const SYNCML_NS_12 := "SYNCML:SYNCML1.2"
  const PUBLIC_NAME_11 := "-//SYNCML//DTD SyncML 1.1//EN"
  const PUBLIC_NAME_12 := "-//SYNCML//DTD SyncML 1.2//EN"

  /** SYNCML_TAGS, with no name for the reserved 0x30 and what is past the table. */
  function SyncMlName(token: nat): string {
    match token
    case 0x05 => "Add"
    case 0x06 => "Alert"
    case 0x07 => "Archive"
    case 0x08 => "Atomic"
    case 0x09 => "Chal"
    case 0x0A => "Cmd"
    case 0x0B => "CmdID"
    case 0x0C => "CmdRef"
    case 0x0D => "Copy"
    case 0x0E => "Cred"
    case 0x0F => "Data"
    case 0x10 => "Delete"
    case 0x11 => "Exec"
    case 0x12 => "Final"
    case 0x13 => "Get"
    case 0x14 => "Item"
    case 0x15 => "Lang"
    case 0x16 => "LocName"
    case 0x17 => "LocURI"
    case 0x18 => "Map"
    case 0x19 => "MapItem"
    case 0x1A => "Meta"
    case 0x1B => "MsgID"
    case 0x1C => "MsgRef"
    case 0x1D => "NoResp"
    case 0x1E => "NoResults"
    case 0x1F => "Put"
    case 0x20 => "Replace"
    case 0x21 => "RespURI"
    case 0x22 => "Results"
    case 0x23 => "Search"
    case 0x24 => "Sequence"
    case 0x25 => "SessionID"
    case 0x26 => "SftDel"
    case 0x27 => "Source"
    case 0x28 => "SourceRef"
    case 0x29 => "Status"
    case 0x2A => "Sync"
    case 0x2B => "SyncBody"
    case 0x2C => "SyncHdr"
    case 0x2D => "SyncML"
    case 0x2E => "Target"
    case 0x2F => "TargetRef"
    case 0x31 => "VerDTD"
    case 0x32 => "VerProto"
    case 0x33 => "NumberOfChanges"
    case 0x34 => "MoreData"
    case 0x35 => "Field"
    case 0x36 => "Filter"
    case 0x37 => "Record"
    case 0x38 => "FilterType"
    case 0x39 => "SourceParent"
    case 0x3A => "TargetParent"
    case 0x3B => "Move"
    case 0x3C => "Correlator"
    case _ => ""
  }

  /** METINF_TAGS. */
  function MetInfName(token: nat): string {
    match token
    case 0x05 => "Anchor"
    case 0x06 => "EMI"
    case 0x07 => "Format"
    case 0x08 => "FreeID"
    case 0x09 => "FreeMem"
    case 0x0A => "Last"
    case 0x0B => "Mark"
    case 0x0C => "MaxMsgSize"
    case 0x0D => "Mem"
    case 0x0E => "MetInf"
    case 0x0F => "Next"
    case 0x10 => "NextNonce"
    case 0x11 => "SharedMem"
    case 0x12 => "Size"
    case 0x13 => "Type"
    case 0x14 => "Version"
    case 0x15 => "MaxObjSize"
    case 0x16 => "FieldLevel"
    case _ => ""
  }

  /** TAG_PAGES[page].get(token) for the six low bits of a tag byte. */
  function TagName(page: nat, token: nat): Option<string> {
    var name := if page == 0 then SyncMlName(token) else MetInfName(token);
    if name == "" then None else Some(name)
  }

  /** TAG_TOKENS[page].get(name): the inverse of the page's table. */
  function TagToken(page: nat, name: string): (t: Option<byte>)
    ensures t.Some? ==> 5 <= t.value < 0x40 && TagName(page, t.value as nat) == Some(name)
    ensures t.None? ==> forall token: nat :: 5 <= token < 0x40 ==> TagName(page, token) != Some(name)
  {
    Search(page, name, 5)
  }

  function Search(page: nat, name: string, from: nat): (t: Option<byte>)
    requires 5 <= from <= 0x40
    ensures t.Some? ==> 5 <= t.value < 0x40 && TagName(page, t.value as nat) == Some(name)
    ensures t.None? ==> forall token: nat :: from <= token < 0x40 ==> TagName(page, token) != Some(name)
    decreases 0x40 - from
  {
    if from == 0x40 then None
    else if TagName(page, from) == Some(name) then Some(from as byte)
    else Search(page, name, from + 1)
  }

  function PublicNamespace(id: nat): string
    requires id == PUBLIC_ID_11 || id == PUBLIC_ID_12
  {
    if id == PUBLIC_ID_11 then SYNCML_NS_11 else SYNCML_NS_12
  }

  /** The public id with this name, 0 if none has. */
  function PublicId(name: string): nat {
    if name == PUBLIC_NAME_11 then PUBLIC_ID_11
    else if name == PUBLIC_NAME_12 then PUBLIC_ID_12
    else 0
  }

  // ---- multi-byte integers (WAP-192 section 5.1) ----

  /** Seven bits a byte, most significant first, the top bit set on all but the last. */
  function MbUint32(v: nat): (b: Bytes)
    ensures 1 <= |b|
  {
    MbHigh(v / 128) + [(v % 128) as byte]
  }

  function MbHigh(v: nat): Bytes {
    if v == 0 then [] else MbHigh(v / 128) + [(v % 128 + 128) as byte]
  }

  /** The number a string of seven-bit digits denotes, whatever the top bits. */
  function Digits(b: Bytes): nat {
    if b == [] then 0 else Digits(b[..|b| - 1]) * 128 + b[|b| - 1] as nat % 128
  }

  datatype WbxmlError =
    | InputTooLarge
    | Truncated
    | IntegerTooLarge
    | IntegerTooLong
    | UnterminatedInline
    | TableOffset
    | UnterminatedTable
    | NotUtf8
    | InvalidXmlChar
    | Version
    | Charset
    | PublicIdentifier
    | TrailingContent
    | CodePage
    | UnexpectedEnd
    | TextOutsideRoot
    | Attributes
    | GlobalToken
    | UnknownTag
    | TooDeep
    | TooManyElements
    | OutputTooLarge
    | NotSyncML
    | MissingEnd
    | MissingRoot

  /** _integer: at most `left` more bytes, each prefix bounded; returns the value and what follows. */
  function ReadInteger(b: Bytes, left: nat, value: nat): (r: Result<(nat, Bytes), WbxmlError>)
    ensures r.Ok? ==> |r.value.1| < |b|
    decreases left
  {
    if left == 0 then Err(IntegerTooLong)
    else if b == [] then Err(Truncated)
    else
      var next := value * 128 + b[0] as nat % 128;
      if next > MAX_UINT32 then Err(IntegerTooLarge)
      else if b[0] < 128 then Ok((next, b[1..]))
      else ReadInteger(b[1..], left - 1, next)
  }

  function Integer(b: Bytes): (r: Result<(nat, Bytes), WbxmlError>)
    ensures r.Ok? ==> |r.value.1| < |b|
  {
    ReadInteger(b, MAX_MB_UINT32_BYTES, 0)
  }

  /** The first k bytes of b are one multi-byte integer: continuation bits on all but the last. */
  predicate IsEncoding(b: Bytes, k: nat) {
    && 1 <= k <= |b|
    && b[k - 1] < 128
    && forall i :: 0 <= i < k - 1 ==> b[i] >= 128
  }

  lemma {:induction false} DigitsAfter(prefix: Bytes, b: byte)
    ensures Digits(prefix + [b]) == Digits(prefix) * 128 + b as nat % 128
  {
    assert (prefix + [b])[..|prefix|] == prefix;
  }

  lemma {:induction false} DigitsGrow(b: Bytes, i: nat)
    requires i <= |b|
    ensures Digits(b[..i]) <= Digits(b)
  {
    if i < |b| {
      assert b[..|b| - 1][..i] == b[..i];
      DigitsGrow(b[..|b| - 1], i);
    } else {
      assert b[..i] == b;
    }
  }

  /**
   The reader accepts exactly the encodings of at most five bytes whose value is below 2^32, and
   then returns that value and the bytes after them.
   */
  lemma IntegerAccepts(b: Bytes, k: nat)
    requires IsEncoding(b, k)
    ensures k <= 5 && Digits(b[..k]) <= MAX_UINT32 ==> Integer(b) == Ok((Digits(b[..k]), b[k..]))
    ensures !(k <= 5 && Digits(b[..k]) <= MAX_UINT32) ==> Integer(b).Err?
  {
    ReadFrom(b, k, 0);
  }

  lemma NextDigit(b: Bytes, k: nat, done: nat)
    requires done < k <= |b|
    ensures Digits(b[..done + 1]) == Digits(b[..done]) * 128 + b[done] as nat % 128 <= Digits(b[..k])
  {
    assert b[..done + 1] == b[..done] + [b[done]];
    DigitsAfter(b[..done], b[done]);
    DigitsGrow(b[..k], done + 1);
    assert b[..k][..done + 1] == b[..done + 1];
  }

  lemma {:induction false} ReadFrom(b: Bytes, k: nat, done: nat)
    requires IsEncoding(b, k) && done < k && done <= 5
    ensures var r := ReadInteger(b[done..], 5 - done, Digits(b[..done]));
            if k <= 5 && Digits(b[..k]) <= MAX_UINT32 then r == Ok((Digits(b[..k]), b[k..])) else r.Err?
    decreases k - done
  {
    if done < 5 {
      NextDigit(b, k, done);
      assert b[done..][0] == b[done] && b[done..][1..] == b[done + 1..];
      if done + 1 < k {
        ReadFrom(b, k, done + 1);
      }
    }
  }

  /** Nothing else is accepted: a successful read has consumed such an encoding. */
  lemma {:induction false} IntegerConsumes(b: Bytes)
    requires Integer(b).Ok?
    ensures exists k: nat :: IsEncoding(b, k) && k <= 5 && Integer(b).value == (Digits(b[..k]), b[k..])
  {
    var k := LastByte(b, 5, 0);
    IntegerAccepts(b, k);
  }

  lemma {:induction false} LastByte(b: Bytes, left: nat, value: nat) returns (k: nat)
    requires ReadInteger(b, left, value).Ok?
    ensures IsEncoding(b, k)
    decreases left
  {
    if b[0] < 128 {
      k := 1;
    } else {
      var j := LastByte(b[1..], left - 1, value * 128 + b[0] as nat % 128);
      k := j + 1;
    }
  }

  lemma {:induction false} MbHighShape(v: nat)
    ensures Digits(MbHigh(v)) == v
    ensures forall i :: 0 <= i < |MbHigh(v)| ==> MbHigh(v)[i] >= 128
  {
    if v != 0 {
      MbHighShape(v / 128);
      DigitsAfter(MbHigh(v / 128), (v % 128 + 128) as byte);
    }
  }

  lemma MbUint32Shape(v: nat)
    ensures IsEncoding(MbUint32(v), |MbUint32(v)|) && Digits(MbUint32(v)) == v
  {
    MbHighShape(v / 128);
    DigitsAfter(MbHigh(v / 128), (v % 128) as byte);
  }

  function Pow128(k: nat): (p: nat)
    ensures 0 < p
  {
    if k == 0 then 1 else 128 * Pow128(k - 1)
  }

  lemma {:induction false} DigitsBound(b: Bytes)
    ensures Digits(b) < Pow128(|b|)
  {
    if b != [] { DigitsBound(b[..|b| - 1]); }
  }

  lemma {:induction false} MbHighLength(v: nat)
    ensures v == 0 ==> MbHigh(v) == []
    ensures v > 0 ==> Pow128(|MbHigh(v)| - 1) <= v
  {
    if v >= 128 { MbHighLength(v / 128); }
  }

  lemma {:induction false} Pow128Order(a: nat, b: nat)
    requires Pow128(a) < Pow128(b)
    ensures a < b
  {
    if 0 < a && 0 < b { Pow128Order(a - 1, b - 1); }
  }

  lemma MbUint32Length(v: nat)
    ensures v > 0 ==> Pow128(|MbUint32(v)| - 1) <= v
  {
    MbHighLength(v / 128);
  }

  /** MbUint32 is minimal: no string of digits that denotes v is shorter. */
  lemma MbUint32Minimal(v: nat, b: Bytes)
    requires b != [] && Digits(b) == v
    ensures |MbUint32(v)| <= |b|
    ensures v <= MAX_UINT32 ==> |MbUint32(v)| <= 5
  {
    DigitsBound(b);
    MbUint32Length(v);
    if v > 0 { Pow128Order(|MbUint32(v)| - 1, |b|); }
    if v <= MAX_UINT32 { IntegerOfMbUint32(v, []); }
  }

  /** Reading back: the value, and exactly the bytes that follow; five bytes are always enough. */
  lemma IntegerOfMbUint32(v: nat, rest: Bytes)
    requires v <= MAX_UINT32
    ensures Integer(MbUint32(v) + rest) == Ok((v, rest))
    ensures |MbUint32(v)| <= 5
  {
    var m := MbUint32(v);
    MbUint32Shape(v);
    MbUint32Length(v);
    assert Pow128(5) == 128 * 128 * 128 * 128 * 128;
    if v > 0 { Pow128Order(|m| - 1, 5); }
    assert (m + rest)[..|m|] == m && (m + rest)[|m|..] == rest;
    IntegerAccepts(m + rest, |m|);
  }

  /** _mb_uint32 as the loop it is: digits gathered from the low end and reversed. */
  method MbUint32Loop(value: nat) returns (r: Option<Bytes>)
    ensures r == if value <= MAX_UINT32 then Some(MbUint32(value)) else None
  {
    if value > MAX_UINT32 { return None; }
    var bytes: Bytes := [(value % 128) as byte];
    var v: nat := value / 128;
    while v != 0
      invariant MbHigh(v) + bytes == MbUint32(value)
      decreases v
    {
      ghost var before := bytes;
      bytes := [(v % 128 + 128) as byte] + bytes;
      assert MbHigh(v) + before == MbHigh(v / 128) + bytes;
      v := v / 128;
    }
    assert MbHigh(0) + bytes == bytes;
    r := Some(bytes);
  }

  // ---- string table (WAP-192 section 5.7) ----

  function Find(b: Bytes, c: byte): (i: nat)
    ensures i <= |b| && c !in b[..i] && (i < |b| ==> b[i] == c)
  {
    if b == [] || b[0] == c then 0
    else
      var j := Find(b[1..], c);
      assert b[..j + 1] == [b[0]] + b[1..][..j];
      j + 1
  }

  /** _table_string: the bytes from offset to the next NUL. */
  function TableString(table: Bytes, offset: nat): (r: Result<Bytes, WbxmlError>) {
    if offset >= |table| then Err(TableOffset)
    else
      var end := Find(table[offset..], 0);
      if end == |table| - offset then Err(UnterminatedTable)
      else Ok(table[offset..offset + end])
  }

  /** An entry is read back at its offset, whatever stands before or after it. */
  lemma TableStringAt(before: Bytes, entry: Bytes, rest: Bytes)
    requires 0 !in entry
    ensures TableString(before + entry + [0] + rest, |before|) == Ok(entry)
  {
    var table := before + entry + [0] + rest;
    assert table[|before|..] == entry + [0] + rest;
    FindAt(table[|before|..], 0, |entry|);
    assert table[|before|..|before| + |entry|] == entry;
  }

  lemma {:induction false} FindAt(b: Bytes, c: byte, k: nat)
    requires k < |b| && b[k] == c && c !in b[..k]
    ensures Find(b, c) == k
  {
    if k > 0 {
      assert b[0] in b[..k];
      assert b[1..][..k - 1] == b[..k][1..];
      FindAt(b[1..], c, k - 1);
    }
  }

  /** _utf8: strict UTF-8 of XML characters only. */
  function DecodeText(raw: Bytes): (r: Result<string, WbxmlError>)
    ensures r.Ok? ==> Utf8.IsXmlText(r.value) && Utf8.Encode(r.value) == raw
  {
    var text := Utf8.Decode(raw);
    if text.None? then Err(NotUtf8)
    else
      Utf8.EncodeOfDecode(raw);
      if Utf8.IsXmlText(text.value) then Ok(text.value) else Err(InvalidXmlChar)
  }

  lemma DecodeTextOfEncode(s: string)
    requires Utf8.IsXmlText(s)
    ensures DecodeText(Utf8.Encode(s)) == Ok(s)
    ensures 0 !in Utf8.Encode(s)
  {
    Utf8.DecodeOfEncode(s);
    Utf8.NoZero(s);
  }
}
