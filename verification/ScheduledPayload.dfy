/**
 The payload that carries one scheduled run to the Linux guest: written by the daemon,
 read by the VM service with a position that moves through the buffer.
 */
module ScheduledPayload {
  import opened Wrappers
  import opened Bytes

  const MAGIC: seq<Byte> := [0x47, 0x52, 0x4b, 0x53, 0x43, 0x48, 0x30, 0x31] // GRKSCH01
  const MAX_PROMPT: nat := 64 * 1024
  const MAX_ID: nat := 128

  datatype Request = Request(occurrenceId: seq<Byte>, runId: seq<Byte>, prompt: seq<Byte>)

  predicate Alphanumeric(b: Byte) {
    0x30 <= b <= 0x39 || 0x41 <= b <= 0x5a || 0x61 <= b <= 0x7a
  }

  predicate ValidId(id: seq<Byte>) {
    && 1 <= |id| <= MAX_ID && Alphanumeric(id[0])
    && forall i :: 0 <= i < |id| ==> Alphanumeric(id[i]) || id[i] in [0x2e, 0x5f, 0x3a, 0x2d]
  }

  predicate Continuation(bytes: seq<Byte>, i: nat) {
    i < |bytes| && 0x80 <= bytes[i] <= 0xbf
  }

  /** Length of the well-formed UTF-8 sequence at the front, or 0. */
  function FirstScalar(bytes: seq<Byte>): (n: nat)
    requires bytes != []
    ensures n <= |bytes|
  {
    var b := bytes[0];
    if b < 0x80 then 1
    else if 0xc2 <= b <= 0xdf && Continuation(bytes, 1) then 2
    else if 0xe0 <= b <= 0xef && Continuation(bytes, 1) && Continuation(bytes, 2)
            && (b == 0xe0 ==> bytes[1] >= 0xa0) && (b == 0xed ==> bytes[1] <= 0x9f) then 3
    else if 0xf0 <= b <= 0xf4 && Continuation(bytes, 1) && Continuation(bytes, 2) && Continuation(bytes, 3)
            && (b == 0xf0 ==> bytes[1] >= 0x90) && (b == 0xf4 ==> bytes[1] <= 0x8f) then 4
    else 0
  }

  predicate Utf8(bytes: seq<Byte>)
    decreases |bytes|
  {
    bytes == [] || (FirstScalar(bytes) > 0 && Utf8(bytes[FirstScalar(bytes)..]))
  }

  predicate IsScalar(c: nat) {
    c < 0xd800 || 0xe000 <= c < 0x11_0000
  }

  /** One Unicode scalar value in UTF-8. */
  function ScalarBytes(c: nat): seq<Byte>
    requires IsScalar(c)
  {
    if c < 0x80 then [c]
    else if c < 0x800 then [0xc0 + c / 0x40, 0x80 + c % 0x40]
    else if c < 0x1_0000 then [0xe0 + c / 0x40 / 0x40, 0x80 + c / 0x40 % 0x40, 0x80 + c % 0x40]
    else [0xf0 + c / 0x40 / 0x40 / 0x40, 0x80 + c / 0x40 / 0x40 % 0x40, 0x80 + c / 0x40 % 0x40, 0x80 + c % 0x40]
  }

  function TextBytes(text: seq<nat>): seq<Byte>
    requires forall i :: 0 <= i < |text| ==> IsScalar(text[i])
  {
    if text == [] then [] else ScalarBytes(text[0]) + TextBytes(text[1..])
  }

  lemma ScalarComesFirst(c: nat, rest: seq<Byte>)
    requires IsScalar(c)
    ensures FirstScalar(ScalarBytes(c) + rest) == |ScalarBytes(c)|
  {
  }

  /** The scalar value at the front of well-formed bytes. */
  lemma FirstIsScalar(bytes: seq<Byte>) returns (c: nat)
    requires bytes != [] && FirstScalar(bytes) > 0
    ensures IsScalar(c) && bytes[..FirstScalar(bytes)] == ScalarBytes(c)
  {
    var n := FirstScalar(bytes);
    if n == 1 {
      c := bytes[0];
    } else if n == 2 {
      c := TwoBytes(bytes[0], bytes[1]);
    } else if n == 3 {
      c := ThreeBytes(bytes[0], bytes[1], bytes[2]);
    } else {
      c := FourBytes(bytes[0], bytes[1], bytes[2], bytes[3]);
    }
  }

  lemma SixBits(q: nat, r: nat)
    requires r < 0x40
    ensures (q * 0x40 + r) / 0x40 == q && (q * 0x40 + r) % 0x40 == r
  {
  }

  lemma TwoBytes(a: Byte, b: Byte) returns (c: nat)
    requires 0xc2 <= a <= 0xdf && 0x80 <= b <= 0xbf
    ensures IsScalar(c) && ScalarBytes(c) == [a, b]
  {
    c := (a - 0xc0) * 0x40 + (b - 0x80);
  }

  lemma ThreeBytes(a: Byte, b: Byte, d: Byte) returns (c: nat)
    requires 0xe0 <= a <= 0xef && 0x80 <= b <= 0xbf && 0x80 <= d <= 0xbf
    requires (a == 0xe0 ==> b >= 0xa0) && (a == 0xed ==> b <= 0x9f)
    ensures IsScalar(c) && ScalarBytes(c) == [a, b, d]
  {
    var high: nat := (a - 0xe0) * 0x40 + (b - 0x80);
    SixBits(a - 0xe0, b - 0x80);
    SixBits(high, d - 0x80);
    c := high * 0x40 + (d - 0x80);
  }

  lemma FourBytes(a: Byte, b: Byte, d: Byte, e: Byte) returns (c: nat)
    requires 0xf0 <= a <= 0xf4 && 0x80 <= b <= 0xbf && 0x80 <= d <= 0xbf && 0x80 <= e <= 0xbf
    requires (a == 0xf0 ==> b >= 0x90) && (a == 0xf4 ==> b <= 0x8f)
    ensures IsScalar(c) && ScalarBytes(c) == [a, b, d, e]
  {
    var high: nat := (a - 0xf0) * 0x40 + (b - 0x80);
    var middle: nat := high * 0x40 + (d - 0x80);
    SixBits(a - 0xf0, b - 0x80);
    SixBits(high, d - 0x80);
    SixBits(middle, e - 0x80);
    c := middle * 0x40 + (e - 0x80);
  }

  lemma {:induction false} TextIsUtf8(text: seq<nat>)
    requires forall i :: 0 <= i < |text| ==> IsScalar(text[i])
    ensures Utf8(TextBytes(text))
  {
    if text != [] {
      var first, rest := ScalarBytes(text[0]), TextBytes(text[1..]);
      TextIsUtf8(text[1..]);
      ScalarComesFirst(text[0], rest);
      assert (first + rest)[|first|..] == rest;
    }
  }

  lemma {:induction false} Utf8IsText(bytes: seq<Byte>) returns (text: seq<nat>)
    requires Utf8(bytes)
    ensures (forall i :: 0 <= i < |text| ==> IsScalar(text[i])) && TextBytes(text) == bytes
    decreases |bytes|
  {
    if bytes == [] {
      text := [];
    } else {
      var n := FirstScalar(bytes);
      var c := FirstIsScalar(bytes);
      var rest := Utf8IsText(bytes[n..]);
      text := [c] + rest;
      assert text[1..] == rest;
      assert bytes == bytes[..n] + bytes[n..];
    }
  }

  predicate Valid(request: Request) {
    && ValidId(request.occurrenceId) && ValidId(request.runId)
    && 1 <= |request.prompt| <= MAX_PROMPT && Utf8(request.prompt) && 0 !in request.prompt
  }

  /** A length in front of its bytes. */
  function Field(width: nat, bytes: seq<Byte>): seq<Byte> {
    BigEndian(width, |bytes|) + bytes
  }

  /** The one encoding of a request. */
  function Payload(request: Request): seq<Byte> {
    MAGIC + Field(2, request.occurrenceId) + Field(2, request.runId) + Field(4, request.prompt)
  }

  /** The daemon's side. Its prompts are text, hence well-formed UTF-8. */
  method Encode(request: Request) returns (result: Result<seq<Byte>, ()>)
    requires Utf8(request.prompt)
    ensures result.Ok? <==> Valid(request)
    ensures result.Ok? ==> result.value == Payload(request)
  {
    if !ValidId(request.occurrenceId) || !ValidId(request.runId)
       || |request.prompt| == 0 || |request.prompt| > MAX_PROMPT || 0 in request.prompt {
      return Err(());
    }
    var payload := MAGIC;
    payload := payload + BigEndian(2, |request.occurrenceId|);
    payload := payload + request.occurrenceId;
    payload := payload + BigEndian(2, |request.runId|);
    payload := payload + request.runId;
    payload := payload + BigEndian(4, |request.prompt|);
    payload := payload + request.prompt;
    assert payload == Payload(request);
    return Ok(payload);
  }

  predicate FieldAt(payload: seq<Byte>, position: nat, width: nat, bytes: seq<Byte>) {
    && position + width + |bytes| <= |payload|
    && FromBigEndian(payload[position..position + width]) == |bytes|
    && payload[position + width..position + width + |bytes|] == bytes
  }

  lemma FieldFound(before: seq<Byte>, width: nat, bytes: seq<Byte>, after: seq<Byte>)
    requires |bytes| < Base(width)
    ensures FieldAt(before + Field(width, bytes) + after, |before|, width, bytes)
  {
    NumberSurvives(width, |bytes|);
    var payload, size := before + Field(width, bytes) + after, BigEndian(width, |bytes|);
    assert payload == before + (size + (bytes + after)) && payload == (before + size) + (bytes + after);
    assert payload[|before|..|before| + width] == size;
    assert payload[|before| + width..|before| + width + |bytes|] == bytes;
  }

  lemma FieldRebuilt(payload: seq<Byte>, position: nat, width: nat, bytes: seq<Byte>)
    requires FieldAt(payload, position, width, bytes)
    ensures payload[..position + width + |bytes|] == payload[..position] + Field(width, bytes)
  {
    BytesSurvive(payload[position..position + width]);
  }

  /** Where the fields of a payload lie. */
  predicate Layout(payload: seq<Byte>, request: Request) {
    var run := 10 + |request.occurrenceId|;
    var prompt := run + 2 + |request.runId|;
    && |payload| == prompt + 4 + |request.prompt| && payload[..8] == MAGIC
    && FieldAt(payload, 8, 2, request.occurrenceId)
    && FieldAt(payload, run, 2, request.runId)
    && FieldAt(payload, prompt, 4, request.prompt)
  }

  lemma PayloadHasLayout(request: Request)
    requires Valid(request)
    ensures Layout(Payload(request), request)
  {
    hide FieldAt;
    hide Utf8;
    Widths();
    FieldsFound(request.occurrenceId, request.runId, request.prompt);
  }

  lemma FieldsFound(occurrenceId: seq<Byte>, runId: seq<Byte>, prompt: seq<Byte>)
    requires |occurrenceId| < Base(2) && |runId| < Base(2) && |prompt| < Base(4)
    ensures
      var a, b, c := Field(2, occurrenceId), Field(2, runId), Field(4, prompt);
      var payload := MAGIC + a + b + c;
      && payload[..8] == MAGIC
      && FieldAt(payload, 8, 2, occurrenceId)
      && FieldAt(payload, 8 + |a|, 2, runId)
      && FieldAt(payload, 8 + |a| + |b|, 4, prompt)
  {
    hide FieldAt;
    var a, b, c := Field(2, occurrenceId), Field(2, runId), Field(4, prompt);
    FieldFound(MAGIC, 2, occurrenceId, b + c);
    FieldFound(MAGIC + a, 2, runId, c);
    FieldFound(MAGIC + a + b, 4, prompt, []);
    hide Field;
    var payload := MAGIC + a + b + c;
    assert MAGIC + a + (b + c) == payload;
    assert payload + [] == payload;
  }

  lemma LayoutIsPayload(payload: seq<Byte>, request: Request)
    requires Layout(payload, request)
    ensures payload == Payload(request)
  {
    var run := 10 + |request.occurrenceId|;
    var prompt := run + 2 + |request.runId|;
    FieldRebuilt(payload, 8, 2, request.occurrenceId);
    FieldRebuilt(payload, run, 2, request.runId);
    FieldRebuilt(payload, prompt, 4, request.prompt);
    hide FieldAt;
    hide Field;
    assert payload[..|payload|] == payload;
  }

  lemma LayoutsAgree(payload: seq<Byte>, r: Request, s: Request)
    requires Layout(payload, r) && Layout(payload, s)
    ensures r == s
  {
  }

  /** What the offsets of a payload say, before the fields themselves are checked. */
  function Read(payload: seq<Byte>): Option<Request> {
    if |payload| < 16 || payload[..8] != MAGIC then None
    else
      var a := FromBigEndian(payload[8..10]);
      if a < 1 || 10 + a + 2 + 4 > |payload| then None
      else
        var b := FromBigEndian(payload[10 + a..12 + a]);
        if b < 1 || 12 + a + b + 4 > |payload| then None
        else
          var c := FromBigEndian(payload[12 + a + b..16 + a + b]);
          if c < 1 || c > MAX_PROMPT || 16 + a + b + c != |payload| then None
          else Some(Request(payload[10..10 + a], payload[12 + a..12 + a + b], payload[16 + a + b..]))
  }

  lemma ReadHasLayout(payload: seq<Byte>)
    requires Read(payload).Some?
    ensures Layout(payload, Read(payload).value)
  {
  }

  lemma LayoutIsRead(payload: seq<Byte>, request: Request)
    requires Layout(payload, request) && Valid(request)
    ensures Read(payload) == Some(request)
  {
    hide Utf8;
    hide FromBigEndian;
    var a, b := |request.occurrenceId|, |request.runId|;
    assert FromBigEndian(payload[8..10]) == a && payload[10..10 + a] == request.occurrenceId;
    assert FromBigEndian(payload[10 + a..12 + a]) == b && payload[12 + a..12 + a + b] == request.runId;
    assert FromBigEndian(payload[12 + a + b..16 + a + b]) == |request.prompt|;
    assert payload[16 + a + b..] == request.prompt;
  }

  /** The service's side: every valid request is read back, and nothing but its one encoding is accepted. */
  method Decode(payload: seq<Byte>) returns (result: Result<Request, ()>)
    ensures result.Ok? ==> Valid(result.value) && payload == Payload(result.value)
    ensures forall request :: Valid(request) && payload == Payload(request) ==> result == Ok(request)
  {
    hide Payload;
    hide Layout;
    hide Utf8;
    hide ValidId;
    hide FromBigEndian;
    forall request | Valid(request) && payload == Payload(request)
      ensures Read(payload) == Some(request)
    {
      PayloadHasLayout(request);
      LayoutIsRead(payload, request);
    }
    if |payload| < 16 || payload[..8] != MAGIC {
      return Err(());
    }
    var occurrenceLength := FromBigEndian(payload[8..10]);
    var position := 10;
    if occurrenceLength < 1 || position + occurrenceLength + 2 + 4 > |payload| {
      return Err(());
    }
    var occurrenceId := payload[position..position + occurrenceLength];
    position := position + occurrenceLength;
    var runLength := FromBigEndian(payload[position..position + 2]);
    position := position + 2;
    if runLength < 1 || position + runLength + 4 > |payload| {
      return Err(());
    }
    var runId := payload[position..position + runLength];
    position := position + runLength;
    var promptLength := FromBigEndian(payload[position..position + 4]);
    position := position + 4;
    if promptLength < 1 || promptLength > MAX_PROMPT || position + promptLength != |payload| {
      return Err(());
    }
    var prompt := payload[position..];
    if !ValidId(occurrenceId) || !ValidId(runId) || !Utf8(prompt) || 0 in prompt {
      return Err(());
    }
    ReadHasLayout(payload);
    LayoutIsPayload(payload, Read(payload).value);
    return Ok(Request(occurrenceId, runId, prompt));
  }

  /** Two valid requests never share a payload. */
  lemma PayloadIsInjective(r: Request, s: Request)
    requires Valid(r) && Valid(s) && Payload(r) == Payload(s)
    ensures r == s
  {
    PayloadHasLayout(r);
    PayloadHasLayout(s);
    LayoutsAgree(Payload(r), r, s);
  }
}
