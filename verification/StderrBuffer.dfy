/**
 The bounded buffer for the agent's standard error. Bytes arrive in arbitrary chunks; what
 is kept is a function of the lines, each seen only through its diagnostic form.
 Decoding with replacement characters is a parameter.
 */
module StderrBuffer {
  import opened Bytes
  import opened Text

  const OVERSIZE: string := "[oversize diagnostic discarded]\n"
  const REDACTED: string := "[redacted sensitive diagnostic]"
  const SENSITIVE: seq<string> := ["authorization:", "bearer ", "xai-", "api_key", "token="]

  type Lossy = seq<Byte> -> string

  predicate WordAt(text: string, word: string, i: nat) {
    i + |word| <= |text| && text[i..i + |word|] == word
  }

  predicate ContainsWord(text: string, word: string) {
    exists i :: 0 <= i <= |text| && WordAt(text, word, i)
  }

  function WithoutControls(text: string): string {
    if text == "" then ""
    else if !Control(text[0]) || text[0] in "\n\r\t" then [text[0]] + WithoutControls(text[1..])
    else WithoutControls(text[1..])
  }

  predicate IsSensitive(line: string) {
    exists i :: 0 <= i < |SENSITIVE| && ContainsWord(ToLower(line), SENSITIVE[i])
  }

  function Sanitize(line: string): string {
    if IsSensitive(line) then REDACTED else WithoutControls(line)
  }

  /** The longest prefix of at most so many bytes. */
  function Fitting(text: string, room: nat): string {
    if text == "" || Width(text[0]) > room then "" else [text[0]] + Fitting(text[1..], room - Width(text[0]))
  }

  datatype Buffer = Buffer(text: string, pending: seq<Byte>, truncated: bool, discarding: bool)

  const EMPTY: Buffer := Buffer("", [], false, false)

  predicate Overflows(text: string, limit: nat, piece: string) {
    ByteLength(text) >= limit || ByteLength(piece) > limit - ByteLength(text)
  }

  function Extended(text: string, limit: nat, piece: string): string {
    if ByteLength(text) >= limit then text
    else if Overflows(text, limit, piece) then text + Fitting(piece, limit - ByteLength(text))
    else text + piece
  }

  function Append(b: Buffer, limit: nat, piece: string): Buffer {
    b.(text := Extended(b.text, limit, piece), truncated := b.truncated || Overflows(b.text, limit, piece))
  }

  function FinishLine(b: Buffer, limit: nat, lossy: Lossy): Buffer {
    if b.discarding then Append(b.(discarding := false), limit, OVERSIZE)
    else Append(b.(pending := []), limit, Sanitize(lossy(b.pending)) + "\n")
  }

  function PushByte(b: Buffer, limit: nat, lossy: Lossy, byte: Byte): Buffer {
    if byte == NEWLINE then FinishLine(b, limit, lossy)
    else if b.discarding then b
    else if |b.pending| < limit then b.(pending := b.pending + [byte])
    else b.(pending := [], discarding := true, truncated := true)
  }

  function PushAll(b: Buffer, limit: nat, lossy: Lossy, bytes: seq<Byte>): Buffer {
    if bytes == [] then b
    else PushByte(PushAll(b, limit, lossy, bytes[..|bytes| - 1]), limit, lossy, bytes[|bytes| - 1])
  }

  function Finish(b: Buffer, limit: nat, lossy: Lossy): Buffer {
    if b.pending != [] || b.discarding then FinishLine(b, limit, lossy) else b
  }

  lemma PushSnoc(b: Buffer, limit: nat, lossy: Lossy, bytes: seq<Byte>, byte: Byte, more: seq<Byte>)
    requires more == bytes + [byte]
    ensures PushAll(b, limit, lossy, more) == PushByte(PushAll(b, limit, lossy, bytes), limit, lossy, byte)
  {
    hide PushByte;
    assert more[..|more| - 1] == bytes;
  }

  lemma NothingPushed(b: Buffer, limit: nat, lossy: Lossy, none: seq<Byte>)
    requires none == []
    ensures PushAll(b, limit, lossy, none) == b
  {
  }

  /** Chunks do not matter: pushing two chunks is pushing their concatenation. */
  lemma {:induction false} PushIsChunkIndependent(b: Buffer, limit: nat, lossy: Lossy, first: seq<Byte>, second: seq<Byte>)
    ensures PushAll(PushAll(b, limit, lossy, first), limit, lossy, second) == PushAll(b, limit, lossy, first + second)
    decreases |second|
  {
    hide PushAll;
    hide PushByte;
    var pushed := PushAll(b, limit, lossy, first);
    if second == [] {
      assert first + second == first;
      NothingPushed(pushed, limit, lossy, second);
    } else {
      var front, last := second[..|second| - 1], second[|second| - 1];
      PushIsChunkIndependent(b, limit, lossy, first, front);
      PushSnoc(pushed, limit, lossy, front, last, second);
      PushSnoc(b, limit, lossy, first + front, last, first + second);
    }
  }

  // The reference: split into lines, turn each into its diagnostic, append in order.

  datatype Split = Split(lines: seq<seq<Byte>>, rest: seq<Byte>)

  /** One more byte: it ends the line or belongs to it. */
  function OneMore(split: Split, byte: Byte): Split {
    if byte == NEWLINE then Split(split.lines + [split.rest], []) else split.(rest := split.rest + [byte])
  }

  function Lines(bytes: seq<Byte>): Split {
    if bytes == [] then Split([], []) else OneMore(Lines(bytes[..|bytes| - 1]), bytes[|bytes| - 1])
  }

  function AllLines(bytes: seq<Byte>): seq<seq<Byte>> {
    var split := Lines(bytes);
    if split.rest == [] then split.lines else split.lines + [split.rest]
  }

  function Diagnostic(limit: nat, lossy: Lossy, line: seq<Byte>): string {
    if |line| > limit then OVERSIZE else Sanitize(lossy(line)) + "\n"
  }

  function Collect(limit: nat, pieces: seq<string>): Buffer {
    if pieces == [] then EMPTY else Append(Collect(limit, pieces[..|pieces| - 1]), limit, pieces[|pieces| - 1])
  }

  function Diagnostics(limit: nat, lossy: Lossy, lines: seq<seq<Byte>>): seq<string> {
    seq(|lines|, i requires 0 <= i < |lines| => Diagnostic(limit, lossy, lines[i]))
  }

  predicate AnyOversize(limit: nat, lines: seq<seq<Byte>>) {
    exists i :: 0 <= i < |lines| && |lines[i]| > limit
  }

  /** The buffer that the reference predicts after a stream. */
  function Predicted(limit: nat, lossy: Lossy, bytes: seq<Byte>): Buffer {
    var split := Lines(bytes);
    var collected := Collect(limit, Diagnostics(limit, lossy, split.lines));
    var oversize := |split.rest| > limit;
    Buffer(collected.text, if oversize then [] else split.rest,
           collected.truncated || AnyOversize(limit, split.lines) || oversize, oversize)
  }

  lemma CollectSnoc(limit: nat, lossy: Lossy, lines: seq<seq<Byte>>, line: seq<Byte>)
    ensures Collect(limit, Diagnostics(limit, lossy, lines + [line]))
         == Append(Collect(limit, Diagnostics(limit, lossy, lines)), limit, Diagnostic(limit, lossy, line))
    ensures AnyOversize(limit, lines + [line]) <==> AnyOversize(limit, lines) || |line| > limit
  {
    hide Extended;
    hide Overflows;
    hide Sanitize;
    var pieces := Diagnostics(limit, lossy, lines + [line]);
    assert pieces[..|pieces| - 1] == Diagnostics(limit, lossy, lines);
    if AnyOversize(limit, lines) {
      var i :| 0 <= i < |lines| && |lines[i]| > limit;
      assert (lines + [line])[i] == lines[i];
    }
    assert (lines + [line])[|lines|] == line;
  }

  /** The incremental machine computes the reference, whatever the stream. */
  lemma {:induction false} PushComputesPrediction(limit: nat, lossy: Lossy, bytes: seq<Byte>)
    ensures PushAll(EMPTY, limit, lossy, bytes) == Predicted(limit, lossy, bytes)
  {
    hide Extended;
    hide Overflows;
    hide Sanitize;
    if bytes != [] {
      var front := bytes[..|bytes| - 1];
      PushComputesPrediction(limit, lossy, front);
      var before := Lines(front);
      CollectSnoc(limit, lossy, before.lines, before.rest);
    }
  }

  /** The kept text depends on each line only through its diagnostic form, and never exceeds the limit. */
  lemma FinishedTextIsCollected(limit: nat, lossy: Lossy, bytes: seq<Byte>)
    ensures
      var finished := Finish(PushAll(EMPTY, limit, lossy, bytes), limit, lossy);
      && finished.text == Collect(limit, Diagnostics(limit, lossy, AllLines(bytes))).text
      && finished.pending == [] && !finished.discarding
      && ByteLength(finished.text) <= limit
  {
    hide Extended;
    hide Overflows;
    hide Sanitize;
    hide ByteLength;
    PushComputesPrediction(limit, lossy, bytes);
    var split := Lines(bytes);
    CollectSnoc(limit, lossy, split.lines, split.rest);
    CollectWithinLimit(limit, Diagnostics(limit, lossy, AllLines(bytes)));
  }

  lemma {:induction false} FittingFits(text: string, room: nat)
    ensures ByteLength(Fitting(text, room)) <= room
    ensures Fitting(text, room) <= text
    ensures ByteLength(text) <= room ==> Fitting(text, room) == text
  {
    if text != "" && Width(text[0]) <= room {
      FittingFits(text[1..], room - Width(text[0]));
      assert ([text[0]] + Fitting(text[1..], room - Width(text[0])))[1..] == Fitting(text[1..], room - Width(text[0]));
    }
  }

  lemma AppendWithinLimit(b: Buffer, limit: nat, piece: string)
    requires ByteLength(b.text) <= limit
    ensures ByteLength(Append(b, limit, piece).text) <= limit
    ensures b.text <= Append(b, limit, piece).text
  {
    if ByteLength(b.text) < limit {
      var room := limit - ByteLength(b.text);
      FittingFits(piece, room);
      ByteLengthConcat(b.text, Fitting(piece, room));
      ByteLengthConcat(b.text, piece);
    }
  }

  lemma {:induction false} CollectWithinLimit(limit: nat, pieces: seq<string>)
    ensures ByteLength(Collect(limit, pieces).text) <= limit
  {
    if pieces != [] {
      CollectWithinLimit(limit, pieces[..|pieces| - 1]);
      AppendWithinLimit(Collect(limit, pieces[..|pieces| - 1]), limit, pieces[|pieces| - 1]);
    }
  }

  // What the kept text is in terms of everything that was written

  function Concat(pieces: seq<string>): string {
    if pieces == [] then "" else Concat(pieces[..|pieces| - 1]) + pieces[|pieces| - 1]
  }

  lemma FittingCons(c: char, rest: string, room: nat)
    ensures Fitting([c] + rest, room) == if Width(c) > room then "" else [c] + Fitting(rest, room - Width(c))
    ensures ByteLength([c] + rest) == Width(c) + ByteLength(rest)
  {
    hide Width;
    assert ([c] + rest)[1..] == rest;
  }

  lemma Associative(c: char, a: string, b: string)
    ensures [c] + (a + b) == [c] + a + b
  {
  }

  lemma {:induction false} FittingConcat(a: string, b: string, room: nat)
    ensures Fitting(a + b, room) ==
      if ByteLength(a) <= room then a + Fitting(b, room - ByteLength(a)) else Fitting(a, room)
  {
    hide Fitting;
    hide ByteLength;
    hide Width;
    if a == "" {
      assert a + b == b;
      NoBytes(b, room);
    } else {
      var c, rest := a[0], a[1..];
      assert a == [c] + rest;
      Associative(c, rest, b);
      FittingCons(c, rest, room);
      FittingCons(c, rest + b, room);
      if Width(c) <= room {
        var left := room - Width(c);
        FittingConcat(rest, b, left);
        if ByteLength(rest) <= left {
          Associative(c, rest, Fitting(b, left - ByteLength(rest)));
        }
      }
    }
  }

  lemma NoBytes(b: string, room: nat)
    ensures ByteLength("") == 0 && "" + Fitting(b, room) == Fitting(b, room)
  {
  }

  /**
   After a cut inside a character's width a few bytes stay free, and a later piece that
   starts with a narrow enough character lands in them.
   */
  predicate Spliced(limit: nat, pieces: seq<string>) {
    pieces != [] &&
    var front, last := pieces[..|pieces| - 1], pieces[|pieces| - 1];
    || Spliced(limit, front)
    || (ByteLength(Concat(front)) > limit && last != ""
        && ByteLength(Fitting(Concat(front), limit)) + Width(last[0]) <= limit)
  }

  lemma {:induction false} CollectIsFitting(limit: nat, pieces: seq<string>)
    ensures !Spliced(limit, pieces) ==> Collect(limit, pieces).text == Fitting(Concat(pieces), limit)
    ensures Spliced(limit, pieces) ==>
      ByteLength(Concat(pieces)) > limit && |Collect(limit, pieces).text| > |Fitting(Concat(pieces), limit)|
  {
    if pieces != [] {
      var front, last := pieces[..|pieces| - 1], pieces[|pieces| - 1];
      CollectIsFitting(limit, front);
      CollectWithinLimit(limit, front);
      FittingConcat(Concat(front), last, limit);
      FittingFits(Concat(front), limit);
      ByteLengthConcat(Concat(front), last);
      FittingFits(last, limit - ByteLength(Collect(limit, front).text));
    }
  }

  /** Everything the agent wrote, in the form in which it may be kept. */
  function Written(limit: nat, lossy: Lossy, bytes: seq<Byte>): seq<string> {
    Diagnostics(limit, lossy, AllLines(bytes))
  }

  /**
   For every stream: the kept text is the longest fitting prefix of all diagnostics exactly
   when none of them is spliced into a gap.
   */
  lemma KeepsLongestPrefixIff(limit: nat, lossy: Lossy, bytes: seq<Byte>)
    ensures
      Finish(PushAll(EMPTY, limit, lossy, bytes), limit, lossy).text == Fitting(Concat(Written(limit, lossy, bytes)), limit)
      <==> !Spliced(limit, Written(limit, lossy, bytes))
  {
    FinishedTextIsCollected(limit, lossy, bytes);
    CollectIsFitting(limit, Written(limit, lossy, bytes));
  }

  /**
   With a limit of two bytes: an empty line, a line with one wide character, an empty line.
   The wide character is cut away and the last line's break takes its place.
   */
  lemma SpliceHappens(lossy: Lossy)
    requires lossy([]) == "" && lossy([0xc3, 0xa9]) == "\U{00e9}"
    ensures
      var bytes := [NEWLINE, 0xc3, 0xa9, NEWLINE, NEWLINE];
      && Finish(PushAll(EMPTY, 2, lossy, bytes), 2, lossy).text == "\n\n"
      && Fitting(Concat(Written(2, lossy, bytes)), 2) == "\n"
      && Spliced(2, Written(2, lossy, bytes))
  {
    hide Finish;
    hide PushAll;
    hide AllLines;
    hide Diagnostic;
    hide Collect;
    hide Concat;
    hide Fitting;
    hide Spliced;
    var bytes: seq<Byte> := [NEWLINE, 0xc3, 0xa9, NEWLINE, NEWLINE];
    var pieces := ["\n", "\U{00e9}\n", "\n"];
    WitnessLines();
    WitnessDiagnostics(lossy);
    FinishedTextIsCollected(2, lossy, bytes);
    assert Written(2, lossy, bytes) == pieces;
    WitnessText();
    KeepsLongestPrefixIff(2, lossy, bytes);
  }

  lemma LinesSnoc(bytes: seq<Byte>, byte: Byte, more: seq<Byte>)
    requires more == bytes + [byte]
    ensures Lines(more) == OneMore(Lines(bytes), byte)
  {
    assert more[..|more| - 1] == bytes;
  }

  lemma WitnessLines()
    ensures AllLines([NEWLINE, 0xc3, 0xa9, NEWLINE, NEWLINE]) == [[], [0xc3, 0xa9], []]
  {
    hide Lines;
    assert Lines([]) == Split([], []) by { NoLines(); }
    LinesSnoc([], NEWLINE, [NEWLINE]);
    assert Lines([NEWLINE]) == Split([[]], []);
    LinesSnoc([NEWLINE], 0xc3, [NEWLINE, 0xc3]);
    assert Lines([NEWLINE, 0xc3]) == Split([[]], [0xc3]);
    LinesSnoc([NEWLINE, 0xc3], 0xa9, [NEWLINE, 0xc3, 0xa9]);
    assert Lines([NEWLINE, 0xc3, 0xa9]) == Split([[]], [0xc3, 0xa9]);
    LinesSnoc([NEWLINE, 0xc3, 0xa9], NEWLINE, [NEWLINE, 0xc3, 0xa9, NEWLINE]);
    assert Lines([NEWLINE, 0xc3, 0xa9, NEWLINE]) == Split([[], [0xc3, 0xa9]], []);
    LinesSnoc([NEWLINE, 0xc3, 0xa9, NEWLINE], NEWLINE, [NEWLINE, 0xc3, 0xa9, NEWLINE, NEWLINE]);
  }

  lemma NoLines()
    ensures Lines([]) == Split([], [])
  {
  }

  lemma WitnessDiagnostics(lossy: Lossy)
    requires lossy([]) == "" && lossy([0xc3, 0xa9]) == "\U{00e9}"
    ensures Diagnostic(2, lossy, []) == "\n" && Diagnostic(2, lossy, [0xc3, 0xa9]) == "\U{00e9}\n"
  {
    NothingToRedact("");
    NothingToRedact("\U{00e9}");
    hide Sanitize;
  }

  lemma NothingToRedact(line: string)
    requires |line| <= 1
    ensures Sanitize(line) == WithoutControls(line)
  {
    hide WithoutControls;
    forall i | 0 <= i < |SENSITIVE|
      ensures !ContainsWord(ToLower(line), SENSITIVE[i])
    {
      SensitiveWordsAreLonger(i);
      ShortTextHasNoWord(ToLower(line), SENSITIVE[i]);
    }
    hide ContainsWord;
  }

  lemma ShortTextHasNoWord(text: string, word: string)
    requires |text| < |word|
    ensures !ContainsWord(text, word)
  {
  }

  lemma SensitiveWordsAreLonger(i: nat)
    requires i < |SENSITIVE|
    ensures |SENSITIVE[i]| > 1
  {
    assert i == 0 || i == 1 || i == 2 || i == 3 || i == 4;
  }

  lemma WitnessText()
    ensures
      var pieces := ["\n", "\U{00e9}\n", "\n"];
      Collect(2, pieces).text == "\n\n" && Fitting(Concat(pieces), 2) == "\n"
  {
    var first, wide := "\n", "\U{00e9}\n";
    var pieces := [first, wide, first];
    assert pieces[..2] == [first, wide] && pieces[..2][..1] == [first];
    assert wide[1..] == first && first[1..] == "";
    assert ByteLength(first) == 1 && ByteLength(wide) == 3;
    assert Collect(2, [first]).text == first;
    assert Collect(2, [first, wide]).text == first;
    assert (first + wide)[1..] == wide && (first + wide + first)[1..] == wide + first;
    assert Concat([first]) == first && Concat([first, wide]) == first + wide;
    assert Concat(pieces) == first + wide + first;
  }

  class BoundedStderr {
    const limit: nat
    const lossy: Lossy
    var text: string
    var pendingLine: seq<Byte>
    var truncated: bool
    var discardingLine: bool

    ghost function View(): Buffer
      reads this
    {
      Buffer(text, pendingLine, truncated, discardingLine)
    }

    constructor (limit: nat, lossy: Lossy)
      ensures View() == EMPTY && this.limit == limit && this.lossy == lossy
    {
      this.limit := limit;
      this.lossy := lossy;
      text, pendingLine, truncated, discardingLine := "", [], false, false;
    }

    method Push(bytes: seq<Byte>)
      modifies this
      ensures View() == PushAll(old(View()), limit, lossy, bytes)
    {
      hide PushAll;
      hide FinishLine;
      var i := 0;
      NothingPushed(old(View()), limit, lossy, bytes[..i]);
      while i < |bytes|
        invariant 0 <= i <= |bytes|
        invariant View() == PushAll(old(View()), limit, lossy, bytes[..i])
      {
        PushSnoc(old(View()), limit, lossy, bytes[..i], bytes[i], bytes[..i + 1]);
        if bytes[i] == NEWLINE {
          Complete();
        } else if !discardingLine {
          if |pendingLine| < limit {
            pendingLine := pendingLine + [bytes[i]];
          } else {
            pendingLine := [];
            discardingLine := true;
            truncated := true;
          }
        }
        i := i + 1;
      }
      assert bytes[..i] == bytes;
    }

    method Close()
      modifies this
      ensures View() == Finish(old(View()), limit, lossy)
    {
      if pendingLine != [] || discardingLine {
        Complete();
      }
    }

    method Complete()
      modifies this
      ensures View() == FinishLine(old(View()), limit, lossy)
    {
      hide Extended;
      hide Overflows;
      hide Sanitize;
      if discardingLine {
        discardingLine := false;
        AppendText(OVERSIZE);
        return;
      }
      var sanitized := Sanitize(lossy(pendingLine)) + "\n";
      pendingLine := [];
      AppendText(sanitized);
    }

    method AppendText(sanitized: string)
      modifies this`text, this`truncated
      ensures View() == Append(old(View()), limit, sanitized)
    {
      if ByteLength(text) >= limit {
        truncated := true;
        return;
      }
      var remaining := limit - ByteLength(text);
      if ByteLength(sanitized) > remaining {
        text := text + Fitting(sanitized, remaining);
        truncated := true;
      } else {
        text := text + sanitized;
      }
    }
  }
}
