/**
 What may be read in the kept standard error: which characters, which words, and what is
 shown of each line. Words are compared before control characters are dropped, so a word
 that is broken by them is put together again.
 */
module StderrPrivacy {
  import opened Bytes
  import opened Text
  import opened StderrBuffer

  predicate IsSecretWord(word: string) {
    word == "authorization:" || word == "bearer " || word == "xai-" || word == "api_key" || word == "token="
  }

  /** The text holds the word, in whatever case. */
  predicate Holds(text: string, word: string) {
    ContainsWord(ToLower(text), word)
  }

  ghost predicate HoldsSecretWord(text: string) {
    exists word :: IsSecretWord(word) && Holds(text, word)
  }

  predicate IsKept(c: char) {
    c == '\n' || c == '\r' || c == '\t' || ('\U{0020}' <= c && !('\U{007f}' <= c <= '\U{009f}'))
  }

  predicate IsPrintable(text: string) {
    forall i :: 0 <= i < |text| ==> IsKept(text[i])
  }

  lemma SensitiveIffSecretWord(line: string)
    ensures IsSensitive(line) <==> HoldsSecretWord(line)
  {
    hide ContainsWord;
    if IsSensitive(line) {
      var i :| 0 <= i < |SENSITIVE| && ContainsWord(ToLower(line), SENSITIVE[i]);
      assert i == 0 || i == 1 || i == 2 || i == 3 || i == 4;
      assert IsSecretWord(SENSITIVE[i]) && Holds(line, SENSITIVE[i]);
    }
    if word :| IsSecretWord(word) && Holds(line, word) {
      assert word == SENSITIVE[0] || word == SENSITIVE[1] || word == SENSITIVE[2] || word == SENSITIVE[3] || word == SENSITIVE[4];
    }
  }

  // Dropping control characters

  lemma {:induction false} DroppingIsPrintable(text: string)
    ensures IsPrintable(WithoutControls(text))
    ensures IsPrintable(text) ==> WithoutControls(text) == text
  {
    if text != "" {
      DroppingIsPrintable(text[1..]);
    }
  }

  lemma {:induction false} DroppingConcat(a: string, b: string)
    ensures WithoutControls(a + b) == WithoutControls(a) + WithoutControls(b)
  {
    if a == "" {
      assert a + b == b;
    } else {
      assert (a + b)[1..] == a[1..] + b;
      DroppingConcat(a[1..], b);
    }
  }

  /** Every prefix of what is left comes from a prefix of the text. */
  lemma {:induction false} CutBehind(text: string, q: nat) returns (i: nat)
    requires q <= |WithoutControls(text)|
    ensures i <= |text|
    ensures WithoutControls(text[..i]) == WithoutControls(text)[..q] && WithoutControls(text[i..]) == WithoutControls(text)[q..]
  {
    if q == 0 {
      i := 0;
      assert text[..0] == "" && text[0..] == text;
    } else {
      var head, rest := text[..1], text[1..];
      assert text == head + rest;
      DroppingConcat(head, rest);
      var left := |WithoutControls(head)|;
      var d := CutBehind(rest, q - left);
      i := d + 1;
      assert text[..i] == head + rest[..d] && text[i..] == rest[d..];
      DroppingConcat(head, rest[..d]);
    }
  }

  /** A stretch of the text spells the word once its control characters are dropped. */
  ghost predicate Spells(text: string, word: string) {
    exists i, j :: 0 <= i <= j <= |text| && ToLower(WithoutControls(text[i..j])) == word
  }

  lemma WordAtIff(text: string, word: string, i: nat)
    requires i + |word| <= |text|
    ensures WordAt(ToLower(text), word, i) <==> ToLower(text[i..i + |word|]) == word
  {
    assert ToLower(text)[i..i + |word|] == ToLower(text[i..i + |word|]);
  }

  lemma WordIsHeld(text: string, word: string, i: nat)
    requires i + |word| <= |text| && ToLower(text[i..i + |word|]) == word
    ensures Holds(text, word)
  {
    WordAtIff(text, word, i);
  }

  /** Where a held word stands. */
  lemma HeldWordStands(text: string, word: string) returns (i: nat)
    requires Holds(text, word)
    ensures i + |word| <= |text| && WordAt(ToLower(text), word, i) && ToLower(text[i..i + |word|]) == word
  {
    i :| 0 <= i <= |text| && WordAt(ToLower(text), word, i);
    WordAtIff(text, word, i);
  }

  lemma HeldIsSpelled(text: string, word: string)
    requires Holds(WithoutControls(text), word)
    ensures Spells(text, word)
  {
    hide Holds;
    hide ToLower;
    hide WithoutControls;
    var kept := WithoutControls(text);
    var p := HeldWordStands(kept, word);
    var i := CutBehind(text, p);
    var d := CutBehind(text[i..], |word|);
    assert text[i..][..d] == text[i..i + d];
    assert kept[p..][..|word|] == kept[p..p + |word|];
  }

  lemma WordInTheMiddle(a: string, b: string, c: string, word: string)
    requires ToLower(b) == word
    ensures Holds(a + (b + c), word)
  {
    hide Holds;
    hide ToLower;
    assert (a + (b + c))[|a|..|a| + |b|] == b;
    WordIsHeld(a + (b + c), word, |a|);
  }

  lemma ThreeParts(text: string, i: nat, j: nat)
    requires i <= j <= |text|
    ensures text == text[..i] + (text[i..j] + text[j..])
  {
  }

  lemma RightSlice(a: string, b: string, i: nat, j: nat)
    requires |a| <= i <= j <= |a| + |b|
    ensures (a + b)[i..j] == b[i - |a|..j - |a|]
  {
  }

  lemma SpelledIsHeld(text: string, word: string, i: nat, j: nat)
    requires i <= j <= |text| && ToLower(WithoutControls(text[i..j])) == word
    ensures Holds(WithoutControls(text), word)
  {
    hide Holds;
    hide ToLower;
    hide WithoutControls;
    var before, window, after := text[..i], text[i..j], text[j..];
    ThreeParts(text, i, j);
    DroppingConcat(before, window + after);
    DroppingConcat(window, after);
    WordInTheMiddle(WithoutControls(before), WithoutControls(window), WithoutControls(after), word);
  }

  lemma DroppedHoldsIffSpells(text: string, word: string)
    ensures Holds(WithoutControls(text), word) <==> Spells(text, word)
  {
    hide Holds;
    hide ToLower;
    hide WithoutControls;
    if Holds(WithoutControls(text), word) {
      HeldIsSpelled(text, word);
    }
    if i, j :| 0 <= i <= j <= |text| && ToLower(WithoutControls(text[i..j])) == word {
      SpelledIsHeld(text, word, i, j);
    }
  }

  // What a line is shown as

  /** Each secret word has a character that neither marker has. */
  lemma SecretWordsStandOut(word: string) returns (c: char)
    requires IsSecretWord(word)
    ensures c in word && c in ":bx_="
  {
    c := if word == "authorization:" then ':' else if word == "bearer " then 'b' else if word == "xai-" then 'x'
         else if word == "api_key" then '_' else '=';
  }

  lemma MarkersLack(c: char)
    requires c in ":bx_="
    ensures forall i :: 0 <= i < |REDACTED| ==> Lower(REDACTED[i]) != c
    ensures forall i :: 0 <= i < |OVERSIZE| ==> Lower(OVERSIZE[i]) != c
  {
  }

  lemma MarkersHoldNoSecretWord(word: string)
    requires IsSecretWord(word)
    ensures !Holds(REDACTED, word) && !Holds(OVERSIZE, word)
  {
    hide Holds;
    var c := SecretWordsStandOut(word);
    MarkersLack(c);
    LacksCharacter(REDACTED, word, c);
    LacksCharacter(OVERSIZE, word, c);
  }

  lemma LacksCharacter(text: string, word: string, c: char)
    requires c in word && forall i :: 0 <= i < |text| ==> Lower(text[i]) != c
    ensures !Holds(text, word)
  {
    forall i | 0 <= i <= |text|
      ensures !WordAt(ToLower(text), word, i)
    {
      var k :| 0 <= k < |word| && word[k] == c;
      if i + |word| <= |text| {
        assert ToLower(text)[i..i + |word|][k] == Lower(text[i + k]);
      }
    }
  }

  /** A shown line holds a secret word exactly if the line itself holds none and control characters break one in it. */
  lemma ShownLineHoldsWordIff(line: string, word: string)
    requires IsSecretWord(word)
    ensures Holds(Sanitize(line), word) <==> !HoldsSecretWord(line) && Spells(line, word)
  {
    hide Holds;
    hide Spells;
    hide WithoutControls;
    SensitiveIffSecretWord(line);
    MarkersHoldNoSecretWord(word);
    DroppedHoldsIffSpells(line, word);
  }

  /** What is shown of a line, in terms of the line. */
  ghost predicate ShownSafely(limit: nat, lossy: Lossy, line: seq<Byte>, shown: string) {
    && IsPrintable(shown)
    && (|line| > limit ==> shown == "[oversize diagnostic discarded]\n")
    && (|line| <= limit && HoldsSecretWord(lossy(line)) ==> shown == "[redacted sensitive diagnostic]\n")
    && (|line| <= limit && !HoldsSecretWord(lossy(line)) && IsPrintable(lossy(line)) ==> shown == lossy(line) + "\n")
  }

  lemma DiagnosticIsSafe(limit: nat, lossy: Lossy, line: seq<Byte>)
    ensures ShownSafely(limit, lossy, line, Diagnostic(limit, lossy, line))
  {
    hide HoldsSecretWord;
    hide IsSensitive;
    SensitiveIffSecretWord(lossy(line));
    DroppingIsPrintable(lossy(line));
    hide WithoutControls;
    MarkersArePrintable();
    PrintableLine(Sanitize(lossy(line)));
    hide IsPrintable;
  }

  lemma MarkersArePrintable()
    ensures IsPrintable(REDACTED) && IsPrintable(OVERSIZE)
  {
  }

  lemma PrintableLine(text: string)
    ensures IsPrintable(text) ==> IsPrintable(text + "\n")
  {
  }

  /**
   For every stream and every line of it: a line over the limit is only mentioned, one with a
   secret word is only mentioned, and any other is shown without its control characters,
   hence unchanged if it has none.
   */
  lemma LinesAreShownSafely(limit: nat, lossy: Lossy, bytes: seq<Byte>, k: nat)
    requires k < |AllLines(bytes)|
    ensures |Written(limit, lossy, bytes)| == |AllLines(bytes)|
    ensures ShownSafely(limit, lossy, AllLines(bytes)[k], Written(limit, lossy, bytes)[k])
  {
    hide ShownSafely;
    hide AllLines;
    hide Diagnostic;
    DiagnosticIsSafe(limit, lossy, AllLines(bytes)[k]);
  }

  // What the kept text is made of

  lemma {:induction false} CollectIsPrintable(limit: nat, pieces: seq<string>)
    requires forall k :: 0 <= k < |pieces| ==> IsPrintable(pieces[k])
    ensures IsPrintable(Collect(limit, pieces).text)
  {
    if pieces != [] {
      var front, last := pieces[..|pieces| - 1], pieces[|pieces| - 1];
      CollectIsPrintable(limit, front);
      var room := limit - ByteLength(Collect(limit, front).text);
      if room >= 0 {
        FittingFits(last, room);
      }
      assert IsPrintable(last);
    }
  }

  /** No control character but newline, return and tab survives, whatever the stream. */
  lemma KeptTextIsPrintable(limit: nat, lossy: Lossy, bytes: seq<Byte>)
    ensures IsPrintable(Finish(PushAll(EMPTY, limit, lossy, bytes), limit, lossy).text)
  {
    hide IsPrintable;
    hide Finish;
    hide PushAll;
    FinishedTextIsCollected(limit, lossy, bytes);
    var pieces := Written(limit, lossy, bytes);
    forall k | 0 <= k < |pieces|
      ensures IsPrintable(pieces[k])
    {
      LinesAreShownSafely(limit, lossy, bytes, k);
    }
    CollectIsPrintable(limit, pieces);
  }

  ghost predicate EndsLine(piece: string) {
    piece != "" && piece[|piece| - 1] == '\n'
  }

  /** A word without line breaks that is found in several lines together is found in one of them. */
  lemma {:induction false} WordsStayInLines(pieces: seq<string>, word: string)
    requires word != "" && '\n' !in word && forall k :: 0 <= k < |pieces| ==> EndsLine(pieces[k])
    ensures Holds(Concat(pieces), word) ==> exists k :: 0 <= k < |pieces| && Holds(pieces[k], word)
    ensures pieces != [] ==> EndsLine(Concat(pieces))
  {
    if pieces != [] {
      var front, last := pieces[..|pieces| - 1], pieces[|pieces| - 1];
      WordsStayInLines(front, word);
      if Holds(Concat(pieces), word) {
        WordInOneOf(Concat(front), last, word);
      }
    }
  }

  lemma CharactersOfWord(text: string, word: string, i: nat, at: nat)
    requires WordAt(ToLower(text), word, i) && at < |text|
    ensures i <= at < i + |word| ==> Lower(text[at]) in word
  {
    if i <= at < i + |word| {
      assert ToLower(text)[i..i + |word|][at - i] == Lower(text[at]);
    }
  }

  lemma WordInOneOf(a: string, b: string, word: string)
    requires word != "" && '\n' !in word && (a == "" || EndsLine(a)) && Holds(a + b, word)
    ensures Holds(a, word) || Holds(b, word)
  {
    hide Holds;
    var i := HeldWordStands(a + b, word);
    if a != "" {
      CharactersOfWord(a + b, word, i, |a| - 1);
    }
    hide ToLower;
    if i < |a| {
      assert (a + b)[i..i + |word|] == a[i..i + |word|];
      WordIsHeld(a, word, i);
    } else {
      var at := i - |a|;
      RightSlice(a, b, i, i + |word|);
      WordIsHeld(b, word, at);
    }
  }

  lemma PrefixHoldsLess(prefix: string, text: string, word: string)
    requires prefix <= text && Holds(prefix, word)
    ensures Holds(text, word)
  {
    hide Holds;
    var i := HeldWordStands(prefix, word);
    assert prefix[i..i + |word|] == text[i..i + |word|];
    WordIsHeld(text, word, i);
  }

  /** No line of the stream has this word broken by control characters without holding another one. */
  ghost predicate NoneBroken(limit: nat, lossy: Lossy, bytes: seq<Byte>, word: string) {
    forall k :: 0 <= k < |AllLines(bytes)| && |AllLines(bytes)[k]| <= limit ==>
      HoldsSecretWord(lossy(AllLines(bytes)[k])) || !Spells(lossy(AllLines(bytes)[k]), word)
  }

  /**
   For every stream, every limit and every secret word: unless control characters break it
   somewhere or diagnostics are spliced, the word is nowhere in the kept text.
   */
  lemma KeptTextHoldsNoSecretWord(limit: nat, lossy: Lossy, bytes: seq<Byte>, word: string)
    requires IsSecretWord(word) && NoneBroken(limit, lossy, bytes, word) && !Spliced(limit, Written(limit, lossy, bytes))
    ensures !Holds(Finish(PushAll(EMPTY, limit, lossy, bytes), limit, lossy).text, word)
  {
    hide Finish;
    hide PushAll;
    hide Holds;
    hide Spells;
    hide HoldsSecretWord;
    hide AllLines;
    hide Spliced;
    hide Sanitize;
    KeepsLongestPrefixIff(limit, lossy, bytes);
    var pieces := Written(limit, lossy, bytes);
    forall k | 0 <= k < |pieces|
      ensures EndsLine(pieces[k]) && !Holds(pieces[k], word)
    {
      ShownPieceHoldsNoWord(limit, lossy, AllLines(bytes)[k], word);
    }
    WordsStayInLines(pieces, word);
    FittingFits(Concat(pieces), limit);
    if Holds(Fitting(Concat(pieces), limit), word) {
      PrefixHoldsLess(Fitting(Concat(pieces), limit), Concat(pieces), word);
      assert false;
    }
  }

  lemma ShownPieceHoldsNoWord(limit: nat, lossy: Lossy, line: seq<Byte>, word: string)
    requires IsSecretWord(word) && (|line| <= limit ==> HoldsSecretWord(lossy(line)) || !Spells(lossy(line), word))
    ensures EndsLine(Diagnostic(limit, lossy, line)) && !Holds(Diagnostic(limit, lossy, line), word)
  {
    hide HoldsSecretWord;
    hide Spells;
    hide Sanitize;
    MarkersHoldNoSecretWord(word);
    ShownLineHoldsWordIff(lossy(line), word);
    hide Holds;
    if |line| <= limit {
      NewlineAddsNoWord(Sanitize(lossy(line)), word);
    }
  }

  lemma NewlineAddsNoWord(text: string, word: string)
    requires word != "" && '\n' !in word
    ensures Holds(text + "\n", word) ==> Holds(text, word)
  {
    hide Holds;
    if Holds(text + "\n", word) {
      var i := HeldWordStands(text + "\n", word);
      CharactersOfWord(text + "\n", word, i, |text|);
      assert (text + "\n")[i..i + |word|] == text[i..i + |word|];
      WordIsHeld(text, word, i);
    }
  }

  lemma BrokenWordIsNotSeen(line: string, word: string)
    requires line == "to\U{0001}ken=" && IsSecretWord(word)
    ensures !Holds(line, word)
  {
    if word == "token=" {
      forall i | 0 <= i <= |line|
        ensures !WordAt(ToLower(line), word, i)
      {
        if WordAt(ToLower(line), word, i) {
          CharactersOfWord(line, word, i, 2);
          assert false;
        }
      }
    } else {
      var c := SecretWordsStandOut(word);
      LacksCharacter(line, word, if c == '=' then ':' else c);
    }
  }

  lemma ControlIsDropped(c: char)
    ensures !IsKept(c) ==> WithoutControls([c]) == ""
  {
  }

  lemma BrokenWordIsJoined(line: string)
    requires line == "to\U{0001}ken="
    ensures WithoutControls(line) == "token="
  {
    hide WithoutControls;
    ControlIsDropped('\U{0001}');
    DroppingIsPrintable("to");
    DroppingIsPrintable("ken=");
    DroppingConcat("\U{0001}", "ken=");
    DroppingConcat("to", "\U{0001}ken=");
    assert line == "to" + "\U{0001}ken=" && "\U{0001}ken=" == "\U{0001}" + "ken=";
    assert "token=" == "to" + "ken=";
  }

  /** The comparison does not see this word, and the shown line holds it. */
  lemma ControlCharactersHideAWord(line: string)
    requires line == "to\U{0001}ken="
    ensures !HoldsSecretWord(line) && Sanitize(line) == "token=" && Holds(Sanitize(line), "token=")
  {
    hide WithoutControls;
    hide IsSensitive;
    forall word | IsSecretWord(word)
      ensures !Holds(line, word)
    {
      BrokenWordIsNotSeen(line, word);
    }
    SensitiveIffSecretWord(line);
    BrokenWordIsJoined(line);
    assert ToLower("token=") == "token=";
    assert WordAt("token=", "token=", 0);
  }

  // Whether something was lost

  lemma {:induction false} CollectTruncatesIff(limit: nat, pieces: seq<string>)
    requires forall k :: 0 <= k < |pieces| ==> pieces[k] != ""
    ensures Collect(limit, pieces).truncated <==> ByteLength(Concat(pieces)) > limit
    ensures ByteLength(Concat(pieces)) <= limit ==> Collect(limit, pieces).text == Concat(pieces)
  {
    if pieces != [] {
      var front, last := pieces[..|pieces| - 1], pieces[|pieces| - 1];
      CollectTruncatesIff(limit, front);
      ByteLengthConcat(Concat(front), last);
    }
  }

  /** The buffer says that it is truncated exactly if a line was too long or not all diagnostics fit; else it keeps them all. */
  lemma TruncatedIff(limit: nat, lossy: Lossy, bytes: seq<Byte>)
    ensures
      var finished := Finish(PushAll(EMPTY, limit, lossy, bytes), limit, lossy);
      && (finished.truncated <==>
            || (exists k :: 0 <= k < |AllLines(bytes)| && |AllLines(bytes)[k]| > limit)
            || ByteLength(Concat(Written(limit, lossy, bytes))) > limit)
      && (!finished.truncated ==> finished.text == Concat(Written(limit, lossy, bytes)))
  {
    hide Extended;
    hide Overflows;
    hide Sanitize;
    hide Concat;
    hide ByteLength;
    PushComputesPrediction(limit, lossy, bytes);
    FinishedTextIsCollected(limit, lossy, bytes);
    var split := Lines(bytes);
    CollectSnoc(limit, lossy, split.lines, split.rest);
    CollectTruncatesIff(limit, Written(limit, lossy, bytes));
  }
}
