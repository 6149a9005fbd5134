/** Text helpers shared by the models: UTF-8 widths, ASCII case, splitting and joining. */
module Text {
  /** Bytes of one Unicode scalar value in UTF-8. */
  function Width(c: char): (w: nat)
    ensures 1 <= w <= 4
  {
    if c < '\U{0080}' then 1
    else if c < '\U{0800}' then 2
    else if c < '\U{10000}' then 3
    else 4
  }

  function ByteLength(text: string): nat {
    if text == "" then 0 else Width(text[0]) + ByteLength(text[1..])
  }

  lemma {:induction false} ByteLengthConcat(a: string, b: string)
    ensures ByteLength(a + b) == ByteLength(a) + ByteLength(b)
  {
    if a == "" {
      assert a + b == b;
    } else {
      assert (a + b)[1..] == a[1..] + b;
      ByteLengthConcat(a[1..], b);
    }
  }

  /** The control characters, U+0000 to U+001F and U+007F to U+009F. */
  predicate Control(c: char) {
    c <= '\U{001f}' || '\U{007f}' <= c <= '\U{009f}'
  }

  function Lower(c: char): char {
    if 'A' <= c <= 'Z' then c - 'A' + 'a' else c
  }

  function ToLower(text: string): (lower: string)
    ensures |lower| == |text|
  {
    seq(|text|, i requires 0 <= i < |text| => Lower(text[i]))
  }

  function Upper(c: char): char {
    if 'a' <= c <= 'z' then c - 'a' + 'A' else c
  }

  function ToUpper(text: string): string {
    seq(|text|, i requires 0 <= i < |text| => Upper(text[i]))
  }

  predicate EqualFold(a: string, b: string) {
    ToLower(a) == ToLower(b)
  }

  /** Index of the first `c`, or the length of the text. */
  function FirstIndex(text: string, c: char): (i: nat)
    ensures i <= |text|
    ensures forall k :: 0 <= k < i ==> text[k] != c
    ensures i < |text| ==> text[i] == c
  {
    if text == "" || text[0] == c then 0 else 1 + FirstIndex(text[1..], c)
  }

  /** The parts between separators; always at least one. */
  function Split(text: string, separator: char): (parts: seq<string>)
    ensures |parts| > 0
    ensures forall i :: 0 <= i < |parts| ==> separator !in parts[i]
    decreases |text|
  {
    var i := FirstIndex(text, separator);
    if i == |text| then [text] else [text[..i]] + Split(text[i + 1..], separator)
  }

  function Join(parts: seq<string>, separator: char): string {
    if |parts| == 0 then ""
    else if |parts| == 1 then parts[0]
    else parts[0] + [separator] + Join(parts[1..], separator)
  }

  lemma {:induction false} JoinSplit(text: string, separator: char)
    ensures Join(Split(text, separator), separator) == text
    decreases |text|
  {
    hide Split;
    hide Join;
    var i := FirstIndex(text, separator);
    SplitCons(text, separator);
    if i == |text| {
      JoinOne(text, separator);
    } else {
      var head, tail := text[..i], text[i + 1..];
      JoinSplit(tail, separator);
      JoinCons(head, Split(tail, separator), separator);
      assert text == head + [separator] + tail;
    }
  }

  lemma SplitCons(text: string, separator: char)
    ensures
      var i := FirstIndex(text, separator);
      Split(text, separator) == if i == |text| then [text] else [text[..i]] + Split(text[i + 1..], separator)
  {
    hide FirstIndex;
  }

  lemma JoinOne(text: string, separator: char)
    ensures Join([text], separator) == text
  {
  }

  lemma JoinCons(head: string, parts: seq<string>, separator: char)
    requires |parts| > 0
    ensures Join([head] + parts, separator) == head + [separator] + Join(parts, separator)
  {
    assert ([head] + parts)[1..] == parts;
  }
}
