/**
 The lexical rules of the Windows VM service for identifiers and relative paths.
 An accepted path is canonical already, stays below its root, and is accepted
 again unchanged: the reason stored workspace paths survive a reload.
 */
module PathRules {
  import opened Wrappers
  import opened Text

  const MAX_PATH_BYTES: nat := 1024
  const MAX_SEGMENT_RUNES: nat := 240

  /** Error classes of the service's contract. */
  datatype ServiceError = InvalidArgument | NotFound | Conflict | PermissionDenied | Unavailable

  const ReservedNames: set<string> := {
    "CON", "PRN", "AUX", "NUL",
    "COM1", "COM2", "COM3", "COM4", "COM5", "COM6", "COM7", "COM8", "COM9",
    "LPT1", "LPT2", "LPT3", "LPT4", "LPT5", "LPT6", "LPT7", "LPT8", "LPT9"
  }

  /** `^[a-z][a-z0-9.-]{0,62}$` */
  predicate ValidId(value: string) {
    && 1 <= |value| <= 63
    && 'a' <= value[0] <= 'z'
    && forall i :: 0 <= i < |value| ==>
         'a' <= value[i] <= 'z' || '0' <= value[i] <= '9' || value[i] == '.' || value[i] == '-'
  }

  function PortableChar(c: char): char {
    if c == '\\' then '/' else c
  }

  /** Every backslash becomes a slash. */
  function Portable(value: string): string {
    seq(|value|, i requires 0 <= i < |value| => PortableChar(value[i]))
  }

  /** `^[a-zA-Z]:` */
  predicate HasVolume(path: string) {
    |path| >= 2 && path[1] == ':' && 'a' <= Lower(path[0]) <= 'z'
  }

  predicate AcceptableSegment(segment: string) {
    && segment != "" && segment != "." && segment != ".."
    && ':' !in segment && '\0' !in segment
    && |segment| <= MAX_SEGMENT_RUNES
    && segment[|segment| - 1] != ' ' && segment[|segment| - 1] != '.'
    && ToUpper(segment[..FirstIndex(segment, '.')]) !in ReservedNames
  }

  /** The paths the service accepts, without reference to how it cleans them. */
  predicate Acceptable(value: string) {
    && value != ""
    && ByteLength(value) <= MAX_PATH_BYTES
    && Portable(value)[0] != '/'
    && forall i :: 0 <= i < |Split(Portable(value), '/')| ==> AcceptableSegment(Split(Portable(value), '/')[i])
  }

  /** Lexical cleaning of segments: drop empty and `.` ones, let `..` cancel its parent. */
  function CleanSegments(segments: seq<string>, rooted: bool, out: seq<string>): seq<string>
    decreases |segments|
  {
    if segments == [] then out
    else
      var next :=
        if segments[0] == "" || segments[0] == "." then out
        else if segments[0] != ".." then out + [segments[0]]
        else if |out| > 0 && out[|out| - 1] != ".." then out[..|out| - 1]
        else if rooted then out
        else out + [".."];
      CleanSegments(segments[1..], rooted, next)
  }

  /** The shortest lexically equivalent path, as the Go library computes it. */
  function Clean(path: string): string {
    var rooted := path != "" && path[0] == '/';
    var segments := CleanSegments(Split(path, '/'), rooted, []);
    if rooted then "/" + Join(segments, '/')
    else if segments == [] then "."
    else Join(segments, '/')
  }

  /** Nothing to drop, and parents only where they cannot cancel anything: at the start of a relative path. */
  ghost predicate IsNormal(segments: seq<string>, rooted: bool) {
    && (forall i :: 0 <= i < |segments| ==> segments[i] != "" && segments[i] != ".")
    && (forall i :: 0 <= i < |segments| && segments[i] == ".." ==>
          !rooted && forall j :: 0 <= j < i ==> segments[j] == "..")
  }

  /** Whatever is cleaned comes out normal, */
  lemma {:induction false} CleanIsNormal(segments: seq<string>, rooted: bool, out: seq<string>)
    requires IsNormal(out, rooted)
    ensures IsNormal(CleanSegments(segments, rooted, out), rooted)
    decreases |segments|
  {
    if segments != [] {
      var next :=
        if segments[0] == "" || segments[0] == "." then out
        else if segments[0] != ".." then out + [segments[0]]
        else if |out| > 0 && out[|out| - 1] != ".." then out[..|out| - 1]
        else if rooted then out
        else out + [".."];
      CleanIsNormal(segments[1..], rooted, next);
    }
  }

  /** and what is normal stays as it is. */
  lemma {:induction false} NormalStaysClean(segments: seq<string>, rooted: bool, out: seq<string>)
    requires IsNormal(out + segments, rooted)
    ensures CleanSegments(segments, rooted, out) == out + segments
    decreases |segments|
  {
    if segments == [] {
      assert out + segments == out;
    } else {
      assert (out + segments)[|out|] == segments[0];
      assert |out| > 0 ==> (out + segments)[|out| - 1] == out[|out| - 1];
      assert out + [segments[0]] + segments[1..] == out + segments;
      NormalStaysClean(segments[1..], rooted, out + [segments[0]]);
    }
  }

  lemma {:induction false} CleanKeepsPlainSegments(segments: seq<string>, rooted: bool, out: seq<string>)
    requires forall i :: 0 <= i < |segments| ==> segments[i] !in {"", ".", ".."}
    ensures CleanSegments(segments, rooted, out) == out + segments
    decreases |segments|
  {
    if segments == [] {
      assert out + segments == out;
    } else {
      CleanKeepsPlainSegments(segments[1..], rooted, out + [segments[0]]);
      assert out + [segments[0]] + segments[1..] == out + segments;
    }
  }

  lemma CleanIsIdentityOnAcceptable(value: string)
    requires Acceptable(value)
    ensures Clean(Portable(value)) == Portable(value)
  {
    var portable := Portable(value);
    var segments := Split(portable, '/');
    CleanKeepsPlainSegments(segments, false, []);
    assert [] + segments == segments;
    JoinSplit(portable, '/');
  }

  lemma {:induction false} PortableKeepsByteLength(value: string)
    ensures ByteLength(Portable(value)) == ByteLength(value)
  {
    if value != "" {
      assert Portable(value)[1..] == Portable(value[1..]);
      PortableKeepsByteLength(value[1..]);
    }
  }

  /** What was accepted once, in the form in which it is stored, is accepted again unchanged. */
  lemma StoredPathIsAcceptedAgain(value: string)
    requires Acceptable(value)
    ensures Acceptable(Portable(value)) && Clean(Portable(Portable(value))) == Portable(value)
  {
    assert Portable(Portable(value)) == Portable(value);
    PortableKeepsByteLength(value);
    CleanIsIdentityOnAcceptable(Portable(value));
  }

  predicate EscapesRoot(relative: string) {
    relative == ".." || (|relative| >= 3 && relative[..3] == "../")
  }

  lemma EscapingStartsWithParent(path: string)
    requires EscapesRoot(path)
    ensures Split(path, '/')[0] == ".."
  {
    if path != ".." {
      assert path[..3][0] == '.' && path[..3][1] == '.' && path[..3][2] == '/';
    }
    assert FirstIndex(path, '/') == 2;
    assert path[..2] == "..";
  }

  lemma AcceptableNeverEscapes(value: string)
    requires Acceptable(value)
    ensures !EscapesRoot(Portable(value))
  {
    if EscapesRoot(Portable(value)) {
      EscapingStartsWithParent(Portable(value));
    }
  }

  /** A drive letter is part of the first segment, with its colon. */
  lemma VolumeIsNotAcceptable(value: string)
    requires HasVolume(Portable(value))
    ensures !Acceptable(value)
  {
    var portable := Portable(value);
    if portable[0] != '/' {
      var end := FirstIndex(portable, '/');
      assert Split(portable, '/')[0] == portable[..end];
      assert end >= 2 && portable[..end][1] == ':';
    }
  }

  /**
   The service's path check. It succeeds exactly on the acceptable paths, and then
   cleaning has changed nothing but the separators.
   */
  method ResolveRelativePath(value: string) returns (result: Result<string, ServiceError>)
    ensures result.Ok? <==> Acceptable(value)
    ensures result.Ok? ==> result.value == Portable(value)
    ensures result.Err? ==> result.error.InvalidArgument?
  {
    if value == "" || ByteLength(value) > MAX_PATH_BYTES {
      return Err(InvalidArgument);
    }
    var portable := Portable(value);
    if portable[0] == '/' || HasVolume(portable) {
      if HasVolume(portable) {
        VolumeIsNotAcceptable(value);
      }
      return Err(InvalidArgument);
    }
    var segments := Split(portable, '/');
    var i := 0;
    while i < |segments|
      invariant 0 <= i <= |segments|
      invariant forall k :: 0 <= k < i ==> AcceptableSegment(segments[k])
    {
      var segment := segments[i];
      if segment == "" || segment == "." || segment == ".." {
        return Err(InvalidArgument);
      }
      if ':' in segment || '\0' in segment {
        return Err(InvalidArgument);
      }
      if |segment| > MAX_SEGMENT_RUNES {
        return Err(InvalidArgument);
      }
      if segment[|segment| - 1] == ' ' || segment[|segment| - 1] == '.' {
        return Err(InvalidArgument);
      }
      if ToUpper(segment[..FirstIndex(segment, '.')]) in ReservedNames {
        return Err(InvalidArgument);
      }
      i := i + 1;
    }
    var clean := Clean(portable);
    CleanIsIdentityOnAcceptable(value);
    AcceptableNeverEscapes(value);
    if EscapesRoot(clean) {
      return Err(PermissionDenied);
    }
    return Ok(clean);
  }
}
