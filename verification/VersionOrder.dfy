/**
 Version precedence in the update verifier. A version is what the version pattern
 captures. Precedence is stated on exact numbers; the verifier compares what its numbers
 round to as binary64 values, of which only this matters: rounding is monotone, and exact
 up to 2^53. Numbers too large for any finite value all round to one greatest value.
 */
module VersionOrder {
  import opened Wrappers
  import opened Orders

  datatype Version = Version(major: nat, minor: nat, patch: nat, prerelease: Option<seq<string>>)

  predicate IsDigit(c: char) {
    '0' <= c <= '9'
  }

  predicate Numeric(identifier: string) {
    identifier != "" && forall i :: 0 <= i < |identifier| ==> IsDigit(identifier[i])
  }

  function Digit(c: char): nat
    requires IsDigit(c)
  {
    c as nat - '0' as nat
  }

  function Number(digits: string): nat
    requires forall i :: 0 <= i < |digits| ==> IsDigit(digits[i])
  {
    if digits == "" then 0
    else Number(digits[..|digits| - 1]) * 10 + Digit(digits[|digits| - 1])
  }

  const MAX_EXACT: nat := 0x20_0000_0000_0000 // 2^53

  ghost predicate Rounding(round: nat -> nat) {
    && (forall m: nat, n: nat :: m <= n ==> round(m) <= round(n))
    && (forall n: nat :: n <= MAX_EXACT ==> round(n) == n)
  }

  function Exact(): nat -> nat {
    (n: nat) => n
  }

  // Section 11 of Semantic Versioning 2.0.0, with numbers compared by what they round to

  predicate CharLess(a: char, b: char) {
    a < b
  }

  predicate NatLess(a: nat, b: nat) {
    a < b
  }

  ghost predicate IdentifierLess(round: nat -> nat, a: string, b: string) {
    if Numeric(a) && Numeric(b) then round(Number(a)) < round(Number(b))
    else if Numeric(a) || Numeric(b) then Numeric(a)
    else Lex(CharLess, a, b)
  }

  ghost function Less(round: nat -> nat): (string, string) -> bool {
    (a, b) => IdentifierLess(round, a, b)
  }

  function Core(round: nat -> nat, v: Version): seq<nat> {
    [round(v.major), round(v.minor), round(v.patch)]
  }

  ghost predicate PrereleaseLess(round: nat -> nat, a: Option<seq<string>>, b: Option<seq<string>>) {
    a.Some? && (b.None? || Lex(Less(round), a.value, b.value))
  }

  ghost predicate PrecedesBy(round: nat -> nat, a: Version, b: Version) {
    || Lex(NatLess, Core(round, a), Core(round, b))
    || (Core(round, a) == Core(round, b) && PrereleaseLess(round, a.prerelease, b.prerelease))
  }

  /** Precedence proper. */
  ghost predicate Precedes(a: Version, b: Version) {
    PrecedesBy(Exact(), a, b)
  }

  /** Section 9: no leading zeros in numeric identifiers. */
  predicate WellFormed(identifier: string) {
    Numeric(identifier) ==> identifier == "0" || identifier[0] != '0'
  }

  predicate SemVer(v: Version) {
    v.prerelease.Some? ==> forall x :: x in v.prerelease.value ==> WellFormed(x)
  }

  /** Every number of the version is exact as a binary64 value. */
  predicate Representable(v: Version) {
    && v.major <= MAX_EXACT && v.minor <= MAX_EXACT && v.patch <= MAX_EXACT
    && (v.prerelease.Some? ==> forall x :: x in v.prerelease.value && Numeric(x) ==> Number(x) <= MAX_EXACT)
  }

  /** The first differing identifiers are numbers that round to one value. */
  predicate TiedIdentifiers(round: nat -> nat, p: seq<string>, q: seq<string>) {
    var i := Parting(p, q);
    i < |p| && i < |q| && Numeric(p[i]) && Numeric(q[i]) && round(Number(p[i])) == round(Number(q[i]))
  }

  /** What the comparison cannot tell apart. */
  predicate Alike(round: nat -> nat, a: Version, b: Version) {
    && Core(round, a) == Core(round, b)
    && (a.prerelease == b.prerelease
        || (a.prerelease.Some? && b.prerelease.Some? && TiedIdentifiers(round, a.prerelease.value, b.prerelease.value)))
  }

  // Numbers

  lemma {:induction false} NumberIsPositive(digits: string)
    requires Numeric(digits) && digits[0] != '0'
    ensures Number(digits) > 0
  {
    if |digits| > 1 {
      NumberIsPositive(digits[..|digits| - 1]);
    }
  }

  lemma {:induction false} NumberIsInjective(a: string, b: string)
    requires Numeric(a) && Numeric(b) && WellFormed(a) && WellFormed(b) && Number(a) == Number(b)
    ensures a == b
    decreases |a| + |b|
  {
    var m, n := |a| - 1, |b| - 1;
    assert a == a[..m] + [a[m]] && b == b[..n] + [b[n]];
    if m == 0 && n == 0 {
      assert a[..m] == "" && b[..n] == "";
    } else if m == 0 {
      assert a[..m] == "";
      NumberIsPositive(b[..n]);
    } else if n == 0 {
      assert b[..n] == "";
      NumberIsPositive(a[..m]);
    } else {
      NumberIsInjective(a[..m], b[..n]);
    }
  }

  // The order

  lemma CharsAreOrdered()
    ensures Strict((a: string, b: string) => Lex(CharLess, a, b))
    ensures forall a: string, b: string :: a != b ==> Lex(CharLess, a, b) || Lex(CharLess, b, a)
  {
    assert Strict(CharLess);
    LexIsStrict(CharLess);
    var any := (c: char) => true;
    assert Total(CharLess, any);
    forall a: string, b: string | a != b
      ensures Lex(CharLess, a, b) || Lex(CharLess, b, a)
    {
      LexIsTotal(CharLess, any, a, b);
    }
  }

  lemma IdentifiersAreStrict(round: nat -> nat)
    ensures Strict(Less(round))
  {
    CharsAreOrdered();
    var less := (a: string, b: string) => Lex(CharLess, a, b);
    assert Strict(less);
    forall a
      ensures !IdentifierLess(round, a, a)
    {
      assert !less(a, a);
    }
    forall a, b, c | IdentifierLess(round, a, b) && IdentifierLess(round, b, c)
      ensures IdentifierLess(round, a, c)
    {
      assert less(a, b) && less(b, c) ==> less(a, c);
    }
  }

  /** What the verifier compares by is irreflexive and transitive on every version, however its numbers round. */
  lemma PrecedesIsStrict(round: nat -> nat)
    ensures Strict((a: Version, b: Version) => PrecedesBy(round, a, b))
  {
    IdentifiersAreStrict(round);
    LexIsStrict(Less(round));
    assert Strict(NatLess);
    LexIsStrict(NatLess);
    var coreLess := (a: seq<nat>, b: seq<nat>) => Lex(NatLess, a, b);
    var preLess := (a: seq<string>, b: seq<string>) => Lex(Less(round), a, b);
    forall a
      ensures !PrecedesBy(round, a, a)
    {
      assert !coreLess(Core(round, a), Core(round, a));
      assert a.prerelease.Some? ==> !preLess(a.prerelease.value, a.prerelease.value);
    }
    forall a, b, c | PrecedesBy(round, a, b) && PrecedesBy(round, b, c)
      ensures PrecedesBy(round, a, c)
    {
      var x, y, z := Core(round, a), Core(round, b), Core(round, c);
      assert coreLess(x, y) && coreLess(y, z) ==> coreLess(x, z);
      if a.prerelease.Some? && b.prerelease.Some? && c.prerelease.Some? {
        var p, q, r := a.prerelease.value, b.prerelease.value, c.prerelease.value;
        assert preLess(p, q) && preLess(q, r) ==> preLess(p, r);
      }
    }
  }

  lemma LexIffAtParting(round: nat -> nat, p: seq<string>, q: seq<string>)
    ensures Lex(Less(round), p, q) <==> LexAt(Less(round), p, q, Parting(p, q))
  {
    IdentifiersAreStrict(round);
    if Lex(Less(round), p, q) {
      var i :| LexAt(Less(round), p, q, i);
      LexOnlyAtParting(Less(round), p, q, i);
    }
  }

  lemma CoreLexAtParting(a: seq<nat>, b: seq<nat>)
    ensures Lex(NatLess, a, b) <==> LexAt(NatLess, a, b, Parting(a, b))
  {
    assert Strict(NatLess);
    if Lex(NatLess, a, b) {
      var i :| LexAt(NatLess, a, b, i);
      LexOnlyAtParting(NatLess, a, b, i);
    }
  }

  lemma CoresUnordered(a: seq<nat>, b: seq<nat>)
    requires |a| == |b|
    ensures !Lex(NatLess, a, b) && !Lex(NatLess, b, a) <==> a == b
  {
    CoreLexAtParting(a, b);
    CoreLexAtParting(b, a);
    PartingIsSymmetric(a, b);
    assert a[..|a|] == a && b[..|b|] == b;
  }

  lemma PrereleasesUnordered(round: nat -> nat, p: seq<string>, q: seq<string>)
    ensures !Lex(Less(round), p, q) && !Lex(Less(round), q, p) <==> p == q || TiedIdentifiers(round, p, q)
  {
    var i := Parting(p, q);
    CharsAreOrdered();
    LexIffAtParting(round, p, q);
    LexIffAtParting(round, q, p);
    PartingIsSymmetric(p, q);
    assert p[..|p|] == p && q[..|q|] == q;
  }

  /** The comparison leaves two versions unordered exactly if they are alike. */
  lemma UnorderedIffAlike(round: nat -> nat, a: Version, b: Version)
    ensures !PrecedesBy(round, a, b) && !PrecedesBy(round, b, a) <==> Alike(round, a, b)
  {
    CoresUnordered(Core(round, a), Core(round, b));
    CoresUnordered(Core(round, a), Core(round, a));
    if a.prerelease.Some? && b.prerelease.Some? {
      PrereleasesUnordered(round, a.prerelease.value, b.prerelease.value);
    }
  }

  // Rounding

  /** The two comparisons give one answer. */
  ghost predicate SameOrder(round: nat -> nat, a: Version, b: Version) {
    (PrecedesBy(round, a, b) <==> Precedes(a, b)) && (PrecedesBy(round, b, a) <==> Precedes(b, a))
  }

  /** Two numbers that differ and round to one value. */
  predicate Merged(round: nat -> nat, m: nat, n: nat) {
    m != n && round(m) == round(n)
  }

  /** Some number that could decide the comparison is rounded away. */
  predicate RoundsTogether(round: nat -> nat, a: Version, b: Version) {
    || Merged(round, a.major, b.major) || Merged(round, a.minor, b.minor) || Merged(round, a.patch, b.patch)
    || (a.prerelease.Some? && b.prerelease.Some? && IdentifiersMerged(round, a.prerelease.value, b.prerelease.value))
  }

  predicate IdentifiersMerged(round: nat -> nat, p: seq<string>, q: seq<string>) {
    var i := Parting(p, q);
    i < |p| && i < |q| && Numeric(p[i]) && Numeric(q[i]) && Merged(round, Number(p[i]), Number(q[i]))
  }

  lemma IdentifiersAgreeIff(round: nat -> nat, p: seq<string>, q: seq<string>)
    requires Rounding(round)
    ensures (Lex(Less(round), p, q) <==> Lex(Less(Exact()), p, q)) && (Lex(Less(round), q, p) <==> Lex(Less(Exact()), q, p))
      <==> !IdentifiersMerged(round, p, q)
  {
    LexIffAtParting(round, p, q);
    LexIffAtParting(round, q, p);
    LexIffAtParting(Exact(), p, q);
    LexIffAtParting(Exact(), q, p);
    PartingIsSymmetric(p, q);
  }

  lemma CoresAgree(round: nat -> nat, a: Version, b: Version)
    requires Rounding(round)
    requires !Merged(round, a.major, b.major) && !Merged(round, a.minor, b.minor) && !Merged(round, a.patch, b.patch)
    ensures Lex(NatLess, Core(round, a), Core(round, b)) <==> Lex(NatLess, Core(Exact(), a), Core(Exact(), b))
    ensures Core(round, a) == Core(round, b) <==> Core(Exact(), a) == Core(Exact(), b)
  {
    CoreLess(Core(round, a), Core(round, b));
    CoreLess(Core(Exact(), a), Core(Exact(), b));
    var x, y := Core(round, a), Core(round, b);
    var u, v := Core(Exact(), a), Core(Exact(), b);
    assert x == y <==> x[0] == y[0] && x[1] == y[1] && x[2] == y[2];
    assert u == v <==> u[0] == v[0] && u[1] == v[1] && u[2] == v[2];
  }

  lemma CoreLess(a: seq<nat>, b: seq<nat>)
    requires |a| == 3 && |b| == 3
    ensures Lex(NatLess, a, b) <==>
      a[0] < b[0] || (a[0] == b[0] && (a[1] < b[1] || (a[1] == b[1] && a[2] < b[2])))
  {
    CoreLexAtParting(a, b);
    var i := Parting(a, b);
    assert forall k :: 0 <= k < i ==> a[..i][k] == b[..i][k];
  }

  /** If nothing is rounded together, the comparison is precedence. */
  lemma RoundingKeepsTheOrder(round: nat -> nat, a: Version, b: Version)
    requires Rounding(round)
    ensures !RoundsTogether(round, a, b) ==> SameOrder(round, a, b)
    ensures Representable(a) && Representable(b) ==> SameOrder(round, a, b)
  {
    if Representable(a) && Representable(b) {
      NothingMerged(round, a, b);
    }
    if !RoundsTogether(round, a, b) {
      CoresAgree(round, a, b);
      CoresAgree(round, b, a);
      if a.prerelease.Some? && b.prerelease.Some? {
        IdentifiersAgreeIff(round, a.prerelease.value, b.prerelease.value);
      }
    }
  }

  lemma NothingMerged(round: nat -> nat, a: Version, b: Version)
    requires Rounding(round) && Representable(a) && Representable(b)
    ensures !RoundsTogether(round, a, b)
  {
    if a.prerelease.Some? && b.prerelease.Some? {
      var p, q := a.prerelease.value, b.prerelease.value;
      var i := Parting(p, q);
      assert i < |p| && i < |q| ==> p[i] in p && q[i] in q;
    }
  }

  /**
   What decides survives rounding. If the cores differ, the first of their numbers that still
   differ once rounded, or else the prereleases, order the versions as the first difference
   does. If they agree, the first differing identifiers are not numbers that round together.
   */
  ghost predicate Decisive(round: nat -> nat, a: Version, b: Version) {
    var x, y := Core(Exact(), a), Core(Exact(), b);
    var i, k := Parting(x, y), Parting(Core(round, a), Core(round, b));
    if i < 3 then
      if k < 3 then x[k] < y[k] <==> x[i] < y[i]
      else
        && (PrereleaseLess(round, a.prerelease, b.prerelease) <==> x[i] < y[i])
        && (PrereleaseLess(round, b.prerelease, a.prerelease) <==> y[i] < x[i])
    else a.prerelease.Some? && b.prerelease.Some? ==> !IdentifiersMerged(round, a.prerelease.value, b.prerelease.value)
  }

  lemma PartingCores(x: seq<nat>, y: seq<nat>)
    requires |x| == 3 && |y| == 3
    ensures
      var i := Parting(x, y);
      && (i == 0 <==> x[0] != y[0])
      && (i == 1 <==> x[0] == y[0] && x[1] != y[1])
      && (i == 2 <==> x[0] == y[0] && x[1] == y[1] && x[2] != y[2])
      && (i == 3 <==> x == y)
  {
    var i := Parting(x, y);
    assert forall k :: 0 <= k < i ==> x[..i][k] == y[..i][k];
    assert x == y <==> x[0] == y[0] && x[1] == y[1] && x[2] == y[2];
  }

  ghost predicate PartsLess(a: nat, b: nat, c: nat, x: nat, y: nat, z: nat, rest: bool) {
    a < x || (a == x && (b < y || (b == y && (c < z || (c == z && rest)))))
  }

  lemma PrecedesByParts(round: nat -> nat, a: Version, b: Version)
    ensures PrecedesBy(round, a, b) <==>
      PartsLess(round(a.major), round(a.minor), round(a.patch), round(b.major), round(b.minor), round(b.patch),
                PrereleaseLess(round, a.prerelease, b.prerelease))
  {
    var x, y := Core(round, a), Core(round, b);
    CoreLess(x, y);
    assert x == y <==> x[0] == y[0] && x[1] == y[1] && x[2] == y[2];
  }

  /** The comparison is precedence exactly if what decides survives rounding. */
  lemma RoundingKeepsTheOrderIff(round: nat -> nat, a: Version, b: Version)
    requires Rounding(round)
    ensures SameOrder(round, a, b) <==> Decisive(round, a, b)
  {
    hide PrecedesBy;
    hide PrereleaseLess;
    PartingCores(Core(Exact(), a), Core(Exact(), b));
    PartingCores(Core(round, a), Core(round, b));
    PrecedesByParts(round, a, b);
    PrecedesByParts(round, b, a);
    PrecedesByParts(Exact(), a, b);
    PrecedesByParts(Exact(), b, a);
    if Parting(Core(Exact(), a), Core(Exact(), b)) == 3 {
      PrereleasesAgreeIff(round, a.prerelease, b.prerelease);
    }
  }

  lemma PrereleasesAgreeIff(round: nat -> nat, a: Option<seq<string>>, b: Option<seq<string>>)
    requires Rounding(round)
    ensures
      && (PrereleaseLess(round, a, b) <==> PrereleaseLess(Exact(), a, b))
      && (PrereleaseLess(round, b, a) <==> PrereleaseLess(Exact(), b, a))
      <==> !(a.Some? && b.Some? && IdentifiersMerged(round, a.value, b.value))
  {
    if a.Some? && b.Some? {
      IdentifiersAgreeIff(round, a.value, b.value);
    }
  }

  /** Without leading zeros, alike versions differ only by numbers that round together. */
  lemma AlikeIsEqual(round: nat -> nat, a: Version, b: Version)
    requires SemVer(a) && SemVer(b) && !RoundsTogether(round, a, b)
    ensures Alike(round, a, b) <==> a == b
  {
    if Alike(round, a, b) {
      var x, y := Core(round, a), Core(round, b);
      assert x[0] == y[0] && x[1] == y[1] && x[2] == y[2];
      if a.prerelease != b.prerelease {
        var p, q := a.prerelease.value, b.prerelease.value;
        var i := Parting(p, q);
        assert p[i] in p && q[i] in q;
        NumberIsInjective(p[i], q[i]);
        assert false;
      }
    }
  }

  /** Precedence is total on Semantic Versioning 2.0.0 versions, and so is the comparison if their numbers are exact. */
  lemma TotalOnSemVer(round: nat -> nat)
    requires Rounding(round)
    ensures Total(Precedes, SemVer)
    ensures Total((a: Version, b: Version) => PrecedesBy(round, a, b), (v: Version) => SemVer(v) && Representable(v))
  {
    forall a, b | SemVer(a) && SemVer(b) && a != b
      ensures Precedes(a, b) || Precedes(b, a)
      ensures Representable(a) && Representable(b) ==> PrecedesBy(round, a, b) || PrecedesBy(round, b, a)
    {
      UnorderedIffAlike(Exact(), a, b);
      AlikeIsEqual(Exact(), a, b);
      if Representable(a) && Representable(b) {
        NothingMerged(round, a, b);
        UnorderedIffAlike(round, a, b);
        AlikeIsEqual(round, a, b);
      }
    }
  }

  /** As 2^53 + 1 rounds to 2^53, the prereleases of these two numbers compare as equal. */
  lemma LargeNumbersCompareAsEqual(round: nat -> nat)
    requires Rounding(round) && round(MAX_EXACT + 1) == MAX_EXACT
    ensures
      var a := Version(1, 0, 0, Some(["9007199254740992"]));
      var b := Version(1, 0, 0, Some(["9007199254740993"]));
      SemVer(a) && SemVer(b) && Precedes(a, b) && Alike(round, a, b)
  {
    var x, y := "9007199254740992", "9007199254740993";
    NumberOf900719925474099();
    assert x[..15] == "900719925474099" && y[..15] == "900719925474099";
    assert Number(x) == MAX_EXACT && Number(y) == MAX_EXACT + 1;
    assert LexAt(Less(Exact()), [x], [y], 0);
  }

  lemma NumberOf900719925474099()
    ensures Number("900719925474099") == 900719925474099
  {
    NumberOf900719925();
    Appended("900719925", '4', "9007199254");
    Appended("9007199254", '7', "90071992547");
    Appended("90071992547", '4', "900719925474");
    Appended("900719925474", '0', "9007199254740");
    Appended("9007199254740", '9', "90071992547409");
    Appended("90071992547409", '9', "900719925474099");
  }

  lemma NumberOf900719925()
    ensures Number("900719925") == 900719925
  {
    assert "9"[..0] == "";
    Appended("9", '0', "90");
    Appended("90", '0', "900");
    Appended("900", '7', "9007");
    Appended("9007", '1', "90071");
    Appended("90071", '9', "900719");
    Appended("900719", '9', "9007199");
    Appended("9007199", '2', "90071992");
    Appended("90071992", '5', "900719925");
  }

  lemma Appended(digits: string, c: char, longer: string)
    requires Numeric(digits) && IsDigit(c) && longer == digits + [c]
    ensures Numeric(longer) && Number(longer) == Number(digits) * 10 + Digit(c)
  {
    assert longer[..|digits|] == digits;
  }

  lemma PartingIsSymmetric<T>(a: seq<T>, b: seq<T>)
    ensures Parting(a, b) == Parting(b, a)
  {
  }

  // The comparison

  /** Strings compare by code unit. */
  predicate StringBefore(a: string, b: string) {
    var i := Parting(a, b);
    i < |b| && (i < |a| ==> a[i] < b[i])
  }

  lemma StringBeforeIsLex(a: string, b: string)
    ensures StringBefore(a, b) <==> Lex(CharLess, a, b)
  {
    assert Strict(CharLess);
    if StringBefore(a, b) {
      assert LexAt(CharLess, a, b, Parting(a, b));
    }
    if Lex(CharLess, a, b) {
      var i :| LexAt(CharLess, a, b, i);
      LexOnlyAtParting(CharLess, a, b, i);
    }
  }

  method CompareIdentifiers(round: nat -> nat, left: string, right: string) returns (sign: int)
    requires left != right
    ensures sign < 0 <==> IdentifierLess(round, left, right)
    ensures sign > 0 <==> IdentifierLess(round, right, left)
  {
    if Numeric(left) && Numeric(right) {
      return round(Number(left)) - round(Number(right));
    }
    if Numeric(left) {
      return -1;
    }
    if Numeric(right) {
      return 1;
    }
    StringBeforeIsLex(left, right);
    StringBeforeIsLex(right, left);
    PartingIsSymmetric(left, right);
    assert left[..|left|] == left && right[..|right|] == right;
    return if StringBefore(left, right) then -1 else 1;
  }

  method ComparePrereleases(round: nat -> nat, left: seq<string>, right: seq<string>) returns (sign: int)
    ensures sign < 0 <==> Lex(Less(round), left, right)
    ensures sign > 0 <==> Lex(Less(round), right, left)
  {
    LexIffAtParting(round, left, right);
    LexIffAtParting(round, right, left);
    PartingIsSymmetric(left, right);
    var length := if |left| > |right| then |left| else |right|;
    var index := 0;
    while index < length
      invariant index <= Parting(left, right)
    {
      if index >= |left| {
        return -1;
      }
      if index >= |right| {
        return 1;
      }
      if left[index] != right[index] {
        PartingAtDifference(left, right, index);
        sign := CompareIdentifiers(round, left[index], right[index]);
        return;
      }
      PartingAfterAgreement(left, right, index);
      index := index + 1;
    }
    return 0;
  }

  lemma PartingAtDifference<T>(a: seq<T>, b: seq<T>, i: nat)
    requires i < |a| && i < |b| && i <= Parting(a, b) && a[i] != b[i]
    ensures i == Parting(a, b)
  {
  }

  lemma PartingAfterAgreement<T>(a: seq<T>, b: seq<T>, i: nat)
    requires i < |a| && i < |b| && i <= Parting(a, b) && a[i] == b[i]
    ensures i < Parting(a, b)
  {
  }

  /** The comparison decides precedence by rounded numbers, and precedence itself unless numbers round together. */
  method CompareVersions(round: nat -> nat, left: Version, right: Version) returns (sign: int)
    ensures sign < 0 <==> PrecedesBy(round, left, right)
    ensures sign > 0 <==> PrecedesBy(round, right, left)
    ensures Rounding(round) && !RoundsTogether(round, left, right) ==>
      (sign < 0 <==> Precedes(left, right)) && (sign > 0 <==> Precedes(right, left))
  {
    var leftParts, rightParts := Core(round, left), Core(round, right);
    if Rounding(round) {
      RoundingKeepsTheOrder(round, left, right);
    }
    CoreLexAtParting(leftParts, rightParts);
    CoreLexAtParting(rightParts, leftParts);
    PartingIsSymmetric(leftParts, rightParts);
    var index := 0;
    while index < 3
      invariant 0 <= index <= 3 && index <= Parting(leftParts, rightParts)
    {
      if leftParts[index] != rightParts[index] {
        PartingAtDifference(leftParts, rightParts, index);
        return leftParts[index] as int - rightParts[index] as int;
      }
      PartingAfterAgreement(leftParts, rightParts, index);
      index := index + 1;
    }
    assert leftParts[..3] == leftParts && rightParts[..3] == rightParts;
    if left.prerelease.None? && right.prerelease.None? {
      return 0;
    }
    if left.prerelease.None? {
      return 1;
    }
    if right.prerelease.None? {
      return -1;
    }
    sign := ComparePrereleases(round, left.prerelease.value, right.prerelease.value);
  }

  /** With leading zeros, "compares as equal" is not an equivalence: 1.1 ~ 01.2 and 01.2 ~ 1.2, but 1.1 < 1.2. */
  lemma LeadingZerosBreakTheOrder()
    ensures
      var pre := (a: string, b: string) => Version(1, 0, 0, Some([a, b]));
      var x, y, z := pre("1", "1"), pre("01", "2"), pre("1", "2");
      Alike(Exact(), x, y) && Alike(Exact(), y, z) && Precedes(x, z)
  {
    assert "1"[..0] == "" && "01"[..1] == "0" && "0"[..0] == "" && "2"[..0] == "";
    assert Number("1") == 1 && Number("0") == 0 && Number("01") == 1 && Number("2") == 2;
    var p, q := ["1", "1"], ["1", "2"];
    assert LexAt(Less(Exact()), p, q, 1);
    assert Parting(["1", "1"], ["01", "2"]) == 0 && Parting(["01", "2"], ["1", "2"]) == 0;
  }

  // Selection

  datatype Authorized = Authorized(available: bool, version: Version)

  function Available(candidates: seq<Authorized>): seq<Authorized> {
    if candidates == [] then []
    else if candidates[0].available then [candidates[0]] + Available(candidates[1..])
    else Available(candidates[1..])
  }

  lemma {:induction false} AvailableSelects(candidates: seq<Authorized>)
    ensures forall c :: c in Available(candidates) <==> c in candidates && c.available
  {
    if candidates != [] {
      AvailableSelects(candidates[1..]);
    }
  }

  lemma NoneIsNewer(round: nat -> nat, best: Version, candidates: seq<Authorized>)
    requires forall k :: 0 <= k < |candidates| ==> !PrecedesBy(round, best, candidates[k].version)
    ensures forall c :: c in candidates ==>
      && !PrecedesBy(round, best, c.version)
      && (Rounding(round) && !RoundsTogether(round, best, c.version) ==> !Precedes(best, c.version))
  {
    hide PrecedesBy;
    hide RoundsTogether;
    hide Rounding;
    hide Precedes;
    forall c | c in candidates && Rounding(round)
      ensures !RoundsTogether(round, best, c.version) ==> !Precedes(best, c.version)
    {
      RoundingKeepsTheOrder(round, best, c.version);
    }
  }

  /**
   The newest candidate: an available one whenever there is any, and none of its kind is
   newer.
   */
  method SelectNewest(round: nat -> nat, candidates: seq<Authorized>) returns (newest: Option<Authorized>)
    ensures newest.None? <==> candidates == []
    ensures newest.Some? ==> newest.value in candidates
    ensures newest.Some? ==> (newest.value.available <==> exists c :: c in candidates && c.available)
    ensures newest.Some? ==> forall c :: c in candidates && c.available == newest.value.available ==>
      && !PrecedesBy(round, newest.value.version, c.version)
      && (Rounding(round) && !RoundsTogether(round, newest.value.version, c.version) ==>
            !Precedes(newest.value.version, c.version))
  {
    hide PrecedesBy;
    hide RoundsTogether;
    hide Rounding;
    hide Precedes;
    if candidates == [] {
      return None;
    }
    AvailableSelects(candidates);
    var available := Available(candidates);
    var eligible := if available != [] then available else candidates;
    if available != [] {
      assert available[0] in available;
    }
    PrecedesIsStrict(round);
    var less := (a: Version, b: Version) => PrecedesBy(round, a, b);
    assert Strict(less);
    var best := eligible[0];
    var i := 1;
    while i < |eligible|
      invariant 1 <= i <= |eligible| && best in eligible
      invariant forall k :: 0 <= k < i ==> !less(best.version, eligible[k].version)
    {
      var sign := CompareVersions(round, eligible[i].version, best.version);
      if sign > 0 {
        best := eligible[i];
      }
      i := i + 1;
    }
    NoneIsNewer(round, best.version, eligible);
    return Some(best);
  }
}
