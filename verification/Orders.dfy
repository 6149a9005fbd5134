/** Strict orders, and the lexicographic order on sequences in which a proper prefix comes first. */
module Orders {
  ghost predicate Strict<T(!new)>(less: (T, T) -> bool) {
    && (forall a :: !less(a, a))
    && (forall a, b, c :: less(a, b) && less(b, c) ==> less(a, c))
  }

  /** Of two different elements of the domain, one is less. */
  ghost predicate Total<T(!new)>(less: (T, T) -> bool, domain: T -> bool) {
    forall a, b :: domain(a) && domain(b) && a != b ==> less(a, b) || less(b, a)
  }

  /** Where two sequences part: at their first difference, or at the end of the shorter. */
  function Parting<T(==)>(a: seq<T>, b: seq<T>): (i: nat)
    ensures i <= |a| && i <= |b| && a[..i] == b[..i]
    ensures i < |a| && i < |b| ==> a[i] != b[i]
  {
    if a == [] || b == [] || a[0] != b[0] then 0
    else
      var rest := Parting(a[1..], b[1..]);
      assert a[..1 + rest] == [a[0]] + a[1..][..rest] && b[..1 + rest] == [b[0]] + b[1..][..rest];
      1 + rest
  }

  ghost predicate LexAt<T(!new)>(less: (T, T) -> bool, a: seq<T>, b: seq<T>, i: nat) {
    && i <= |a| && i < |b| && a[..i] == b[..i]
    && (i < |a| ==> less(a[i], b[i]))
  }

  ghost predicate Lex<T(!new)>(less: (T, T) -> bool, a: seq<T>, b: seq<T>) {
    exists i :: LexAt(less, a, b, i)
  }

  lemma LexOnlyAtParting<T(!new)>(less: (T, T) -> bool, a: seq<T>, b: seq<T>, i: nat)
    requires Strict(less) && LexAt(less, a, b, i)
    ensures i == Parting(a, b)
  {
  }

  lemma LexIsStrict<T(!new)>(less: (T, T) -> bool)
    requires Strict(less)
    ensures Strict((a: seq<T>, b: seq<T>) => Lex(less, a, b))
  {
    forall a: seq<T>, b: seq<T>, c: seq<T> | Lex(less, a, b) && Lex(less, b, c)
      ensures Lex(less, a, c)
    {
      var i :| LexAt(less, a, b, i);
      var j :| LexAt(less, b, c, j);
      LexComposes(less, a, b, c, i, j);
    }
    forall a: seq<T>
      ensures !Lex(less, a, a)
    {
      forall i | 0 <= i < |a|
        ensures !LexAt(less, a, a, i)
      {
      }
    }
  }

  lemma LexComposes<T(!new)>(less: (T, T) -> bool, a: seq<T>, b: seq<T>, c: seq<T>, i: nat, j: nat)
    requires Strict(less) && LexAt(less, a, b, i) && LexAt(less, b, c, j)
    ensures LexAt(less, a, c, if i < j then i else j)
  {
  }

  lemma LexIsTotal<T(!new)>(less: (T, T) -> bool, domain: T -> bool, a: seq<T>, b: seq<T>)
    requires Total(less, domain)
    requires (forall x :: x in a ==> domain(x)) && (forall x :: x in b ==> domain(x)) && a != b
    ensures Lex(less, a, b) || Lex(less, b, a)
  {
    var i := Parting(a, b);
    assert a[..|a|] == a && b[..|b|] == b;
    if i < |a| && i < |b| {
      assert a[i] in a && b[i] in b;
    }
    assert LexAt(less, a, b, i) || LexAt(less, b, a, i);
  }
}
