/** Failure-carrying wrappers used throughout the model. */
module Common {

  datatype Option<+T> = None | Some(value: T)

  /** Either a value or the error that stops the computation. */
  datatype Result<+R, +E> = Success(value: R) | Failure(error: E)

  /** True iff no element of `s` occurs twice. */
  predicate NoDuplicates<T(==)>(s: seq<T>)
  {
    forall i, j :: 0 <= i < j < |s| ==> s[i] != s[j]
  }

  /** The elements of a sequence as a set. */
  function Elements<T>(s: seq<T>): set<T>
  {
    set x | x in s
  }

  /** Natural powers, used for hexadecimal place values and range sizes. */
  function Pow(b: nat, e: nat): nat
  {
    if e == 0 then 1 else b * Pow(b, e - 1)
  }

  lemma {:induction false} PowPositive(b: nat, e: nat)
    requires b > 0
    ensures Pow(b, e) > 0
    decreases e
  {
    if e > 0 {
      PowPositive(b, e - 1);
      MulPositive(b, Pow(b, e - 1));
    }
  }

  lemma MulPositive(a: nat, b: nat)
    requires a > 0 && b > 0
    ensures a * b > 0
  {
  }

  /** Concatenation is associative; stated once so that loops appending to a log can
      use it without proving it again. */
  lemma AppendAssoc<T>(a: seq<T>, b: seq<T>, c: seq<T>)
    ensures a + (b + c) == a + b + c
  {
  }

  lemma AppendToEmpty<T>(a: seq<T>, b: seq<T>)
    ensures [] + a + b == a + b
  {
  }

  lemma AppendAssoc3<T>(p: seq<T>, a: seq<T>, b: seq<T>, c: seq<T>)
    ensures p + (a + b + c) == p + a + b + c
  {
  }

  /** Appending an element not already present keeps a sequence duplicate-free. */
  lemma NoDuplicatesSnoc<T>(s: seq<T>, x: T)
    requires NoDuplicates(s) && x !in s
    ensures NoDuplicates(s + [x])
  {
  }

  /** `s` lists every element of `elems` exactly once, in some order. */
  ghost predicate Enumerates<T(!new)>(s: seq<T>, elems: set<T>)
  {
    NoDuplicates(s) && forall x :: x in s <==> x in elems
  }

  /** `after` is `before` followed by an enumeration of `elems`. */
  ghost predicate ExtendsWith<T(!new)>(before: seq<T>, after: seq<T>, elems: set<T>)
  {
    |before| <= |after| && after[..|before|] == before && Enumerates(after[|before|..], elems)
  }

  /** An enumeration is as long as the set it enumerates. */
  lemma {:induction false} EnumerationSize<T(!new)>(s: seq<T>, elems: set<T>)
    requires Enumerates(s, elems)
    ensures |s| == |elems|
    decreases |s|
  {
    if |s| > 0 {
      var x := s[|s| - 1];
      var prefix := s[..|s| - 1];
      assert s == prefix + [x];
      forall y ensures y in prefix <==> y in elems - {x} {
        if y in prefix {
          var j :| 0 <= j < |prefix| && prefix[j] == y;
          assert s[j] == y;
        }
      }
      EnumerationSize(prefix, elems - {x});
    } else {
      assert forall x :: x !in elems;
      assert elems == {};
    }
  }
}
