/** Small shared vocabulary: optional values, results, text folding, real minimum and maximum. */
module Basics {
  datatype Option<+T> = None | Some(value: T)

  datatype Result<+T, +E> = Ok(value: T) | Err(error: E)

  /** Entities are named by freshly drawn identifiers (uuid4 in the program). */
  type Id = nat

  function Min(a: real, b: real): real {
    if a <= b then a else b
  }

  function Max(a: real, b: real): real {
    if a >= b then a else b
  }

  function Least(a: nat, b: nat): nat {
    if a < b then a else b
  }

  lemma {:induction false} SubsetSize<T>(a: set<T>, b: set<T>)
    requires a <= b
    ensures |a| <= |b|
    ensures a != b ==> |a| < |b|
  {
    assert b == a + (b - a);
  }

  function UpperChar(c: char): char {
    if 'a' <= c <= 'z' then (c as int - 32) as char else c
  }

  /** `str.upper` on ASCII text. */
  function Upper(s: string): (r: string)
    ensures |r| == |s|
  {
    seq(|s|, i requires 0 <= i < |s| => UpperChar(s[i]))
  }

  lemma {:induction false} UpperIdempotent(s: string)
    ensures Upper(Upper(s)) == Upper(s)
  {
    forall i | 0 <= i < |s|
      ensures Upper(Upper(s))[i] == Upper(s)[i]
    {
      assert Upper(s)[i] == UpperChar(s[i]);
    }
  }

  /** The elements of which a property holds, in order. */
  ghost function Where<T>(s: seq<T>, property: T -> bool): seq<T> {
    if s == [] then []
    else
      var last := s[|s| - 1];
      Where(s[..|s| - 1], property) + if property(last) then [last] else []
  }
}
