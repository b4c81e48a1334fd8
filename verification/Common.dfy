/** Types and sequence facts shared by every part of the cache model. */
module Common {

  datatype Option<+T> = None | Some(value: T)

  type NodeId = string
  type Key = string
  newtype byte = x: int | 0 <= x < 256
  type Value = seq<byte>

  function Min(a: int, b: int): int { if a <= b then a else b }

  function Max(a: int, b: int): int { if a >= b then a else b }

  ghost predicate Distinct<T(!new)>(s: seq<T>) {
    forall i, j :: 0 <= i < j < |s| ==> s[i] != s[j]
  }

  /** `s` lists the elements of `t`, each once, in some order. */
  ghost predicate Enumerates<T(!new)>(s: seq<T>, t: set<T>) {
    Distinct(s) && forall x :: x in s <==> x in t
  }

  /** `s` with every occurrence of `x` taken out. */
  function Without<T(==)>(s: seq<T>, x: T): (r: seq<T>)
    ensures x !in r
    ensures forall y :: y in r ==> y in s
  {
    if s == [] then []
    else
      var r := Without(s[..|s| - 1], x);
      if s[|s| - 1] == x then r else r + [s[|s| - 1]]
  }

  lemma {:induction false} WithoutKeepsOthers<T>(s: seq<T>, x: T)
    ensures forall y :: y in s && y != x ==> y in Without(s, x)
    ensures x !in s ==> Without(s, x) == s
  {
    if s != [] {
      WithoutKeepsOthers(s[..|s| - 1], x);
      assert s == s[..|s| - 1] + [s[|s| - 1]];
    }
  }

  lemma {:induction false} WithoutHead<T>(s: seq<T>, x: T)
    requires s != []
    ensures Without(s, x) == (if s[0] == x then [] else [s[0]]) + Without(s[1..], x)
  {
    if |s| > 1 {
      var t := s[..|s| - 1];
      WithoutHead(t, x);
      assert t[1..] == s[1..][..|s| - 2];
      assert s[1..][|s| - 2] == s[|s| - 1];
    }
  }

  lemma {:induction false} WithoutPrefix<T>(s: seq<T>, x: T, r: nat)
    requires r <= |s|
    ensures Without(s[..r], x) <= Without(s, x) && |Without(s[..r], x)| <= r
  {
    if s != [] {
      var t := s[..|s| - 1];
      if r == |s| {
        assert s[..r] == s;
        WithoutPrefix(t, x, r - 1);
        assert t[..r - 1] == t;
      } else {
        WithoutPrefix(t, x, r);
        assert t[..r] == s[..r];
      }
    }
  }

  /** A duplicate-free listing of a set has that set's size. */
  lemma {:induction false} EnumerationSize<T(!new)>(s: seq<T>, t: set<T>)
    requires Enumerates(s, t)
    ensures |s| == |t|
  {
    if s == [] {
      assert t == {};
    } else {
      var u := s[..|s| - 1];
      assert s == u + [s[|s| - 1]];
      assert forall i :: 0 <= i < |u| ==> u[i] == s[i];
      EnumerationSize(u, t - {s[|s| - 1]});
    }
  }
}
