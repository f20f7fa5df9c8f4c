/** Small definitions shared by every module of the project. */
module Prelude {

  datatype Option<+T> = None | Some(value: T)

  function Max(a: int, b: int): int {
    if a < b then b else a
  }

  function Min(a: int, b: int): int {
    if a < b then a else b
  }

  predicate Distinct<T(==)>(s: seq<T>) {
    forall i, j :: 0 <= i < j < |s| ==> s[i] != s[j]
  }

  /** The elements of a sequence, by recursion. */
  ghost function Elems<T>(s: seq<T>): set<T> {
    if s == [] then {} else {s[0]} + Elems(s[1..])
  }

  lemma {:induction false} ElemsIn<T>(s: seq<T>)
    ensures forall x :: x in Elems(s) <==> x in s
  {
    if s != [] {
      ElemsIn(s[1..]);
      assert forall x :: x in s <==> x == s[0] || x in s[1..];
    }
  }

  lemma {:induction false} ElemsMember<T>(s: seq<T>, x: T)
    ensures x in Elems(s) <==> x in s
  {
    if s != [] {
      ElemsMember(s[1..], x);
    }
  }

  lemma {:induction false} ElemsAt<T>(s: seq<T>, i: nat)
    requires i < |s|
    ensures s[i] in Elems(s)
  {
    ElemsIn(s);
  }

  lemma {:induction false} ElemsAppend<T>(s: seq<T>, x: T)
    ensures Elems(s + [x]) == Elems(s) + {x}
  {
    if s != [] {
      ElemsAppend(s[1..], x);
      assert (s + [x])[1..] == s[1..] + [x];
    }
  }

  lemma ElemsPrefix<T>(s: seq<T>, i: nat)
    requires i < |s|
    ensures Elems(s[..i+1]) == Elems(s[..i]) + {s[i]}
    ensures Distinct(s) ==> s[i] !in Elems(s[..i])
  {
    assert s[..i+1] == s[..i] + [s[i]];
    ElemsAppend(s[..i], s[i]);
    ElemsIn(s[..i]);
  }

  /** Unlinks the first occurrence of an element. */
  function Remove<T(==)>(s: seq<T>, x: T): seq<T> {
    if s == [] then []
    else if s[0] == x then s[1..]
    else [s[0]] + Remove(s[1..], x)
  }

  lemma {:induction false} RemoveSound<T>(s: seq<T>, x: T)
    requires Distinct(s)
    ensures Distinct(Remove(s, x))
    ensures Elems(Remove(s, x)) == Elems(s) - {x}
  {
    if s != [] {
      ElemsIn(s[1..]);
      if s[0] != x {
        var r := Remove(s[1..], x);
        RemoveSound(s[1..], x);
        forall i | 0 <= i < |r|
          ensures r[i] in s[1..]
        {
          ElemsAt(r, i);
          ElemsMember(s[1..], r[i]);
        }
      }
    }
  }

  lemma {:induction false} RemoveIsAt<T>(s: seq<T>, k: nat)
    requires Distinct(s) && k < |s|
    ensures Remove(s, s[k]) == s[..k] + s[k+1..]
  {
    if k > 0 {
      var t := s[1..];
      RemoveIsAt(t, k - 1);
      assert Remove(s, s[k]) == [s[0]] + (t[..k-1] + t[k..]);
    }
  }

  lemma ElemsNothing<T>()
    ensures Elems<T>([]) == {}
  {
  }

  lemma {:induction false} RemoveLength<T>(s: seq<T>, x: T)
    ensures |Remove(s, x)| == if x in s then |s| - 1 else |s|
    ensures x !in s ==> Remove(s, x) == s
  {
    if s != [] && s[0] != x {
      RemoveLength(s[1..], x);
    }
  }

  lemma {:induction false} RemoveOther<T>(s: seq<T>, x: T, y: T)
    requires x in s && x != y
    ensures x in Remove(s, y)
  {
    if s[0] != x && s[0] != y {
      RemoveOther(s[1..], x, y);
      assert Remove(s, y)[1..] == Remove(s[1..], y);
    }
  }

  lemma {:induction false} DistinctSnoc<T>(s: seq<T>, x: T)
    requires Distinct(s) && x !in Elems(s)
    ensures Distinct(s + [x]) && Elems(s + [x]) == Elems(s) + {x}
  {
    ElemsAppend(s, x);
    forall i | 0 <= i < |s|
      ensures s[i] != x
    {
      ElemsAt(s, i);
    }
  }
}
