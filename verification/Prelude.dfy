/** Small vocabulary shared by the other modules. */
module Prelude {

  datatype Option<+T> = None | Some(value: T)

  datatype Result<+T, +E> = Ok(value: T) | Err(error: E)

  /** Keep the first occurrence of every element, in order (Python's `dict.fromkeys`). */
  function Dedupe<T(==)>(s: seq<T>): seq<T> {
    if s == [] then []
    else
      var kept := Dedupe(s[..|s| - 1]);
      var x := s[|s| - 1];
      if x in kept then kept else kept + [x]
  }

  ghost predicate NoDuplicates<T>(s: seq<T>) {
    forall i, j :: 0 <= i < j < |s| ==> s[i] != s[j]
  }

  lemma {:induction false} DedupeElements<T>(s: seq<T>)
    ensures NoDuplicates(Dedupe(s))
    ensures forall x :: x in Dedupe(s) <==> x in s
  {
    if s != [] {
      DedupeElements(s[..|s| - 1]);
      assert s == s[..|s| - 1] + [s[|s| - 1]];
    }
  }

  lemma DedupeSnoc<T>(s: seq<T>, x: T)
    ensures Dedupe(s + [x]) == if x in s then Dedupe(s) else Dedupe(s) + [x]
  {
    assert (s + [x])[..|s|] == s;
    DedupeElements(s);
  }

  /** Deduplicating a prefix early changes nothing. */
  lemma {:induction false} DedupeLeft<T>(s: seq<T>, t: seq<T>)
    ensures Dedupe(Dedupe(s) + t) == Dedupe(s + t)
  {
    if t == [] {
      assert Dedupe(s) + t == Dedupe(s);
      assert s + t == s;
      DedupeDistinct(s);
    } else {
      var n := |t| - 1;
      assert s + t == (s + t[..n]) + [t[n]];
      assert Dedupe(s) + t == (Dedupe(s) + t[..n]) + [t[n]];
      DedupeLeft(s, t[..n]);
      DedupeSnoc(s + t[..n], t[n]);
      DedupeSnoc(Dedupe(s) + t[..n], t[n]);
      DedupeElements(s);
    }
  }

  lemma {:induction false} DedupeDistinct<T>(s: seq<T>)
    ensures Dedupe(Dedupe(s)) == Dedupe(s)
  {
    if s != [] {
      var n := |s| - 1;
      DedupeDistinct(s[..n]);
      DedupeElements(s[..n]);
      DedupeSnoc(Dedupe(s[..n]), s[n]);
    }
  }

  /** Deduplicating a suffix early changes nothing. */
  lemma {:induction false} DedupeRight<T>(s: seq<T>, t: seq<T>)
    ensures Dedupe(s + Dedupe(t)) == Dedupe(s + t)
  {
    if t != [] {
      var n := |t| - 1;
      DedupeRight(s, t[..n]);
      DedupeRightSnoc(s, t[..n], t[n]);
      assert t == t[..n] + [t[n]];
    } else {
      assert Dedupe(t) == t;
    }
  }

  lemma DedupeRightSnoc<T>(s: seq<T>, t: seq<T>, x: T)
    requires Dedupe(s + Dedupe(t)) == Dedupe(s + t)
    ensures Dedupe(s + Dedupe(t + [x])) == Dedupe(s + (t + [x]))
  {
    DedupeElements(t);
    DedupeSnoc(t, x);
    assert s + (t + [x]) == (s + t) + [x];
    DedupeSnoc(s + t, x);
    if x !in t {
      assert s + (Dedupe(t) + [x]) == (s + Dedupe(t)) + [x];
      DedupeSnoc(s + Dedupe(t), x);
    }
  }
}
