/** `Array.prototype.filter` over sequences, with what the routes and pages rely on. */
module Seqs {

  /** `s.filter(keep)`: the elements that keep accepts, in their order. */
  function Filter<T>(s: seq<T>, keep: T -> bool): (r: seq<T>)
    ensures |r| <= |s|
    ensures forall x :: x in r ==> x in s && keep(x)
  {
    if s == [] then [] else (if keep(s[0]) then [s[0]] else []) + Filter(s[1..], keep)
  }

  /** Every element that keep accepts is kept. */
  lemma {:induction false} FilterComplete<T>(s: seq<T>, keep: T -> bool, x: T)
    requires x in s && keep(x)
    ensures x in Filter(s, keep)
  {
    if s[0] != x {
      FilterComplete(s[1..], keep, x);
    }
  }

  /** Filtering works piece by piece, so the order of the input is kept. */
  lemma {:induction false} FilterAppend<T>(a: seq<T>, b: seq<T>, keep: T -> bool)
    ensures Filter(a + b, keep) == Filter(a, keep) + Filter(b, keep)
  {
    if a != [] {
      assert (a + b)[1..] == a[1..] + b;
      FilterAppend(a[1..], b, keep);
    } else {
      assert a + b == b;
    }
  }

  /** A filter that keeps everything returns its input. */
  lemma {:induction false} FilterAll<T>(s: seq<T>, keep: T -> bool)
    requires forall x :: x in s ==> keep(x)
    ensures Filter(s, keep) == s
  {
    if s != [] {
      FilterAll(s[1..], keep);
    }
  }

  /** The concatenation of f(x) for the elements x of s, in order. */
  function FlatMap<T, U>(s: seq<T>, f: T -> seq<U>): seq<U> {
    if s == [] then [] else FlatMap(s[..|s| - 1], f) + f(s[|s| - 1])
  }

  /** FlatMap works piece by piece. */
  lemma {:induction false} FlatMapAppend<T, U>(a: seq<T>, b: seq<T>, f: T -> seq<U>)
    ensures FlatMap(a + b, f) == FlatMap(a, f) + FlatMap(b, f)
  {
    if b == [] {
      assert a + b == a;
    } else {
      var c := a + b;
      assert c[..|c| - 1] == a + b[..|b| - 1];
      FlatMapAppend(a, b[..|b| - 1], f);
    }
  }

  /** Every element of FlatMap(s, f) comes from f of some element of s. */
  lemma {:induction false} FlatMapSource<T, U>(s: seq<T>, f: T -> seq<U>, y: U) returns (k: nat)
    requires y in FlatMap(s, f)
    ensures k < |s| && y in f(s[k])
  {
    var init := s[..|s| - 1];
    if y in FlatMap(init, f) {
      k := FlatMapSource(init, f, y);
      assert init[k] == s[k];
    } else {
      k := |s| - 1;
    }
  }

  /** When f gives nothing for every element, FlatMap gives nothing. */
  lemma {:induction false} FlatMapEmpty<T, U>(s: seq<T>, f: T -> seq<U>)
    requires forall k :: 0 <= k < |s| ==> f(s[k]) == []
    ensures FlatMap(s, f) == []
  {
    if s != [] {
      var init := s[..|s| - 1];
      assert forall k :: 0 <= k < |init| ==> init[k] == s[k];
      FlatMapEmpty(init, f);
    }
  }
}
