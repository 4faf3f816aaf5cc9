/** Small generic building blocks shared by the search pipeline: an optional
    value, order-preserving selection from a sequence (the shape of every
    boolean-mask narrowing and list comprehension with a condition in the
    service), and the subsequence relation that selection establishes. */
module Basics {

  datatype Option<T> = None | Some(value: T)

  /** The elements of `s` that satisfy `p`, in their original order and with
      their multiplicities. */
  function Select<T(==,!new)>(s: seq<T>, p: T -> bool): (r: seq<T>)
    ensures |r| <= |s|
    ensures forall x :: x in r <==> x in s && p(x)
  {
    if s == [] then [] else (if p(s[0]) then [s[0]] else []) + Select(s[1..], p)
  }

  /** Selection keeps every selected value as often as it occurs and drops
      every other value entirely. */
  lemma {:induction false} SelectMultiplicity<T(!new)>(s: seq<T>, p: T -> bool)
    ensures forall x :: multiset(Select(s, p))[x] == if p(x) then multiset(s)[x] else 0
    decreases |s|
  {
    if s != [] {
      SelectMultiplicity(s[1..], p);
      assert s == [s[0]] + s[1..];
    }
  }

  /** `a` can be obtained from `b` by deleting elements (order is kept). */
  predicate IsSubseq<T(==)>(a: seq<T>, b: seq<T>)
    decreases |b|
  {
    if a == [] then true
    else if b == [] then false
    else (a[0] == b[0] && IsSubseq(a[1..], b[1..])) || IsSubseq(a, b[1..])
  }

  lemma {:induction false} SelectIsSubseq<T(!new)>(s: seq<T>, p: T -> bool)
    ensures IsSubseq(Select(s, p), s)
    decreases |s|
  {
    if s != [] {
      SelectIsSubseq(s[1..], p);
      var rest := Select(s[1..], p);
      if p(s[0]) {
        assert Select(s, p) == [s[0]] + rest;
        assert Select(s, p)[1..] == rest;
      } else {
        assert Select(s, p) == rest;
      }
    }
  }

  /** Selecting with a predicate that every element satisfies changes nothing. */
  lemma {:induction false} SelectAll<T(!new)>(s: seq<T>, p: T -> bool)
    requires forall x :: x in s ==> p(x)
    ensures Select(s, p) == s
    decreases |s|
  {
    if s != [] {
      SelectAll(s[1..], p);
      assert s == [s[0]] + s[1..];
    }
  }

  /** Two predicates that agree on the elements of `s` select the same elements. */
  lemma {:induction false} SelectCongruent<T(!new)>(s: seq<T>, p: T -> bool, q: T -> bool)
    requires forall x :: x in s ==> p(x) == q(x)
    ensures Select(s, p) == Select(s, q)
    decreases |s|
  {
    if s != [] {
      SelectCongruent(s[1..], p, q);
    }
  }

  /** Two successive selections are one selection by the conjunction `pq`. */
  lemma {:induction false} SelectSelect<T(!new)>(s: seq<T>, p: T -> bool, q: T -> bool, pq: T -> bool)
    requires forall x :: pq(x) == (p(x) && q(x))
    ensures Select(Select(s, p), q) == Select(s, pq)
    decreases |s|
  {
    if s != [] {
      SelectSelect(s[1..], p, q, pq);
      var rest := Select(s[1..], p);
      assert Select(s, pq) == (if pq(s[0]) then [s[0]] else []) + Select(s[1..], pq);
      if p(s[0]) {
        var sp := [s[0]] + rest;
        assert Select(s, p) == sp;
        assert sp != [] && sp[0] == s[0] && sp[1..] == rest;
        assert Select(sp, q) == (if q(s[0]) then [s[0]] else []) + Select(rest, q);
      } else {
        assert Select(s, p) == rest;
      }
    }
  }

  /** Selecting with a predicate no element satisfies gives nothing. */
  lemma {:induction false} SelectNone<T(!new)>(s: seq<T>, p: T -> bool)
    requires forall x :: x in s ==> !p(x)
    ensures Select(s, p) == []
    decreases |s|
  {
    if s != [] {
      SelectNone(s[1..], p);
    }
  }

  /** Selecting by the same predicate twice is selecting once. */
  lemma {:induction false} SelectIdempotent<T(!new)>(s: seq<T>, p: T -> bool)
    ensures Select(Select(s, p), p) == Select(s, p)
  {
    SelectAll(Select(s, p), p);
  }

  /** Selection distributes over concatenation. */
  lemma {:induction false} SelectAppend<T(!new)>(a: seq<T>, b: seq<T>, p: T -> bool)
    ensures Select(a + b, p) == Select(a, p) + Select(b, p)
    decreases |a|
  {
    if a == [] {
      assert a + b == b;
    } else {
      var c := a + b;
      var head := if p(a[0]) then [a[0]] else [];
      assert c[0] == a[0] && c[1..] == a[1..] + b;
      SelectAppend(a[1..], b, p);
      calc {
        Select(c, p);
        head + Select(a[1..] + b, p);
        head + (Select(a[1..], p) + Select(b, p));
        (head + Select(a[1..], p)) + Select(b, p);
        Select(a, p) + Select(b, p);
      }
    }
  }

  /** Selection from a sequence with one element singled out. */
  lemma {:induction false} SelectAround<T(!new)>(a: seq<T>, e: T, b: seq<T>, p: T -> bool)
    ensures Select(a + [e] + b, p) == Select(a, p) + (if p(e) then [e] else []) + Select(b, p)
  {
    SelectAppend(a + [e], b, p);
    SelectAppend(a, [e], p);
    assert Select([e], p) == (if p(e) then [e] else []) by {
      assert [e][0] == e && [e][1..] == [];
    }
  }

  /** A subsequence stays one when the longer sequence grows. */
  lemma {:induction false} IsSubseqExtend<T>(a: seq<T>, b: seq<T>, e: T)
    requires IsSubseq(a, b)
    ensures IsSubseq(a, b + [e])
    decreases |b|
  {
    if a != [] {
      assert (b + [e])[0] == b[0] && (b + [e])[1..] == b[1..] + [e];
      if a[0] == b[0] && IsSubseq(a[1..], b[1..]) {
        IsSubseqExtend(a[1..], b[1..], e);
      } else {
        IsSubseqExtend(a, b[1..], e);
      }
    }
  }

  /** A subsequence stays one when both sequences grow by the same element. */
  lemma {:induction false} IsSubseqSnoc<T>(a: seq<T>, b: seq<T>, e: T)
    requires IsSubseq(a, b)
    ensures IsSubseq(a + [e], b + [e])
    decreases |b|
  {
    if b == [] {
      assert a == [] && a + [e] == b + [e];
      assert (b + [e])[1..] == [];
    } else {
      assert (b + [e])[0] == b[0] && (b + [e])[1..] == b[1..] + [e];
      if a == [] {
        IsSubseqSnoc(a, b[1..], e);
      } else if a[0] == b[0] && IsSubseq(a[1..], b[1..]) {
        IsSubseqSnoc(a[1..], b[1..], e);
        assert (a + [e])[0] == a[0] && (a + [e])[1..] == a[1..] + [e];
      } else {
        IsSubseqSnoc(a, b[1..], e);
      }
    }
  }

  /** The values that `f` yields for the elements of `s`, in order; an
      element for which `f` yields nothing is dropped on its own. */
  function Collect<T, U>(s: seq<T>, f: T -> Option<U>): (r: seq<U>)
    ensures |r| <= |s|
    decreases |s|
  {
    if s == [] then []
    else
      var init := Collect(s[..|s| - 1], f);
      match f(s[|s| - 1])
      case Some(y) => init + [y]
      case None => init
  }

  /** Collecting from one more element. */
  lemma {:induction false} CollectSnoc<T, U>(s: seq<T>, x: T, f: T -> Option<U>)
    ensures Collect(s + [x], f) == Collect(s, f) + (if f(x).Some? then [f(x).value] else [])
  {
    assert (s + [x])[..|s|] == s;
    assert (s + [x])[|s|] == x;
  }

  /** Every collected value comes from an element that yields it. */
  lemma {:induction false} CollectSound<T, U>(s: seq<T>, f: T -> Option<U>, y: U)
    requires y in Collect(s, f)
    ensures exists k :: 0 <= k < |s| && f(s[k]) == Some(y)
    decreases |s|
  {
    var n := |s| - 1;
    var init := s[..n];
    if y in Collect(init, f) {
      CollectSound(init, f, y);
      var k :| 0 <= k < |init| && f(init[k]) == Some(y);
      assert s[k] == init[k];
    } else {
      assert f(s[n]) == Some(y);
    }
  }

  /** Every element that yields a value contributes it. */
  lemma {:induction false} CollectComplete<T, U>(s: seq<T>, f: T -> Option<U>, k: nat)
    requires k < |s| && f(s[k]).Some?
    ensures f(s[k]).value in Collect(s, f)
    decreases |s|
  {
    var n := |s| - 1;
    var init := s[..n];
    if k < n {
      CollectComplete(init, f, k);
      assert init[k] == s[k];
    }
  }

  /** A prefix one element longer. */
  lemma {:induction false} PrefixSnoc<T>(s: seq<T>, i: nat)
    requires i < |s|
    ensures s[..i + 1] == s[..i] + [s[i]]
  {
  }

  /** What `Collect` keeps: exactly the values `f` yields on some element. */
  lemma {:induction false} CollectExact<T, U>(s: seq<T>, f: T -> Option<U>)
    ensures forall y :: y in Collect(s, f) <==> exists k :: 0 <= k < |s| && f(s[k]) == Some(y)
  {
    forall y | y in Collect(s, f) ensures exists k :: 0 <= k < |s| && f(s[k]) == Some(y) {
      CollectSound(s, f, y);
    }
    forall k | 0 <= k < |s| && f(s[k]).Some? ensures f(s[k]).value in Collect(s, f) {
      CollectComplete(s, f, k);
    }
  }

  /** Collecting from a concatenation collects from each part. */
  lemma {:induction false} CollectAppend<T, U>(a: seq<T>, b: seq<T>, f: T -> Option<U>)
    ensures Collect(a + b, f) == Collect(a, f) + Collect(b, f)
    decreases |b|
  {
    if b == [] {
      assert a + b == a;
    } else {
      var b' := b[..|b| - 1];
      CollectAppend(a, b', f);
      assert (a + b)[..|a + b| - 1] == a + b';
      assert (a + b)[|a + b| - 1] == b[|b| - 1];
    }
  }
}
