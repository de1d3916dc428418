/** Small shared vocabulary: an optional value and an order-preserving filter. */
module Basics {

  datatype Option<T> = None | Some(value: T)

  /** Python's `[x for x in s if p(x)]`: the elements of `s` that satisfy `p`, in order. */
  function Keep<T>(s: seq<T>, p: T -> bool): (r: seq<T>)
    ensures |r| <= |s|
    ensures forall i :: 0 <= i < |r| ==> r[i] in s && p(r[i])
    ensures forall i :: 0 <= i < |s| && p(s[i]) ==> s[i] in r
  {
    if s == [] then [] else if p(s[0]) then [s[0]] + Keep(s[1..], p) else Keep(s[1..], p)
  }

  /** Filtering distributes over concatenation, so kept elements stay in their original order. */
  lemma {:induction false} KeepAppend<T>(a: seq<T>, b: seq<T>, p: T -> bool)
    ensures Keep(a + b, p) == Keep(a, p) + Keep(b, p)
  {
    if a == [] {
      assert a + b == b;
    } else {
      assert (a + b)[1..] == a[1..] + b;
      KeepAppend(a[1..], b, p);
    }
  }

  /** Filtering twice by the same predicate changes nothing more. */
  lemma {:induction false} KeepIdempotent<T>(s: seq<T>, p: T -> bool)
    ensures Keep(Keep(s, p), p) == Keep(s, p)
  {
    if s != [] {
      KeepIdempotent(s[1..], p);
    }
  }

  /** A sequence all of whose elements pass the filter is its own filtered version. */
  lemma {:induction false} KeepAll<T>(s: seq<T>, p: T -> bool)
    requires forall i :: 0 <= i < |s| ==> p(s[i])
    ensures Keep(s, p) == s
  {
    if s != [] {
      KeepAll(s[1..], p);
    }
  }

  /** Extending the input by one element extends the result by that element if it passes. */
  lemma KeepSnoc<T>(s: seq<T>, i: nat, p: T -> bool)
    requires i < |s|
    ensures Keep(s[..i + 1], p) == Keep(s[..i], p) + (if p(s[i]) then [s[i]] else [])
  {
    assert s[..i + 1] == s[..i] + [s[i]];
    KeepAppend(s[..i], [s[i]], p);
  }

  /** An element the filter rejects is not in its result. */
  lemma KeepRejects<T>(s: seq<T>, p: T -> bool, x: T)
    requires !p(x)
    ensures x !in Keep(s, p)
  {
  }

  /** No element occurs twice. */
  predicate Distinct<T(==)>(s: seq<T>)
  {
    forall i, j :: 0 <= i < j < |s| ==> s[i] != s[j]
  }

  /** Python's `s.remove(x)` for an `x` that occurs in `s`: drops its first occurrence. */
  function RemoveFirst<T(==)>(s: seq<T>, x: T): (r: seq<T>)
    requires x in s
    ensures |r| == |s| - 1
  {
    if s[0] == x then s[1..] else [s[0]] + RemoveFirst(s[1..], x)
  }

  /** Removing an element that occurs only after the prefix `a` leaves `a` untouched. */
  lemma {:induction false} RemoveFirstAfter<T>(a: seq<T>, x: T, b: seq<T>)
    requires x !in a
    ensures RemoveFirst(a + [x] + b, x) == a + b
  {
    if a == [] {
      assert a + [x] + b == [x] + b;
    } else {
      assert (a + [x] + b)[1..] == a[1..] + [x] + b;
      RemoveFirstAfter(a[1..], x, b);
    }
  }

  /** The element at `at`, or the empty string where Python's variable stays `None`. */
  function TextAt(s: seq<string>, at: Option<nat>): string
  {
    if at.Some? && at.value < |s| then s[at.value] else ""
  }

  /** The index of the first occurrence of `x`: a `for` loop that stops at a match. */
  function FirstIndex<T(==)>(s: seq<T>, x: T): (r: Option<nat>)
    ensures r.Some? ==> r.value < |s| && s[r.value] == x
    ensures r.Some? ==> forall j :: 0 <= j < r.value ==> s[j] != x
    ensures r.None? ==> x !in s
  {
    if s == [] then None
    else if s[0] == x then Some(0)
    else
      var rest := FirstIndex(s[1..], x);
      if rest.Some? then Some(rest.value + 1) else None
  }

  /** An occurrence with none before it is the first one. */
  lemma FirstIndexAt<T>(s: seq<T>, x: T, i: nat)
    requires i < |s| && s[i] == x
    requires forall j :: 0 <= j < i ==> s[j] != x
    ensures FirstIndex(s, x) == Some(i)
  {
  }

  /** The index of the last occurrence of `x`: a `for` loop that assigns at every match. */
  function LastIndex<T(==)>(s: seq<T>, x: T): (r: Option<nat>)
    ensures r.Some? ==> r.value < |s| && s[r.value] == x
    ensures r.Some? ==> forall j :: r.value < j < |s| ==> s[j] != x
    ensures r.None? ==> x !in s
  {
    if s == [] then None
    else if s[|s| - 1] == x then Some(|s| - 1)
    else LastIndex(s[..|s| - 1], x)
  }

  /** An occurrence with none after it is the last one. */
  lemma LastIndexAt<T>(s: seq<T>, x: T, i: nat)
    requires i < |s| && s[i] == x
    requires forall j :: i < j < |s| ==> s[j] != x
    ensures LastIndex(s, x) == Some(i)
  {
  }
}
