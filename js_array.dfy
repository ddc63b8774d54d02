/** JavaScript's `Array.prototype.filter`, with the facts the screens rely
    on: it keeps exactly the members that pass, in their order. */
module JsArray {

  /** `s.filter(f)` */
  function Filter<T>(s: seq<T>, f: T -> bool): (r: seq<T>)
    ensures |r| <= |s|
    decreases |s|
  {
    if s == [] then []
    else (if f(s[0]) then [s[0]] else []) + Filter(s[1..], f)
  }

  /** The filter keeps exactly the members that pass. */
  lemma {:induction false} FilterMembers<T>(s: seq<T>, f: T -> bool)
    ensures forall x :: x in Filter(s, f) <==> x in s && f(x)
    decreases |s|
  {
    if s != [] {
      FilterMembers(s[1..], f);
      assert forall x :: x in s <==> x == s[0] || x in s[1..];
    }
  }

  /** Filtering a concatenation filters each part: the filter keeps the
      relative order of what it keeps. */
  lemma {:induction false} FilterAppend<T>(a: seq<T>, b: seq<T>, f: T -> bool)
    ensures Filter(a + b, f) == Filter(a, f) + Filter(b, f)
    decreases |a|
  {
    if a == [] {
      assert a + b == b;
    } else {
      var h := if f(a[0]) then [a[0]] else [];
      calc {
        Filter(a + b, f);
        { assert (a + b)[0] == a[0] && (a + b)[1..] == a[1..] + b; }
        h + Filter(a[1..] + b, f);
        { FilterAppend(a[1..], b, f); }
        h + (Filter(a[1..], f) + Filter(b, f));
        (h + Filter(a[1..], f)) + Filter(b, f);
        Filter(a, f) + Filter(b, f);
      }
    }
  }

  /** When every member passes, the filter is the identity. */
  lemma {:induction false} FilterKeepsAll<T>(s: seq<T>, f: T -> bool)
    requires forall i :: 0 <= i < |s| ==> f(s[i])
    ensures Filter(s, f) == s
    decreases |s|
  {
    if s != [] {
      FilterKeepsAll(s[1..], f);
      assert [s[0]] + s[1..] == s;
    }
  }

  /** When no member passes, the filter is empty. */
  lemma {:induction false} FilterKeepsNone<T>(s: seq<T>, f: T -> bool)
    requires forall i :: 0 <= i < |s| ==> !f(s[i])
    ensures Filter(s, f) == []
    decreases |s|
  {
    if s != [] {
      FilterKeepsNone(s[1..], f);
    }
  }

  /** Two tests that are each other's negation split a sequence: what one
      keeps and what the other keeps add up to the whole. */
  lemma {:induction false} FilterPartition<T>(s: seq<T>, f: T -> bool, g: T -> bool)
    requires forall i :: 0 <= i < |s| ==> (g(s[i]) <==> !f(s[i]))
    ensures |Filter(s, f)| + |Filter(s, g)| == |s|
    decreases |s|
  {
    if s != [] {
      FilterPartition(s[1..], f, g);
    }
  }
}
