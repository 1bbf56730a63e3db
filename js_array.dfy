/** The JavaScript Array built-ins the core is written with: `map`,
    `filter` and `slice`, as functions on sequences. */
module JsArray {

  /** `s.map(f)`. */
  function Map<A, B>(f: A -> B, s: seq<A>): (r: seq<B>)
    ensures |r| == |s|
    ensures forall i :: 0 <= i < |s| ==> r[i] == f(s[i])
  {
    if s == [] then [] else [f(s[0])] + Map(f, s[1..])
  }

  /** `s.filter(p)`: the elements that satisfy `p`, in their original order. */
  function Filter<T>(p: T -> bool, s: seq<T>): (r: seq<T>)
    ensures |r| <= |s|
    ensures forall i :: 0 <= i < |r| ==> p(r[i])
    ensures forall i :: 0 <= i < |r| ==> r[i] in s
  {
    if s == [] then []
    else (if p(s[0]) then [s[0]] else []) + Filter(p, s[1..])
  }

  /** Filtering distributes over concatenation: together with the singleton
      case this pins down that `Filter` is stable (keeps relative order). */
  lemma {:induction false} FilterAppend<T>(p: T -> bool, a: seq<T>, b: seq<T>)
    ensures Filter(p, a + b) == Filter(p, a) + Filter(p, b)
  {
    if a == [] {
      assert a + b == b;
    } else {
      assert (a + b)[0] == a[0];
      assert (a + b)[1..] == a[1..] + b;
      FilterAppend(p, a[1..], b);
    }
  }

  /** Membership: an element survives exactly when it was present and satisfies `p`. */
  lemma {:induction false} FilterMember<T>(p: T -> bool, s: seq<T>, x: T)
    ensures x in Filter(p, s) <==> x in s && p(x)
  {
    if s != [] {
      FilterMember(p, s[1..], x);
      assert x in s <==> x == s[0] || x in s[1..];
    }
  }

  /** Filtering with a predicate every element meets changes nothing. */
  lemma {:induction false} FilterAll<T>(p: T -> bool, s: seq<T>)
    requires forall i :: 0 <= i < |s| ==> p(s[i])
    ensures Filter(p, s) == s
  {
    if s != [] {
      FilterAll(p, s[1..]);
      assert [s[0]] + s[1..] == s;
    }
  }

  /** Filtering twice with the same predicate is filtering once. */
  lemma FilterIdempotent<T>(p: T -> bool, s: seq<T>)
    ensures Filter(p, Filter(p, s)) == Filter(p, s)
  {
    FilterAll(p, Filter(p, s));
  }

  /** The index a `slice` bound denotes in a list of length `len`: a negative
      bound counts back from the end, and both ends are clamped to [0, len]. */
  function RelativeIndex(k: int, len: nat): (r: nat)
    ensures r <= len
  {
    if k < 0 then (if len + k < 0 then 0 else len + k)
    else if k <= len then k else len
  }

  /** `s.slice(start, end)`. */
  function Slice<T>(s: seq<T>, start: int, end: int): (r: seq<T>)
    ensures |r| <= |s|
  {
    var from := RelativeIndex(start, |s|);
    var to := RelativeIndex(end, |s|);
    if from < to then s[from..to] else []
  }

  /** For non-negative bounds the slice starts at the clamped `start` and is
      as long as the clamped bounds are apart (0 when they cross). */
  lemma SliceLength<T>(s: seq<T>, start: int, end: int)
    requires 0 <= start && 0 <= end
    ensures var from := if start <= |s| then start else |s|;
            var to := if end <= |s| then end else |s|;
            && |Slice(s, start, end)| == (if from < to then to - from else 0)
            && forall i :: 0 <= i < |Slice(s, start, end)| ==> Slice(s, start, end)[i] == s[from + i]
  {
  }

  /** Adjacent slices concatenate: `s.slice(a, b)` followed by `s.slice(b, c)`
      is `s.slice(a, c)`. */
  lemma SliceAdjacent<T>(s: seq<T>, a: int, b: int, c: int)
    requires 0 <= a <= b <= c
    ensures Slice(s, a, b) + Slice(s, b, c) == Slice(s, a, c)
  {
    var n := |s|;
    var x := if a <= n then a else n;
    var y := if b <= n then b else n;
    var z := if c <= n then c else n;
    assert x <= y <= z;
    if x < y && y < z {
      assert s[x..y] + s[y..z] == s[x..z];
    }
  }
}
