/**
 Order-preserving filters over sequences, used for every "keep the entries that
 satisfy a predicate" step of the server: splitting discovered topics by type,
 claiming image topics under a camera base, and sweeping inactive sessions.
 */
module Seqs {

  /** The elements of `s` that satisfy `p`, in their original order. */
  function Filter<T(!new)>(p: T -> bool, s: seq<T>): (r: seq<T>)
    ensures |r| <= |s|
  {
    if s == [] then []
    else if p(s[0]) then [s[0]] + Filter(p, s[1..])
    else Filter(p, s[1..])
  }

  /** The elements of `s` that do NOT satisfy `p`, in their original order. */
  function Reject<T(!new)>(p: T -> bool, s: seq<T>): (r: seq<T>)
    ensures |r| <= |s|
  {
    if s == [] then []
    else if p(s[0]) then Reject(p, s[1..])
    else [s[0]] + Reject(p, s[1..])
  }

  /** The filter holds exactly the elements of `s` that satisfy `p`; the rejection holds the others. */
  lemma {:induction false} FilterMembership<T(!new)>(p: T -> bool, s: seq<T>)
    ensures forall x :: x in Filter(p, s) <==> x in s && p(x)
    ensures forall x :: x in Reject(p, s) <==> x in s && !p(x)
  {
    if s != [] {
      FilterMembership(p, s[1..]);
      assert s == [s[0]] + s[1..];
    }
  }

  /** Filtering distributes over concatenation: the relative order of kept elements is preserved. */
  lemma {:induction false} FilterAppend<T(!new)>(p: T -> bool, a: seq<T>, b: seq<T>)
    ensures Filter(p, a + b) == Filter(p, a) + Filter(p, b)
  {
    if a == [] {
      assert a + b == b;
    } else {
      assert (a + b)[1..] == a[1..] + b;
      FilterAppend(p, a[1..], b);
    }
  }

  lemma {:induction false} RejectAppend<T(!new)>(p: T -> bool, a: seq<T>, b: seq<T>)
    ensures Reject(p, a + b) == Reject(p, a) + Reject(p, b)
  {
    if a == [] {
      assert a + b == b;
    } else {
      assert (a + b)[1..] == a[1..] + b;
      RejectAppend(p, a[1..], b);
    }
  }

  /** Every element lands in exactly one of the two halves, with its multiplicity. */
  lemma {:induction false} FilterRejectSplit<T(!new)>(p: T -> bool, s: seq<T>)
    ensures multiset(Filter(p, s)) + multiset(Reject(p, s)) == multiset(s)
    ensures |Filter(p, s)| + |Reject(p, s)| == |s|
  {
    if s != [] {
      FilterRejectSplit(p, s[1..]);
      assert s == [s[0]] + s[1..];
    }
  }

  /** A sequence whose elements all satisfy `p` is its own filter. */
  lemma {:induction false} FilterAll<T(!new)>(p: T -> bool, s: seq<T>)
    requires forall x :: x in s ==> p(x)
    ensures Filter(p, s) == s
    ensures Reject(p, s) == []
  {
    if s != [] {
      FilterAll(p, s[1..]);
    }
  }

  /** A sequence none of whose elements satisfies `p` is its own rejection. */
  lemma {:induction false} RejectAll<T(!new)>(p: T -> bool, s: seq<T>)
    requires forall x :: x in s ==> !p(x)
    ensures Reject(p, s) == s
    ensures Filter(p, s) == []
  {
    if s != [] {
      RejectAll(p, s[1..]);
    }
  }

  /** Rejecting twice keeps what rejecting once keeps; no element of a rejection satisfies `p`. */
  lemma {:induction false} RejectIdempotent<T(!new)>(p: T -> bool, s: seq<T>)
    ensures Reject(p, Reject(p, s)) == Reject(p, s)
    ensures Filter(p, Reject(p, s)) == []
  {
    if s != [] {
      RejectIdempotent(p, s[1..]);
    }
  }

  /** Keeping `p` among the elements that fail `q` is a single filter by `r` when `r` is `p && !q`. */
  lemma {:induction false} FilterOfReject<T(!new)>(p: T -> bool, q: T -> bool, r: T -> bool, s: seq<T>)
    requires forall x :: r(x) == (p(x) && !q(x))
    ensures Filter(p, Reject(q, s)) == Filter(r, s)
  {
    if s != [] {
      FilterOfReject(p, q, r, s[1..]);
    }
  }

  /** When the rejection is as long as the sequence, no element of it satisfies `p`. */
  lemma RejectKeepsAll<T(!new)>(p: T -> bool, s: seq<T>)
    requires |Reject(p, s)| == |s|
    ensures forall k :: 0 <= k < |s| ==> !p(s[k])
  {
    FilterRejectSplit(p, s);
    FilterMembership(p, s);
    forall k | 0 <= k < |s|
      ensures !p(s[k])
    {
      assert s[k] in s;
    }
  }
}
