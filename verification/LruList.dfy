/** The buffer cache's doubly linked list (bio.c). Buffers are numbered
    0..cap-1 and the list head is number cap; `next` and `prev` are the links. */
module LruList {

  /** The index after k, and the index before k, in a ring of n nodes. */
  function Succ(n: nat, k: nat): nat { if k + 1 >= n then 0 else k + 1 }
  function Pred(n: nat, k: nat): int { if k == 0 then n - 1 else k - 1 }

  ghost predicate Distinct(r: seq<nat>, bound: nat) {
    && (forall k :: 0 <= k < |r| ==> r[k] < bound)
    && (forall j, k :: 0 <= j < k < |r| ==> r[j] != r[k])
  }

  /** Following next from r[0] visits r in order and returns to r[0]. */
  ghost predicate Forward(next: seq<nat>, r: seq<nat>) {
    && Distinct(r, |next|)
    && forall k :: 0 <= k < |r| ==> next[r[k]] == r[Succ(|r|, k)]
  }

  /** Following prev visits r backwards. */
  ghost predicate Backward(prev: seq<nat>, r: seq<nat>) {
    && Distinct(r, |prev|)
    && forall k :: 0 <= k < |r| ==> prev[r[k]] == r[Pred(|r|, k)]
  }

  function Without(r: seq<nat>, k: nat): seq<nat>
    requires k < |r|
  {
    r[..k] + r[k+1..]
  }

  lemma DistinctWithout(r: seq<nat>, bound: nat, k: nat)
    requires Distinct(r, bound) && k < |r|
    ensures Distinct(Without(r, k), bound)
  {
  }

  lemma UnlinkForward(next: seq<nat>, r: seq<nat>, k: nat)
    requires Forward(next, r) && 0 < k < |r|
    ensures Forward(next[r[k-1] := next[r[k]]], Without(r, k))
  {
    var r' := Without(r, k);
    DistinctWithout(r, |next|, k);
    forall j | 0 <= j < |r'|
      ensures next[r[k-1] := next[r[k]]][r'[j]] == r'[Succ(|r'|, j)]
    {
      var i := if j < k then j else j + 1;
      assert r'[j] == r[i] && next[r[i]] == r[Succ(|r|, i)];
    }
  }

  lemma UnlinkBackward(prev: seq<nat>, r: seq<nat>, k: nat)
    requires Backward(prev, r) && 0 < k < |r|
    ensures Backward(prev[r[Succ(|r|, k)] := prev[r[k]]], Without(r, k))
  {
    var r' := Without(r, k);
    DistinctWithout(r, |prev|, k);
    forall j | 0 <= j < |r'|
      ensures prev[r[Succ(|r|, k)] := prev[r[k]]][r'[j]] == r'[Pred(|r'|, j)]
    {
      var i := if j < k then j else j + 1;
      assert r'[j] == r[i] && prev[r[i]] == r[Pred(|r|, i)];
    }
  }

  lemma PushForward(next: seq<nat>, r: seq<nat>, b: nat)
    requires Forward(next, r) && 0 < |r| && b < |next| && b !in r
    ensures Forward(next[b := next[r[0]]][r[0] := b], [r[0], b] + r[1..])
  {
    var r', next' := [r[0], b] + r[1..], next[b := next[r[0]]][r[0] := b];
    assert forall j :: 2 <= j < |r'| ==> r'[j] == r[j-1];
    forall j | 0 <= j < |r'|
      ensures next'[r'[j]] == r'[Succ(|r'|, j)]
    {
      if j >= 2 {
        assert next[r[j-1]] == r[Succ(|r|, j - 1)];
      } else {
        assert next[r[0]] == r[Succ(|r|, 0)];
      }
    }
  }

  lemma PushBackward(prev: seq<nat>, r: seq<nat>, b: nat)
    requires Backward(prev, r) && 0 < |r| && b < |prev| && b !in r
    ensures Backward(prev[b := r[0]][r[Succ(|r|, 0)] := b], [r[0], b] + r[1..])
  {
    var r', prev' := [r[0], b] + r[1..], prev[b := r[0]][r[Succ(|r|, 0)] := b];
    assert forall j :: 2 <= j < |r'| ==> r'[j] == r[j-1];
    forall j | 0 <= j < |r'|
      ensures prev'[r'[j]] == r'[Pred(|r'|, j)]
    {
      if j >= 2 {
        assert prev[r[j-1]] == r[Pred(|r|, j - 1)];
      } else {
        assert prev[r[0]] == r[Pred(|r|, 0)];
      }
    }
  }

  lemma PushMembers(r: seq<nat>, b: nat)
    requires 0 < |r|
    ensures forall x :: x in [r[0], b] + r[1..] <==> x == b || x in r
  {
    assert r == [r[0]] + r[1..];
  }

  class List {
    const cap: nat
    var next: seq<nat>
    var prev: seq<nat>
    /** The head, then the buffers from the most to the least recently used. */
    ghost var ring: seq<nat>

    ghost predicate Linked()
      reads this
    {
      && |next| == |prev| == cap + 1
      && 0 < |ring| && ring[0] == cap
      && Forward(next, ring) && Backward(prev, ring)
    }

    /** Every buffer is on the ring, once. */
    ghost predicate Valid()
      reads this
    {
      Linked() && |ring| == cap + 1 && forall b :: 0 <= b <= cap ==> b in ring
    }

    /** Link b in behind the head. */
    method Push(b: nat)
      requires Linked() && b < cap && b !in ring
      modifies this
      ensures Linked() && ring == [cap, b] + old(ring)[1..]
      ensures forall x :: x in ring <==> x == b || x in old(ring)
    {
      PushMembers(ring, b);
      PushForward(next, ring, b);
      PushBackward(prev, ring, b);
      next := next[b := next[cap]];
      prev := prev[b := cap];
      prev := prev[next[cap] := b];
      next := next[cap := b];
      ring := [ring[0], b] + ring[1..];
    }

    /** Take b, the kth node of the ring, out of it. */
    method Unlink(b: nat, ghost k: nat)
      requires Linked() && 0 < k < |ring| && ring[k] == b
      modifies this
      ensures Linked() && ring == Without(old(ring), k)
    {
      UnlinkForward(next, ring, k);
      UnlinkBackward(prev, ring, k);
      prev := prev[next[b] := prev[b]];
      next := next[prev[b] := next[b]];
      ring := Without(ring, k);
    }

    /** binit: link every buffer in, so that the last one is the most recently used. */
    constructor (n: nat)
      ensures Valid() && cap == n && forall k :: 1 <= k <= n ==> ring[k] == n - k
    {
      cap := n;
      next := seq(n + 1, _ => n);
      prev := seq(n + 1, _ => n);
      ring := [n];
      new;
      var b := 0;
      while b < cap
        invariant b <= cap && Linked() && |ring| == b + 1
        invariant forall x :: 0 <= x < b ==> x in ring
        invariant forall x :: b <= x < cap ==> x !in ring
        invariant forall k :: 1 <= k <= b ==> ring[k] == b - k
      {
        Push(b);
        b := b + 1;
      }
    }

    /** brelse's relinking: b becomes the most recently used buffer. */
    method MoveToFront(b: nat, ghost k: nat)
      requires Valid() && 0 < k <= cap && ring[k] == b
      modifies this
      ensures Valid()
      ensures ring == [cap, b] + Without(old(ring), k)[1..]
    {
      ghost var r := ring;
      Unlink(b, k);
      assert forall x :: x in r <==> x in ring || x == b by {
        assert r == r[..k] + [b] + r[k+1..];
      }
      Push(b);
    }
  }
}
