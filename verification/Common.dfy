/** Shared value types. */
module Wrappers {
  datatype Option<+T> = None | Some(value: T)
}

/** How large finite sets are. */
module Sets {
  lemma SubsetSize<T>(a: set<T>, b: set<T>)
    requires a <= b
    ensures |a| <= |b|
  {
    assert b == a + (b - a) && a !! (b - a);
  }

  lemma ProperSubsetSize<T>(a: set<T>, b: set<T>)
    requires a < b
    ensures |a| < |b|
  {
    assert b == a + (b - a) && a !! (b - a);
    assert b - a != {};
  }
}

/** The buffer routines of common.c, on arrays addressed by offset. */
module Common {
  import opened Riscv

  method Memset<T>(a: array<T>, dst: nat, c: T, n: nat)
    requires dst + n <= a.Length
    modifies a
    ensures forall k :: 0 <= k < a.Length ==> a[k] == if dst <= k < dst + n then c else old(a[k])
  {
    var i := 0;
    while i < n
      invariant 0 <= i <= n
      invariant forall k :: 0 <= k < a.Length ==> a[k] == if dst <= k < dst + i then c else old(a[k])
    {
      a[dst + i] := c;
      i := i + 1;
    }
  }

  /** What a forward byte-by-byte copy puts at offset k of the destination: the source byte, but when the destination
      starts inside the source, bytes already copied are copied again, so that the start of the source repeats. */
  function ForwardIndex(dst: nat, src: nat, k: nat): (i: nat)
    ensures i <= k && (dst <= src || k < dst - src ==> i == k)
  {
    if src < dst then k % (dst - src) else k
  }

  lemma ForwardStep(dst: nat, src: nat, k: nat)
    requires src < dst && dst - src <= k
    ensures ForwardIndex(dst, src, k - (dst - src)) == ForwardIndex(dst, src, k)
  {
    var d, j := dst - src, k - (dst - src);
    assert k == (j / d + 1) * d + j % d by { assert (j / d + 1) * d == j / d * d + d; }
    DivModOf(j / d + 1, j % d, d);
  }

  /** Copies forward, byte by byte. */
  method Memcpy<T>(a: array<T>, dst: nat, src: nat, n: nat)
    requires dst + n <= a.Length && src + n <= a.Length
    modifies a
    ensures forall k :: 0 <= k < a.Length ==>
              a[k] == if dst <= k < dst + n then old(a[src + ForwardIndex(dst, src, k - dst)]) else old(a[k])
  {
    hide ForwardIndex;
    var i := 0;
    while i < n
      invariant 0 <= i <= n
      invariant forall k :: 0 <= k < a.Length ==>
                  a[k] == if dst <= k < dst + i then old(a[src + ForwardIndex(dst, src, k - dst)]) else old(a[k])
    {
      if src < dst && dst - src <= i {
        ForwardStep(dst, src, i);
      }
      a[dst + i] := a[src + i];
      i := i + 1;
    }
  }

  /** A forward copy is the plain copy exactly if the destination does not start inside the source. */
  lemma ForwardIsPlain(dst: nat, src: nat, n: nat)
    ensures (forall k: nat :: k < n ==> ForwardIndex(dst, src, k) == k) <==> dst <= src || src + n <= dst
  {
    if src < dst < src + n {
      assert (dst - src) % (dst - src) == 0;
      assert ForwardIndex(dst, src, dst - src) == 0;
    }
  }

  /** Copies as if through a temporary, however the two ranges overlap. */
  method Memmove<T>(a: array<T>, dst: nat, src: nat, n: nat)
    requires dst + n <= a.Length && src + n <= a.Length
    modifies a
    ensures forall k :: 0 <= k < a.Length ==> a[k] == if dst <= k < dst + n then old(a[src + (k - dst)]) else old(a[k])
  {
    if src > dst {
      var i := 0;
      while i < n
        invariant 0 <= i <= n
        invariant forall k :: 0 <= k < a.Length ==>
                  a[k] == if dst <= k < dst + i then old(a[src + (k - dst)]) else old(a[k])
      {
        a[dst + i] := a[src + i];
        i := i + 1;
      }
    } else {
      var i := n;
      while i > 0
        invariant 0 <= i <= n
        invariant forall k :: 0 <= k < a.Length ==>
                  a[k] == if dst + i <= k < dst + n then old(a[src + (k - dst)]) else old(a[k])
      {
        i := i - 1;
        a[dst + i] := a[src + i];
      }
    }
  }
}
