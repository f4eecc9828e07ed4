/** memcpy and memmove of src/rt/crt.c, on one memory in which the blocks may overlap. */
module Memory {

  /** Both blocks lie inside the memory. */
  predicate Inside(size: nat, dst: nat, src: nat, n: nat) {
    dst + n <= size && src + n <= size
  }

  /** The memory after n bytes have moved as if through a buffer. */
  function Moved(m: seq<bv8>, dst: nat, src: nat, n: nat): (r: seq<bv8>)
    requires Inside(|m|, dst, src, n)
    ensures |r| == |m|
  {
    m[..dst] + m[src..src + n] + m[dst + n..]
  }

  lemma MovedAt(m: seq<bv8>, dst: nat, src: nat, n: nat, r: seq<bv8>)
    requires Inside(|m|, dst, src, n) && |r| == |m|
    requires forall i :: dst <= i < dst + n ==> r[i] == m[i - dst + src]
    requires forall i :: 0 <= i < |m| && !(dst <= i < dst + n) ==> r[i] == m[i]
    ensures r == Moved(m, dst, src, n)
  {
  }

  /** memmove copies upwards or downwards, so that no byte is overwritten before it is read. */
  method Memmove(m: array<bv8>, dst: nat, src: nat, n: nat)
    requires Inside(m.Length, dst, src, n)
    modifies m
    ensures m[..] == Moved(old(m[..]), dst, src, n)
  {
    ghost var was := m[..];
    if dst == src || n == 0 {
      assert m[..] == Moved(was, dst, src, n);
      return;
    }
    if dst < src {
      for i := 0 to n
        invariant forall j :: dst <= j < dst + i ==> m[j] == was[j - dst + src]
        invariant forall j :: 0 <= j < m.Length && !(dst <= j < dst + i) ==> m[j] == was[j]
      {
        m[dst + i] := m[src + i];
      }
    } else {
      for i := n downto 0
        invariant forall j :: dst + i <= j < dst + n ==> m[j] == was[j - dst + src]
        invariant forall j :: 0 <= j < m.Length && !(dst + i <= j < dst + n) ==> m[j] == was[j]
      {
        m[dst + i] := m[src + i];
      }
    }
    MovedAt(was, dst, src, n, m[..]);
  }

  /** The memory after n bytes have been copied upwards, one by one. */
  function CopiedUp(m: seq<bv8>, dst: nat, src: nat, n: nat): (r: seq<bv8>)
    requires Inside(|m|, dst, src, n)
    ensures |r| == |m|
  {
    if n == 0 then m
    else
      var p := CopiedUp(m, dst, src, n - 1);
      p[dst + n - 1 := p[src + n - 1]]
  }

  /** memcpy always copies upwards. */
  method Memcpy(m: array<bv8>, dst: nat, src: nat, n: nat)
    requires Inside(m.Length, dst, src, n)
    modifies m
    ensures m[..] == CopiedUp(old(m[..]), dst, src, n)
  {
    for i := 0 to n
      invariant m[..] == CopiedUp(old(m[..]), dst, src, i)
    {
      m[dst + i] := m[src + i];
    }
  }

  /** What is not written yet is as it was. */
  lemma {:induction false} Unwritten(m: seq<bv8>, dst: nat, src: nat, n: nat, j: nat)
    requires Inside(|m|, dst, src, n) && j < |m| && !(dst <= j < dst + n)
    ensures CopiedUp(m, dst, src, n)[j] == m[j]
    decreases n
  {
    if n > 0 {
      Unwritten(m, dst, src, n - 1, j);
    }
  }

  /** What has been written stays. */
  lemma {:induction false} Written(m: seq<bv8>, dst: nat, src: nat, n: nat, i: nat)
    requires Inside(|m|, dst, src, n) && i < n
    ensures CopiedUp(m, dst, src, n)[dst + i] == CopiedUp(m, dst, src, i)[src + i]
    decreases n
  {
    if i < n - 1 {
      Written(m, dst, src, n - 1, i);
    }
  }

  /** The destination does not begin inside the source behind its first byte. */
  predicate CopiesClean(dst: nat, src: nat, n: nat) {
    dst <= src || src + n <= dst
  }

  lemma {:induction false} CleanCopyMoves(m: seq<bv8>, dst: nat, src: nat, n: nat)
    requires Inside(|m|, dst, src, n) && CopiesClean(dst, src, n)
    ensures CopiedUp(m, dst, src, n) == Moved(m, dst, src, n)
  {
    hide CopiedUp;
    var r := CopiedUp(m, dst, src, n);
    forall i | dst <= i < dst + n ensures r[i] == m[i - dst + src] {
      Written(m, dst, src, n, i - dst);
      Unwritten(m, dst, src, i - dst, i - dst + src);
    }
    forall i | 0 <= i < |m| && !(dst <= i < dst + n) ensures r[i] == m[i] {
      Unwritten(m, dst, src, n, i);
    }
    MovedAt(m, dst, src, n, r);
  }

  /** Otherwise a byte that is still to be read is overwritten, and memories tell the difference. */
  lemma {:induction false} SmearedCopy(size: nat, dst: nat, src: nat, n: nat) returns (m: seq<bv8>)
    requires Inside(size, dst, src, n) && !CopiesClean(dst, src, n)
    ensures |m| == size && CopiedUp(m, dst, src, n) != Moved(m, dst, src, n)
  {
    hide CopiedUp;
    m := seq(size, i => if i == src then 1 else 0);
    var e := dst - src;
    Written(m, dst, src, n, e);
    Written(m, dst, src, e, 0);
    Unwritten(m, dst, src, 0, src);
    assert CopiedUp(m, dst, src, n)[dst + e] == 1;
    assert Moved(m, dst, src, n)[dst + e] == m[src + e];
  }

  /** memcpy does the work of memmove for every content of the memory exactly when the
      destination does not begin inside the source. */
  lemma {:induction false} MemcpyIsMemmove(size: nat, dst: nat, src: nat, n: nat)
    requires Inside(size, dst, src, n)
    ensures (forall m: seq<bv8> :: |m| == size ==> CopiedUp(m, dst, src, n) == Moved(m, dst, src, n))
       <==> CopiesClean(dst, src, n)
  {
    if CopiesClean(dst, src, n) {
      forall m: seq<bv8> | |m| == size ensures CopiedUp(m, dst, src, n) == Moved(m, dst, src, n) {
        CleanCopyMoves(m, dst, src, n);
      }
    } else {
      var m := SmearedCopy(size, dst, src, n);
    }
  }
}
