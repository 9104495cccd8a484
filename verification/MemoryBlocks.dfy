/** libc/string.c on one buffer: memset, memcpy, which copies forward whatever the overlap, and memmove. */
module MemoryBlocks {
  import opened CStrings

  /** What a copy of `n` bytes from `src` to `dst` should give. */
  function Moved(b: seq<Byte>, dst: nat, src: nat, n: nat): (r: seq<Byte>)
    requires dst + n <= |b| && src + n <= |b|
    ensures |r| == |b|
  {
    b[..dst] + b[src..src + n] + b[dst + n..]
  }

  /** What copying byte by byte, the lowest first, gives. */
  function CopiedForward(b: seq<Byte>, dst: nat, src: nat, n: nat): (r: seq<Byte>)
    requires dst + n <= |b| && src + n <= |b|
    ensures |r| == |b| && forall k :: 0 <= k < |b| && (k < dst || k >= dst + n) ==> r[k] == b[k]
  {
    if n == 0 then b
    else
      var c := CopiedForward(b, dst, src, n - 1);
      c[dst + n - 1 := c[src + n - 1]]
  }

  method MemSet(a: array<Byte>, at: nat, c: Byte, size: nat)
    requires at + size <= a.Length
    modifies a
    ensures a[..] == old(a[..at]) + seq(size, _ => c) + old(a[at + size..])
  {
    for i := 0 to size
      invariant forall k :: 0 <= k < a.Length ==> a[k] == if at <= k < at + i then c else old(a[k])
    {
      a[at + i] := c;
    }
  }

  method MemCpy(a: array<Byte>, dst: nat, src: nat, n: nat)
    requires dst + n <= a.Length && src + n <= a.Length
    modifies a
    ensures a[..] == CopiedForward(old(a[..]), dst, src, n)
  {
    for i := 0 to n
      invariant a[..] == CopiedForward(old(a[..]), dst, src, i)
    {
      a[dst + i] := a[src + i];
    }
  }

  /** The byte at `dst + j` is what stood at `src + j` when it was its turn. */
  lemma {:induction false} ForwardAt(b: seq<Byte>, dst: nat, src: nat, n: nat, j: nat)
    requires dst + n <= |b| && src + n <= |b| && j < n
    ensures CopiedForward(b, dst, src, n)[dst + j] == CopiedForward(b, dst, src, j)[src + j]
  {
    if j < n - 1 { ForwardAt(b, dst, src, n - 1, j); }
  }

  /** Copying forward is right to lower addresses and between disjoint blocks. */
  lemma {:induction false} ForwardIsRight(b: seq<Byte>, dst: nat, src: nat, n: nat)
    requires dst + n <= |b| && src + n <= |b| && (dst <= src || src + n <= dst)
    ensures CopiedForward(b, dst, src, n) == Moved(b, dst, src, n)
  {
    forall k | 0 <= k < |b| ensures CopiedForward(b, dst, src, n)[k] == Moved(b, dst, src, n)[k] {
      if dst <= k < dst + n { ForwardAt(b, dst, src, n, k - dst); }
    }
  }

  /** And in no other case: some contents are spoiled. */
  lemma MemCpyExact(size: nat, dst: nat, src: nat, n: nat)
    requires dst + n <= size && src + n <= size
    ensures dst <= src || src + n <= dst <==>
      forall b: seq<Byte> | |b| == size :: CopiedForward(b, dst, src, n) == Moved(b, dst, src, n)
  {
    if dst <= src || src + n <= dst {
      forall b: seq<Byte> | |b| == size ensures CopiedForward(b, dst, src, n) == Moved(b, dst, src, n) {
        ForwardIsRight(b, dst, src, n);
      }
    } else {
      var b: seq<Byte> := seq(size, i => if i == src then 1 else 0);
      var d := dst - src;
      ForwardAt(b, dst, src, n, d);
      ForwardAt(b, dst, src, d, 0);
      assert CopiedForward(b, dst, src, n)[dst + d] == 1;
      assert Moved(b, dst, src, n)[dst + d] == b[src + d] == 0;
    }
  }

  lemma ForwardStep(b: seq<Byte>, dst: nat, src: nat, i: nat)
    requires dst + i < |b| && src + i < |b| && dst < src
    ensures Moved(b, dst, src, i)[src + i] == b[src + i]
    ensures Moved(b, dst, src, i)[dst + i := b[src + i]] == Moved(b, dst, src, i + 1)
  {
  }

  lemma BackwardStep(b: seq<Byte>, dst: nat, src: nat, m: nat)
    requires dst + 1 + m <= |b| && src + 1 + m <= |b| && dst >= src
    ensures Moved(b, dst + 1, src + 1, m)[src] == b[src]
    ensures Moved(b, dst + 1, src + 1, m)[dst := b[src]] == Moved(b, dst, src, m + 1)
  {
  }

  /** memmove picks the direction by the addresses, and is right in all cases. */
  method MemMove(a: array<Byte>, dst: nat, src: nat, n: nat)
    requires dst + n <= a.Length && src + n <= a.Length
    modifies a
    ensures a[..] == Moved(old(a[..]), dst, src, n)
  {
    if dst < src {
      MoveUpwards(a, dst, src, n);
    } else {
      MoveDownwards(a, dst, src, n);
    }
  }

  method MoveUpwards(a: array<Byte>, dst: nat, src: nat, n: nat)
    requires dst + n <= a.Length && src + n <= a.Length && dst < src
    modifies a
    ensures a[..] == Moved(old(a[..]), dst, src, n)
  {
    ghost var b := a[..];
    for i := 0 to n
      invariant a[..] == Moved(b, dst, src, i)
    {
      ForwardStep(b, dst, src, i);
      a[dst + i] := a[src + i];
    }
  }

  method MoveDownwards(a: array<Byte>, dst: nat, src: nat, n: nat)
    requires dst + n <= a.Length && src + n <= a.Length && dst >= src
    modifies a
    ensures a[..] == Moved(old(a[..]), dst, src, n)
  {
    ghost var b := a[..];
    var d, s := dst + n, src + n;
    var m := 0;
    assert a[..] == Moved(b, d, s, 0);
    while m < n
      invariant m <= n && d == dst + n - m && s == src + n - m
      invariant a[..] == Moved(b, d, s, m)
    {
      d, s := d - 1, s - 1;
      BackwardStep(b, d, s, m);
      a[d] := a[s];
      m := m + 1;
    }
    assert d == dst && s == src && m == n;
  }
}
