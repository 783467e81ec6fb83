/** Splitting a sequence into consecutive batches, as Rust's `slice::chunks`
    does; the store's sub-batches, the driver's chunks and the batched export
    are all built this way. Also the two integer helpers the drivers use:
    ceiling division and `2u64.pow`. */
module Batches {

  /** Rust's `usize::div_ceil`: the quotient, plus one when there is a remainder. */
  function DivCeil(n: nat, size: nat): (q: nat)
    requires size > 0
    ensures q * size >= n
    ensures (q - 1) * size < n
  {
    var d, r := n / size, n % size;
    assert n == d * size + r;
    if r > 0 then d + 1 else d
  }

  /** The hand-written ceiling `(n + size - 1) / size`. */
  function AddDivCeil(n: nat, size: nat): (q: nat)
    requires size > 0
  {
    (n + size - 1) / size
  }

  /** Multiplying by a non-negative number keeps the order. */
  lemma MulLe(a: int, b: int, c: nat)
    requires a <= b
    ensures a * c <= b * c
  {
    var d := b - a;
    assert b * c == a * c + d * c;
  }

  lemma MulPred(q: int, c: int)
    ensures (q - 1) * c == q * c - c
  {
  }

  lemma MulSucc(q: int, c: int)
    ensures (q + 1) * c == q * c + c
  {
  }

  /** At most one number q has q * size >= n > (q - 1) * size. */
  lemma CeilingUnique(n: nat, size: nat, q1: nat, q2: nat)
    requires size > 0
    requires q1 * size >= n && (q1 - 1) * size < n
    requires q2 * size >= n && (q2 - 1) * size < n
    ensures q1 == q2
  {
    if q1 < q2 {
      MulLe(q1, q2 - 1, size);
    } else if q2 < q1 {
      MulLe(q2, q1 - 1, size);
    }
  }

  /** The two ways the drivers compute the number of chunks agree. */
  lemma AddDivCeilIsDivCeil(n: nat, size: nat)
    requires size > 0
    ensures AddDivCeil(n, size) == DivCeil(n, size)
  {
    var m := n + size - 1;
    var q := m / size;
    assert m == q * size + m % size;
    MulPred(q, size);
    CeilingUnique(n, size, q, DivCeil(n, size));
  }

  /** The concatenation of a sequence of batches. */
  function Flatten<T>(cs: seq<seq<T>>): seq<T>
  {
    if cs == [] then [] else cs[0] + Flatten(cs[1..])
  }

  lemma {:induction false} FlattenConcat<T>(a: seq<seq<T>>, b: seq<seq<T>>)
    ensures Flatten(a + b) == Flatten(a) + Flatten(b)
  {
    if a == [] {
      assert a + b == b;
    } else {
      assert (a + b)[1..] == a[1..] + b;
      FlattenConcat(a[1..], b);
    }
  }

  /** `s.chunks(size)`: consecutive pieces of `size` elements, the last one
      possibly shorter (see ChunksShape). */
  function Chunks<T>(s: seq<T>, size: nat): seq<seq<T>>
    requires size > 0
    decreases |s|
  {
    if s == [] then []
    else if |s| <= size then [s]
    else [s[..size]] + Chunks(s[size..], size)
  }

  /** The chunks are non-empty, cover `s` in order without overlap, and
      every chunk but the last has exactly `size` elements. */
  lemma {:induction false} ChunksShape<T>(s: seq<T>, size: nat)
    requires size > 0
    ensures Flatten(Chunks(s, size)) == s
    ensures forall i | 0 <= i < |Chunks(s, size)| :: 0 < |Chunks(s, size)[i]| <= size
    ensures forall i | 0 <= i < |Chunks(s, size)| - 1 :: |Chunks(s, size)[i]| == size
    decreases |s|
  {
    var cs := Chunks(s, size);
    if s == [] {
    } else if |s| <= size {
      assert cs == [s];
      assert Flatten([s]) == s + Flatten([s][1..]);
    } else {
      var rest := Chunks(s[size..], size);
      ChunksShape(s[size..], size);
      assert cs == [s[..size]] + rest;
      assert cs[1..] == rest;
      assert s == s[..size] + s[size..];
      forall i | 0 <= i < |cs|
        ensures 0 < |cs[i]| <= size && (i < |cs| - 1 ==> |cs[i]| == size)
      {
        if i > 0 { assert cs[i] == rest[i - 1]; }
      }
    }
  }

  /** There are exactly ceil(|s| / size) chunks. */
  lemma {:induction false} ChunkCount<T>(s: seq<T>, size: nat)
    requires size > 0
    ensures |Chunks(s, size)| == DivCeil(|s|, size)
    decreases |s|
  {
    var q := |Chunks(s, size)|;
    if s == [] {
    } else if |s| <= size {
      CeilingUnique(|s|, size, 1, DivCeil(|s|, size));
    } else {
      ChunkCount(s[size..], size);
      var q' := DivCeil(|s| - size, size);
      assert q == q' + 1;
      MulSucc(q', size);
      MulPred(q', size);
      CeilingUnique(|s|, size, q, DivCeil(|s|, size));
    }
  }

  function Min(a: int, b: int): int { if a <= b then a else b }

  /** Chunk i is the slice s[i*size .. min((i+1)*size, |s|)]. */
  lemma {:induction false} ChunkAt<T>(s: seq<T>, size: nat, i: nat)
    requires size > 0
    requires i < |Chunks(s, size)|
    ensures i * size < |s|
    ensures Chunks(s, size)[i] == s[i * size .. Min((i + 1) * size, |s|)]
    decreases |s|
  {
    if i == 0 {
      assert i * size == 0 && (i + 1) * size == size;
    } else {
      ChunkAt(s[size..], size, i - 1);
      MulPred(i, size);
      MulSucc(i, size);
      ChunkAtStep(s, size, i, (i - 1) * size, i * size, (i + 1) * size);
    }
  }

  /** The step of ChunkAt, with the offsets a = (i-1)*size, b = i*size and
      c = (i+1)*size passed in: chunk i of s is chunk i - 1 of s[size..],
      shifted by size. */
  lemma ChunkAtStep<T>(s: seq<T>, size: nat, i: nat, a: nat, b: nat, c: nat)
    requires size > 0 && 0 < i < |Chunks(s, size)| && |s| > size
    requires b == a + size && c == b + size
    requires a < |s| - size
    requires Chunks(s[size..], size)[i - 1] == s[size..][a .. Min(b, |s| - size)]
    ensures b < |s|
    ensures Chunks(s, size)[i] == s[b .. Min(c, |s|)]
  {
    var rest := Chunks(s[size..], size);
    var cs := Chunks(s, size);
    assert cs == [s[..size]] + rest;
    assert cs[i] == rest[i - 1];
    var hi := Min(b, |s| - size);
    assert hi + size == Min(c, |s|);
    SliceOfSuffix(s, size, a, hi);
  }

  lemma SliceOfSuffix<T>(s: seq<T>, k: nat, lo: nat, hi: nat)
    requires k <= |s| && lo <= hi <= |s| - k
    ensures s[k..][lo..hi] == s[lo + k .. hi + k]
  {
  }

  /** The first p chunks, put back together, are the prefix of s of length
      min(p * size, |s|). */
  lemma {:induction false} FlattenChunksPrefix<T>(s: seq<T>, size: nat, p: nat)
    requires size > 0
    requires p <= |Chunks(s, size)|
    ensures Flatten(Chunks(s, size)[..p]) == s[..Min(p * size, |s|)]
    decreases |s|
  {
    var cs := Chunks(s, size);
    if p == 0 {
      assert cs[..p] == [];
    } else if |s| <= size {
      assert cs[..p] == [s];
      assert Flatten([s]) == s + Flatten([s][1..]);
      MulLe(1, p, size);
    } else {
      var rest := Chunks(s[size..], size);
      assert cs == [s[..size]] + rest;
      FlattenChunksPrefix(s[size..], size, p - 1);
      assert cs[..p] == [s[..size]] + rest[..p - 1];
      assert (cs[..p])[1..] == rest[..p - 1];
      MulPred(p, size);
      assert s[..Min(p * size, |s|)] == s[..size] + s[size..][..Min((p - 1) * size, |s| - size)];
    }
  }

  /** `2u64.pow(k)`. */
  function Pow2(k: nat): (p: nat)
    ensures p >= 1
  {
    if k == 0 then 1 else 2 * Pow2(k - 1)
  }
}
