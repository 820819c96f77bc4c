/**
 Bit arrays packed in 32-bit words, as asid_bitmap and the disk's block bitmap are:
 bit i is word i / 32, mask 1 << (i % 32).
 */
module Bitmap {
  type Words = seq<bv32>

  function Mask(k: nat): bv32
    requires k < 32
  {
    1 << k
  }

  function And(w: bv32, m: bv32): bv32 { w & m }

  predicate Test(w: bv32, m: bv32) { And(w, m) != 0 }

  predicate Disjoint(m: bv32, n: bv32) { m & n == 0 }

  function With(w: bv32, m: bv32): bv32 { w | m }

  function Without(w: bv32, m: bv32): bv32 { w & !m }

  predicate Get(w: Words, i: nat)
    requires i < 32 * |w|
  {
    Test(w[i / 32], Mask(i % 32))
  }

  function Set(w: Words, i: nat): Words
    requires i < 32 * |w|
  {
    w[i / 32 := With(w[i / 32], Mask(i % 32))]
  }

  function Clear(w: Words, i: nat): Words
    requires i < 32 * |w|
  {
    w[i / 32 := Without(w[i / 32], Mask(i % 32))]
  }

  /** The bits as booleans, at least `n` of them. */
  ghost function Bits(w: Words, n: nat): (s: seq<bool>)
    requires n <= 32 * |w|
    ensures |s| == n && forall i :: 0 <= i < n ==> s[i] == Get(w, i)
  {
    seq(n, i requires 0 <= i < n => Get(w, i))
  }

  function ShiftOne(a: bv32): bv32
    requires a < 32
  {
    1 << a
  }

  lemma ShiftsDiffer(a: bv32, b: bv32)
    requires a < 32 && b < 32
    ensures ShiftOne(a) != 0
    ensures a != b ==> Disjoint(ShiftOne(a), ShiftOne(b))
  {
  }

  lemma ConversionRoundTrip(k: nat)
    requires k < 32
    ensures (k as bv32) as int == k
  {
  }

  lemma ConversionBelow(k: nat)
    requires k < 32
    ensures k as bv32 < 32
  {
  }

  lemma MaskIsShift(k: nat)
    requires k < 32
    ensures k as bv32 < 32 && Mask(k) == ShiftOne(k as bv32)
  {
    ConversionRoundTrip(k);
    ConversionBelow(k);
  }

  lemma MaskFacts(j: nat, k: nat)
    requires j < 32 && k < 32
    ensures Mask(j) != 0
    ensures j != k ==> Disjoint(Mask(j), Mask(k))
  {
    hide Mask, ShiftOne, Disjoint;
    ConversionRoundTrip(j);
    ConversionRoundTrip(k);
    ConversionBelow(j);
    ConversionBelow(k);
    MaskIsShift(j);
    MaskIsShift(k);
    ShiftsDiffer(j as bv32, k as bv32);
  }

  lemma WithSame(w: bv32, m: bv32)
    requires m != 0
    ensures Test(With(w, m), m)
  {
    hide And, With;
    OrSame(w, m);
  }

  lemma OrSame(w: bv32, m: bv32)
    ensures And(With(w, m), m) == m
  {
  }

  lemma WithoutSame(w: bv32, m: bv32)
    ensures !Test(Without(w, m), m)
  {
  }

  lemma WithOther(w: bv32, m: bv32, n: bv32)
    requires Disjoint(m, n)
    ensures Test(With(w, m), n) == Test(w, n)
  {
    hide And, With, Disjoint;
    OrOther(w, m, n);
  }

  lemma OrOther(w: bv32, m: bv32, n: bv32)
    requires Disjoint(m, n)
    ensures And(With(w, m), n) == And(w, n)
  {
  }

  lemma WithoutOther(w: bv32, m: bv32, n: bv32)
    requires Disjoint(m, n)
    ensures Test(Without(w, m), n) == Test(w, n)
  {
    hide And, Without, Disjoint;
    AndNotOther(w, m, n);
  }

  lemma AndNotOther(w: bv32, m: bv32, n: bv32)
    requires Disjoint(m, n)
    ensures And(Without(w, m), n) == And(w, n)
  {
  }

  /** Setting a bit changes that bit and no other. */
  lemma SetWrites(w: Words, i: nat, j: nat)
    requires i < 32 * |w| && j < 32 * |w|
    ensures Get(Set(w, i), j) <==> i == j || Get(w, j)
  {
    hide Mask;
    hide Test;
    hide With;
    hide Without;
    hide Disjoint;
    MaskFacts(i % 32, j % 32);
    if i == j {
      WithSame(w[i / 32], Mask(i % 32));
    } else if i / 32 == j / 32 {
      WithOther(w[i / 32], Mask(i % 32), Mask(j % 32));
    }
  }

  /** Clearing a bit changes that bit and no other. */
  lemma ClearWrites(w: Words, i: nat, j: nat)
    requires i < 32 * |w| && j < 32 * |w|
    ensures Get(Clear(w, i), j) <==> i != j && Get(w, j)
  {
    hide Mask;
    hide Test;
    hide With;
    hide Without;
    hide Disjoint;
    MaskFacts(i % 32, j % 32);
    if i == j {
      WithoutSame(w[i / 32], Mask(i % 32));
    } else if i / 32 == j / 32 {
      WithoutOther(w[i / 32], Mask(i % 32), Mask(j % 32));
    }
  }

  lemma ClearLength(w: Words, i: nat)
    requires i < 32 * |w|
    ensures |Clear(w, i)| == |w|
  {
  }

  lemma SetBits(w: Words, i: nat, n: nat)
    requires n <= 32 * |w| && i < n
    ensures Bits(Set(w, i), n) == Bits(w, n)[i := true]
    ensures Bits(Clear(w, i), n) == Bits(w, n)[i := false]
  {
    forall j | 0 <= j < n
      ensures Get(Set(w, i), j) == Bits(w, n)[i := true][j]
      ensures Get(Clear(w, i), j) == Bits(w, n)[i := false][j]
    {
      SetWrites(w, i, j);
      ClearWrites(w, i, j);
    }
  }
}
