/** 32-bit machine words, bit by bit, least significant bit first, and the C operators the
    atomic operations use on them. */
module Words {
  import opened Kernel

  const WIDTH: nat := 32

  type Word = w: seq<bool> | |w| == WIDTH witness seq(WIDTH, _ => false)

  function Zero(): Word { seq(WIDTH, _ => false) }

  /** 1U << i */
  function Mask(i: nat): Word
    requires i < WIDTH
  {
    seq(WIDTH, k => k == i)
  }

  function Or(a: Word, b: Word): Word { seq(WIDTH, k requires 0 <= k < WIDTH => a[k] || b[k]) }
  function Xor(a: Word, b: Word): Word { seq(WIDTH, k requires 0 <= k < WIDTH => a[k] != b[k]) }
  function And(a: Word, b: Word): Word { seq(WIDTH, k requires 0 <= k < WIDTH => a[k] && b[k]) }

  predicate NonZero(a: Word) { exists k :: 0 <= k < WIDTH && a[k] }

  /** a + b, wrapping. */
  function Plus(a: Word, b: Word): Word {
    var w := FromNat((ToNat(a) + ToNat(b)) % RANGE, WIDTH);
    w
  }

  function ToNat(bits: seq<bool>): nat {
    if bits == [] then 0 else (if bits[0] then 1 else 0) + 2 * ToNat(bits[1..])
  }

  function FromNat(n: nat, width: nat): (bits: seq<bool>)
    ensures |bits| == width
  {
    if width == 0 then [] else [n % 2 == 1] + FromNat(n / 2, width - 1)
  }

  function Pow2(k: nat): nat {
    if k == 0 then 1 else 2 * Pow2(k - 1)
  }

  lemma {:induction false} FromNatToNat(n: nat, width: nat)
    requires n < Pow2(width)
    ensures ToNat(FromNat(n, width)) == n
  {
    if width > 0 {
      FromNatToNat(n / 2, width - 1);
      assert FromNat(n, width)[1..] == FromNat(n / 2, width - 1);
    }
  }

  lemma {:induction false} Pow2Plus(j: nat, k: nat)
    ensures Pow2(j + k) == Pow2(j) * Pow2(k)
  {
    if k > 0 {
      Pow2Plus(j, k - 1);
    }
  }

  lemma RangeIsPow2()
    ensures Pow2(WIDTH) == RANGE
  {
    assert Pow2(2) == 4;
    Pow2Plus(2, 2);
    Pow2Plus(4, 4);
    Pow2Plus(8, 8);
    Pow2Plus(16, 16);
  }

  /** Addition of words is addition modulo 2^32. */
  lemma PlusIsModular(a: Word, b: Word)
    ensures ToNat(Plus(a, b)) == (ToNat(a) + ToNat(b)) % RANGE
  {
    RangeIsPow2();
    FromNatToNat((ToNat(a) + ToNat(b)) % RANGE, WIDTH);
  }

  /** Bit j of the three mask operations. */
  lemma MaskedBits(w: Word, i: nat, j: nat)
    requires i < WIDTH && j < WIDTH
    ensures Or(w, Mask(i))[j] == (w[j] || i == j)
    ensures Xor(w, Mask(i))[j] == (w[j] != (i == j))
    ensures NonZero(And(w, Mask(i))) <==> w[i]
  {
    if w[i] {
      assert And(w, Mask(i))[i];
    }
  }
}
