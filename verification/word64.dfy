/** The 64-bit unsigned word of the immediate arithmetic, as its 64 bit positions
    (position 0 is the least significant). Two words are equal exactly when all
    their bits are, so results about words can be stated bit by bit. */
module Word64 {

  type Word = w: seq<bool> | |w| == 64 witness seq(64, _ => false)

  function Zero(): Word {
    seq(64, _ => false)
  }

  // x | y, x & y, x << n, x >> n.
  function Or(x: Word, y: Word): Word {
    seq(64, i requires 0 <= i < 64 => x[i] || y[i])
  }

  function And(x: Word, y: Word): Word {
    seq(64, i requires 0 <= i < 64 => x[i] && y[i])
  }

  function Shl(x: Word, n: nat): Word {
    seq(64, i requires 0 <= i < 64 => n <= i && x[i - n])
  }

  function Shr(x: Word, n: nat): Word {
    seq(64, i requires 0 <= i < 64 => i + n < 64 && x[i + n])
  }

  // The low n bits: (1 << n) - 1, and the full word from n == 64 on.
  function Low(n: nat): Word {
    seq(64, i requires 0 <= i < 64 => i < n)
  }

  // How many of the first n positions of x are set.
  function CountBelow(x: Word, n: nat): nat
    requires n <= 64
  {
    if n == 0 then 0 else CountBelow(x, n - 1) + (if x[n - 1] then 1 else 0)
  }

  // The number a word stands for, reading only its first n positions.
  function ValueBelow(x: Word, n: nat): nat
    requires n <= 64
  {
    if n == 0 then 0 else ValueBelow(x, n - 1) + (if x[n - 1] then Pow2(n - 1) else 0)
  }

  function Pow2(n: nat): (p: nat)
    ensures p > 0
  {
    if n == 0 then 1 else 2 * Pow2(n - 1)
  }

  // Low(n) has the value 2^n - 1, read up to any position.
  lemma {:induction false} LowIsPow2Minus1(n: nat, k: nat)
    requires n <= 64 && k <= 64
    ensures ValueBelow(Low(n), k) == Pow2(if k < n then k else n) - 1
  {
    if k > 0 { LowIsPow2Minus1(n, k - 1); }
  }

  lemma {:induction false} SameValueSameBits(x: Word, y: Word, n: nat)
    requires n <= 64 && ValueBelow(x, n) == ValueBelow(y, n)
    ensures forall i | 0 <= i < n :: x[i] == y[i]
  {
    if n > 0 {
      ValueBound(x, n - 1);
      ValueBound(y, n - 1);
      SameValueSameBits(x, y, n - 1);
    }
  }

  // The word whose value is 2^n - 1 is Low(n), and no other word is.
  lemma OnesIsLow(x: Word, n: nat)
    requires n <= 64
    ensures ValueBelow(x, 64) == Pow2(n) - 1 <==> x == Low(n)
  {
    LowIsPow2Minus1(n, 64);
    if ValueBelow(x, 64) == Pow2(n) - 1 { SameValueSameBits(x, Low(n), 64); }
  }

  lemma {:induction false} ValueBound(x: Word, n: nat)
    requires n <= 64
    ensures ValueBelow(x, n) < Pow2(n)
  {
    if n > 0 { ValueBound(x, n - 1); }
  }

  // --- Division. ---

  lemma ModUnique(n: int, q: int, rem: nat, e: nat)
    requires 0 <= rem < e && n == q * e + rem
    ensures n % e == rem && n / e == q
  {
    var q', rem' := n / e, n % e;
    assert n == q' * e + rem';
    assert (q - q') * e == q * e - q' * e == -((q' - q) * e);
    if q > q' {
      MulAtLeast(q - q', e);
    } else if q < q' {
      MulAtLeast(q' - q, e);
    }
  }

  lemma MulAtLeast(k: int, e: nat)
    requires k >= 1
    ensures k * e >= e
  {
    assert k * e == (k - 1) * e + e;
  }
}
