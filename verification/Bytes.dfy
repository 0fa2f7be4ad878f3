/**
 Optional values, and bytes as they lie on the device: little-endian 16- and 32-bit words and runs of
 zeros.
 */
module Bytes {

  datatype Option<+T> = None | Some(value: T)

  type byte = x: int | 0 <= x < 256

  /** Size of a block, and of a log page. */
  const PAGE := 4096

  const TWO16 := 0x1_0000
  const TWO24 := 0x100_0000
  const TWO32 := 0x1_0000_0000
  const TWO40 := 0x100_0000_0000

  function Min(a: int, b: int): int {
    if a <= b then a else b
  }

  function Zeros(n: nat): (s: seq<byte>)
    ensures |s| == n
    ensures forall i :: 0 <= i < n ==> s[i] == 0
  {
    seq(n, _ => 0)
  }

  /** The two bytes of a 16-bit word; higher bits are cut off. */
  function Le16(n: nat): (s: seq<byte>)
    ensures |s| == 2
  {
    [n % 256, n / 256 % 256]
  }

  /** The four bytes of a 32-bit word; higher bits are cut off. */
  function Le32(n: nat): (s: seq<byte>)
    ensures |s| == 4
  {
    Le16(n) + Le16(n / TWO16)
  }

  function From16(s: seq<byte>): (n: nat)
    requires |s| == 2
    ensures n < TWO16
  {
    var lo: int, hi: int := s[0], s[1];
    lo + 256 * hi
  }

  function From32(s: seq<byte>): (n: nat)
    requires |s| == 4
    ensures n < TWO32
  {
    From16(s[..2]) + TWO16 * From16(s[2..])
  }

  lemma {:induction false} MulNonnegative(m: nat, x: nat)
    ensures m * x >= 0
    decreases x
  {
    if x > 0 {
      MulNonnegative(m, x - 1);
      assert m * x == m * (x - 1) + m;
    }
  }

  lemma MulLarge(m: int, x: int)
    requires m > 0 && x != 0
    ensures m * x >= m || m * x <= -m
  {
    if x > 0 {
      MulNonnegative(m, x - 1);
      assert m * x == m * (x - 1) + m;
    } else {
      MulNonnegative(m, -x - 1);
      assert m * x == -(m * (-x - 1)) - m;
    }
  }

  /** Quotient and remainder are determined by the decomposition. */
  lemma ModUnique(n: int, m: int, k: int, r: int)
    requires 0 <= r < m && n == m * k + r
    ensures n % m == r && n / m == k
  {
    var q, t := n / m, n % m;
    assert m * (q - k) == r - t;
    if q != k {
      MulLarge(m, q - k);
    }
  }

  lemma Le16RoundTrip(n: nat)
    ensures From16(Le16(n)) == n % TWO16
  {
    var q := n / 256;
    ModUnique(n, TWO16, q / 256, 256 * (q % 256) + n % 256);
  }

  lemma Le32RoundTrip(n: nat)
    ensures From32(Le32(n)) == n % TWO32
  {
    hide Le16, From16;
    var q := n / TWO16;
    assert Le32(n)[..2] == Le16(n) && Le32(n)[2..] == Le16(q);
    Le16RoundTrip(n);
    Le16RoundTrip(q);
    ModUnique(n, TWO32, q / TWO16, TWO16 * (q % TWO16) + n % TWO16);
  }

  /** A word is zero exactly when its four bytes are. */
  lemma ZeroWord(s: seq<byte>)
    requires |s| == 4
    ensures s == Zeros(4) <==> From32(s) == 0
  {
    if From32(s) == 0 {
      assert s[0] == 0 && s[1] == 0 && s[2] == 0 && s[3] == 0;
    }
  }

  lemma SliceOfSlice<T>(s: seq<T>, a: nat, b: nat, i: nat, j: nat)
    requires a <= b <= |s| && i <= j <= b - a
    ensures s[a..b][i..j] == s[a + i..a + j]
  {
    var x, y := s[a..b][i..j], s[a + i..a + j];
    forall k | 0 <= k < j - i ensures x[k] == y[k] {
    }
  }
}
