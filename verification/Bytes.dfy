/** Bytes, little-endian numbers and the byte-order helpers of nr_base.hpp. */
module Bytes {

  type Byte = b: int | 0 <= b < 256

  function Pow256(w: nat): (p: nat)
    ensures p > 0
  {
    if w == 0 then 1 else 256 * Pow256(w - 1)
  }

  function Zeros(n: nat): (s: seq<Byte>)
    ensures |s| == n && forall i :: 0 <= i < n ==> s[i] == 0
  {
    seq(n, i => 0)
  }

  /** The memory image of a w-byte unsigned integer on a little-endian machine. */
  function LittleEndian(n: nat, w: nat): (s: seq<Byte>)
    ensures |s| == w
    decreases w, n
  {
    if w == 0 then [] else [n % 256] + LittleEndian(n / 256, w - 1)
  }

  /** The integer a little-endian machine reads from a memory image. */
  function Number(s: seq<Byte>): nat {
    if s == [] then 0 else s[0] + 256 * Number(s[1..])
  }

  function Digit(n: nat, i: nat): nat {
    n / Pow256(i) % 256
  }

  lemma {:induction false} NumberOfImage(n: nat, w: nat)
    requires n < Pow256(w)
    ensures Number(LittleEndian(n, w)) == n
    decreases w
  {
    if w == 0 {
    } else {
      NumberOfImage(n / 256, w - 1);
      assert LittleEndian(n, w)[1..] == LittleEndian(n / 256, w - 1);
    }
  }

  lemma {:induction false} ImageOfNumber(s: seq<Byte>)
    ensures Number(s) < Pow256(|s|)
    ensures LittleEndian(Number(s), |s|) == s
  {
    if s == [] {
    } else {
      ImageOfNumber(s[1..]);
      assert s == [s[0]] + s[1..];
    }
  }

  lemma {:induction false} NumberOfZerosThen(k: nat, t: seq<Byte>)
    ensures Number(Zeros(k) + t) == Pow256(k) * Number(t)
    decreases k
  {
    if k == 0 {
      assert Zeros(0) + t == t;
    } else {
      NumberOfZerosThen(k - 1, t);
      assert (Zeros(k) + t)[1..] == Zeros(k - 1) + t;
    }
  }

  lemma {:induction false} ImageOfSmall(n: nat, v: nat, w: nat)
    requires n < Pow256(v) && v <= w
    ensures LittleEndian(n, w) == LittleEndian(n, v) + Zeros(w - v)
    decreases w
  {
    if v == 0 {
      ImageOfZero(w);
    } else {
      ImageOfSmall(n / 256, v - 1, w - 1);
    }
  }

  lemma {:induction false} ImageOfZero(w: nat)
    ensures LittleEndian(0, w) == Zeros(w)
  {
    if w == 0 {
    } else {
      ImageOfZero(w - 1);
    }
  }

  function Reverse(s: seq<Byte>): (r: seq<Byte>)
    ensures |r| == |s| && forall i :: 0 <= i < |s| ==> r[i] == s[|s| - 1 - i]
  {
    seq(|s|, i requires 0 <= i < |s| => s[|s| - 1 - i])
  }

  lemma {:induction false} ImageDigit(n: nat, w: nat, i: nat)
    requires i < w
    ensures LittleEndian(n, w)[i] == Digit(n, i)
    decreases w
  {
    if i > 0 {
      ImageDigit(n / 256, w - 1, i - 1);
      DivDiv(n, Pow256(i - 1));
    }
  }

  lemma DivDiv(n: nat, p: nat)
    requires p > 0
    ensures n / 256 / p == n / (256 * p)
  {
    var q, r := n / (256 * p), n % (256 * p);
    assert n == 256 * (p * q) + r;
    assert n / 256 == p * q + r / 256;
    assert 0 <= r / 256 < p;
    DivUnique(n / 256, p, q, r / 256);
  }

  lemma DivUnique(x: nat, p: nat, q: nat, r: nat)
    requires x == p * q + r && r < p
    ensures x / p == q
  {
    var d, e := x / p, x % p;
    assert x == p * d + e;
    assert p * (q - d) == e - r by {
      assert p * (q - d) == p * q - p * d;
    }
    NonzeroMultiple(p, q - d);
  }

  lemma NonzeroMultiple(p: int, k: int)
    requires p > 0
    ensures k >= 1 ==> p * k >= p
    ensures k <= -1 ==> p * k <= -p
  {}

  /** swap_endian: reverse the object representation of a w-byte integer. */
  function SwapEndian(n: nat, w: nat): nat {
    Number(Reverse(LittleEndian(n, w)))
  }

  /** At every width the swap reverses the base-256 digits, stays in range and undoes itself. */
  lemma SwapEndianReversesDigits(n: nat, w: nat)
    requires n < Pow256(w)
    ensures SwapEndian(n, w) < Pow256(w)
    ensures forall i: nat :: i < w ==> Digit(SwapEndian(n, w), i) == Digit(n, w - 1 - i)
    ensures SwapEndian(SwapEndian(n, w), w) == n
  {
    var image := LittleEndian(n, w);
    ImageOfNumber(Reverse(image));
    assert LittleEndian(SwapEndian(n, w), w) == Reverse(image);
    forall i: nat | i < w
      ensures Digit(SwapEndian(n, w), i) == Digit(n, w - 1 - i)
    {
      ImageDigit(SwapEndian(n, w), w, i);
      ImageDigit(n, w, w - 1 - i);
    }
    assert Reverse(Reverse(image)) == image;
    NumberOfImage(n, w);
  }

  /** swap_byte_vector: the destination starts cleared and is filled by a reverse copy. */
  method SwapByteVector(origin: seq<Byte>) returns (swapped: seq<Byte>)
    ensures swapped == Reverse(origin)
    ensures Reverse(swapped) == origin
  {
    var dst := new Byte[|origin|](_ => 0);
    var i := 0;
    while i < |origin|
      invariant 0 <= i <= |origin|
      invariant forall k :: 0 <= k < i ==> dst[k] == origin[|origin| - 1 - k]
    {
      dst[i] := origin[|origin| - 1 - i];
      i := i + 1;
    }
    swapped := dst[..];
    assert Reverse(swapped) == origin;
  }

  /** The two swapped fields of swap_xr_message_header: widened to 64 bits, swapped, cut back. */
  function SwapHeaderHead(head: nat): nat {
    SwapEndian(head, 8) % Pow256(2)
  }

  function SwapHeaderSize(size: nat): nat {
    SwapEndian(size, 8) % Pow256(4)
  }

  lemma {:induction false} WideSwapHasZeroLowDigits(n: nat, v: nat)
    requires v <= 4 && n < Pow256(v)
    ensures SwapEndian(n, 8) % Pow256(v) == 0
  {
    ImageOfSmall(n, v, 8);
    var image := LittleEndian(n, v);
    assert Reverse(LittleEndian(n, 8)) == Zeros(8 - v) + Reverse(image);
    NumberOfZerosThen(8 - v, Reverse(image));
    PowSum(v, 8 - 2 * v);
    var m := Number(Reverse(image));
    Associative(Pow256(v), Pow256(8 - 2 * v), m);
    ModOfMultiple(Pow256(v), Pow256(8 - 2 * v) * m);
  }

  lemma {:induction false} PowSum(a: nat, b: nat)
    ensures Pow256(a + b) == Pow256(a) * Pow256(b)
  {
    if a == 0 {
    } else {
      PowSum(a - 1, b);
    }
  }

  lemma Associative(a: nat, b: nat, c: nat)
    ensures a * b * c == a * (b * c)
  {}

  lemma ModOfMultiple(p: nat, m: nat)
    requires p > 0
    ensures p * m % p == 0
  {
    DivUnique(p * m, p, m, 0);
  }

  /** The header swap loses every header; as a pair of swaps it is the identity on exactly the zero header. */
  lemma HeaderSwapIsConstant(head: nat, size: nat)
    requires head < Pow256(2) && size < Pow256(4)
    ensures SwapHeaderHead(head) == 0 && SwapHeaderSize(size) == 0
    ensures SwapHeaderHead(SwapHeaderHead(head)) == head && SwapHeaderSize(SwapHeaderSize(size)) == size
       <==> head == 0 && size == 0
  {
    WideSwapHasZeroLowDigits(head, 2);
    WideSwapHasZeroLowDigits(size, 4);
    WideSwapHasZeroLowDigits(0, 2);
    WideSwapHasZeroLowDigits(0, 4);
  }
}
