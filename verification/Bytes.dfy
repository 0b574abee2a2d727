/** Bytes, and little-endian words in them. */
module Bytes {
  import opened Words

  type byte = x: nat | x < 256

  /** The n low bytes of v, lowest first: what storing v through a pointer leaves. */
  function Store(v: nat, n: nat): (s: seq<byte>)
    ensures |s| == n
  {
    if n == 0 then [] else [v % 256] + Store(v / 256, n - 1)
  }

  /** What loading the bytes gives back. */
  function Load(s: seq<byte>): nat {
    if s == [] then 0 else s[0] + 256 * Load(s[1..])
  }

  lemma {:induction false} LoadZeros(s: seq<byte>)
    requires forall i :: 0 <= i < |s| ==> s[i] == 0
    ensures Load(s) == 0
  {
    if s != [] {
      LoadZeros(s[1..]);
    }
  }

  /** 256 to the power of n. */
  function Power(n: nat): (p: nat)
    ensures p > 0
  {
    if n == 0 then 1 else 256 * Power(n - 1)
  }

  lemma {:induction false} LoadStore(v: nat, n: nat)
    requires v < Power(n)
    ensures Load(Store(v, n)) == v
  {
    if n > 0 {
      LoadStore(v / 256, n - 1);
      assert Store(v, n)[1..] == Store(v / 256, n - 1);
    }
  }

  /** The last byte counts most. */
  lemma {:induction false} LoadTop(s: seq<byte>)
    requires s != []
    ensures Load(s) == Load(s[..|s| - 1]) + Power(|s| - 1) * s[|s| - 1]
  {
    if |s| > 1 {
      var rest, top := s[1..], s[|s| - 1];
      LoadTop(rest);
      assert rest[..|rest| - 1] == s[..|s| - 1][1..];
      Grouped(256, Power(|rest| - 1), top);
    }
  }

  lemma Grouped(a: nat, b: nat, c: nat)
    ensures a * (b * c) == (a * b) * c
  {
  }

  /** A value below 256 is its lowest byte. */
  lemma SmallStore(v: nat, n: nat)
    requires v < 256 && n > 0
    ensures Store(v, n) == [v] + seq(n - 1, _ => 0)
  {
    ZeroStore(n - 1);
  }

  lemma {:induction false} ZeroStore(n: nat)
    ensures Store(0, n) == seq(n, _ => 0)
  {
    if n > 0 {
      ZeroStore(n - 1);
    }
  }

  lemma {:induction false} LoadBelow(s: seq<byte>)
    ensures Load(s) < Power(|s|)
  {
    if s != [] {
      LoadBelow(s[1..]);
    }
  }

  lemma Widths()
    ensures Power(4) == W32 && Power(8) == W64
  {
    assert Power(2) == 65536;
    assert Power(4) == 256 * (256 * Power(2));
    assert Power(6) == 256 * (256 * Power(4));
    assert Power(8) == 256 * (256 * Power(6));
  }
}
