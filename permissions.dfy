/** Mode bits of a tar entry: PHP's `octdec` and bitwise `|`, and the
    TarFileSet that combines a 3-digit octal permission string with the
    regular-file type bit. */
module Permissions {

  /** 0o100000, the POSIX "regular file" type bit (bit 15). */
  const RegularFileBit: nat := 0x8000
  /** 0o100644, the mode a TarFileSet starts with. */
  const DefaultMode: nat := 0x81A4

  predicate IsOctalDigit(c: char) {
    '0' <= c <= '7'
  }

  function DigitValue(c: char): nat
    requires IsOctalDigit(c)
  {
    (c as int - '0' as int) as nat
  }

  function Digit(d: nat): (c: char)
    requires d < 8
    ensures IsOctalDigit(c) && DigitValue(c) == d
  {
    ('0' as int + d) as char
  }

  /** PHP's `octdec`: the octal digits of `s` read from left to right;
      every other character is skipped. */
  function OctDec(s: string): nat
    decreases |s|
  {
    if s == [] then 0
    else
      var before := OctDec(s[..|s| - 1]);
      var c := s[|s| - 1];
      if IsOctalDigit(c) then 8 * before + DigitValue(c) else before
  }

  /** PHP's `decoct`: the octal digits of `n`, most significant first. */
  function OctalDigits(n: nat): (s: string)
    ensures |s| >= 1
    ensures forall i :: 0 <= i < |s| ==> IsOctalDigit(s[i])
    decreases n
  {
    if n < 8 then [Digit(n)] else OctalDigits(n / 8) + [Digit(n % 8)]
  }

  lemma {:induction false} OctDecSnoc(s: string, c: char)
    ensures OctDec(s + [c]) == if IsOctalDigit(c) then 8 * OctDec(s) + DigitValue(c) else OctDec(s)
  {
    assert (s + [c])[..|s|] == s;
  }

  /** `octdec` inverts `decoct`. */
  lemma {:induction false} OctDecOfOctalDigits(n: nat)
    ensures OctDec(OctalDigits(n)) == n
    decreases n
  {
    if n < 8 {
      OctDecSnoc([], Digit(n));
      assert [] + [Digit(n)] == [Digit(n)];
    } else {
      OctDecOfOctalDigits(n / 8);
      OctDecSnoc(OctalDigits(n / 8), Digit(n % 8));
    }
  }

  /** A character that is not an octal digit contributes nothing,
      wherever it stands. */
  lemma {:induction false} OctDecSkipsNonDigit(a: string, c: char, b: string)
    requires !IsOctalDigit(c)
    ensures OctDec(a + [c] + b) == OctDec(a + b)
    decreases |b|
  {
    if b == [] {
      assert a + [c] + b == a + [c];
      assert a + b == a;
      OctDecSnoc(a, c);
    } else {
      var init, last := b[..|b| - 1], b[|b| - 1];
      assert b == init + [last];
      OctDecSkipsNonDigit(a, c, init);
      assert a + [c] + b == (a + [c] + init) + [last];
      assert a + b == (a + init) + [last];
      OctDecSnoc(a + [c] + init, last);
      OctDecSnoc(a + init, last);
    }
  }

  /** Three octal digits read as 64 * d0 + 8 * d1 + d2, so below 0o1000. */
  lemma ThreeDigitValue(s: string)
    requires |s| == 3 && IsOctalDigit(s[0]) && IsOctalDigit(s[1]) && IsOctalDigit(s[2])
    ensures OctDec(s) == 64 * DigitValue(s[0]) + 8 * DigitValue(s[1]) + DigitValue(s[2])
    ensures OctDec(s) < 512
  {
    assert s == [s[0]] + [s[1]] + [s[2]];
    OctDecSnoc([], s[0]);
    assert [] + [s[0]] == [s[0]];
    OctDecSnoc([s[0]], s[1]);
    OctDecSnoc([s[0]] + [s[1]], s[2]);
  }

  function Pow2(k: nat): (r: nat)
    ensures r >= 1
  {
    if k == 0 then 1 else 2 * Pow2(k - 1)
  }

  /** Bit `k` of `x` is set. */
  predicate Bit(x: nat, k: nat) {
    if k == 0 then x % 2 == 1 else Bit(x / 2, k - 1)
  }

  /** PHP's `|` on non-negative integers, one bit at a time. */
  function BitOr(a: nat, b: nat): nat
    decreases a + b
  {
    if a == 0 then b
    else if b == 0 then a
    else 2 * BitOr(a / 2, b / 2) + (if a % 2 == 1 || b % 2 == 1 then 1 else 0)
  }

  lemma {:induction false} NoBitOfZero(k: nat)
    ensures !Bit(0, k)
  {
    if k > 0 {
      NoBitOfZero(k - 1);
    }
  }

  /** The bit-level meaning of `|`: a bit of `a | b` is set exactly when it
      is set in `a` or in `b`. */
  lemma {:induction false} BitOfBitOr(a: nat, b: nat, k: nat)
    ensures Bit(BitOr(a, b), k) == (Bit(a, k) || Bit(b, k))
    decreases a + b
  {
    if a == 0 {
      NoBitOfZero(k);
    } else if b == 0 {
      NoBitOfZero(k);
    } else if k > 0 {
      var c := if a % 2 == 1 || b % 2 == 1 then 1 else 0;
      assert (2 * BitOr(a / 2, b / 2) + c) / 2 == BitOr(a / 2, b / 2);
      BitOfBitOr(a / 2, b / 2, k - 1);
    }
  }

  /** Only bit `j` of 2^j is set. */
  lemma {:induction false} BitOfPow2(j: nat, k: nat)
    ensures Bit(Pow2(j), k) == (j == k)
  {
    if j == 0 {
      if k > 0 {
        NoBitOfZero(k - 1);
      }
    } else if k > 0 {
      BitOfPow2(j - 1, k - 1);
    }
  }

  /** OR-ing a power of two onto a smaller number adds it. */
  lemma {:induction false} BitOrPow2Below(k: nat, b: nat)
    requires b < Pow2(k)
    ensures BitOr(Pow2(k), b) == Pow2(k) + b
  {
    if k > 0 && b > 0 {
      BitOrPow2Below(k - 1, b / 2);
    }
  }

  /** `0100000 | octdec($octalString)`, the mode TarFileSet.setMode stores. */
  function ModeOf(octalString: string): nat {
    BitOr(RegularFileBit, OctDec(octalString))
  }

  lemma RegularFileBitIsPow2()
    ensures RegularFileBit == Pow2(15)
  {
    assert Pow2(1) == 2;
    assert Pow2(2) == 4;
    assert Pow2(3) == 8;
    assert Pow2(4) == 16;
    assert Pow2(5) == 32;
    assert Pow2(6) == 64;
    assert Pow2(7) == 128;
    assert Pow2(8) == 256;
    assert Pow2(9) == 512;
    assert Pow2(10) == 1024;
    assert Pow2(11) == 2048;
    assert Pow2(12) == 4096;
    assert Pow2(13) == 8192;
    assert Pow2(14) == 16384;
  }

  /** Every bit of the stored mode: the regular-file bit (bit 15) is always
      set, and every other bit is the one the octal string gives. */
  lemma ModeBits(octalString: string, k: nat)
    ensures Bit(ModeOf(octalString), k) == (k == 15 || Bit(OctDec(octalString), k))
  {
    RegularFileBitIsPow2();
    BitOfBitOr(RegularFileBit, OctDec(octalString), k);
    BitOfPow2(15, k);
  }

  /** For a 3-digit octal string the mode is the regular-file bit plus the
      permission, and the low nine bits give the permission back. */
  lemma ModeOfThreeDigits(octalString: string)
    requires |octalString| == 3
    requires IsOctalDigit(octalString[0]) && IsOctalDigit(octalString[1]) && IsOctalDigit(octalString[2])
    ensures ModeOf(octalString) == RegularFileBit + OctDec(octalString)
    ensures ModeOf(octalString) % 512 == OctDec(octalString)
    ensures ModeOf(octalString) / 512 == 64
  {
    var o := OctDec(octalString);
    ThreeDigitValue(octalString);
    RegularFileBitIsPow2();
    BitOrPow2Below(15, o);
    LowNineBits(o);
  }

  lemma LowNineBits(o: nat)
    requires o < 512
    ensures (RegularFileBit + o) % 512 == o && (RegularFileBit + o) / 512 == 64
  {
  }

  /** "755" gives 0o100755 and "644" gives the default 0o100644. */
  lemma ModeExamples()
    ensures ModeOf("755") == 0x81ED
    ensures ModeOf("644") == DefaultMode
  {
    ModeOfThreeDigits("755");
    ThreeDigitValue("755");
    ModeOfThreeDigits("644");
    ThreeDigitValue("644");
  }

  /** The permission set of one fileset (TarTask.php's TarFileSet). */
  class TarFileSet {
    var mode: nat

    /** Whatever was set, the stored mode marks a regular file. */
    ghost predicate Valid()
      reads this
    {
      Bit(mode, 15)
    }

    constructor ()
      ensures Valid() && mode == DefaultMode
    {
      mode := DefaultMode;
      ModeBits("644", 15);
      ModeExamples();
    }

    method SetMode(octalString: string)
      modifies this
      ensures Valid() && mode == ModeOf(octalString)
    {
      mode := BitOr(RegularFileBit, OctDec(octalString));
      ModeBits(octalString, 15);
    }

    method GetMode() returns (m: nat)
      requires Valid()
      ensures m == mode && Bit(m, 15)
    {
      m := mode;
    }
  }
}
