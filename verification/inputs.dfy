/** The command-line inputs the encoders receive and the two checks `main`
    applies to them before any encoder runs: the symbol name must be a C
    identifier and the alignment a positive power of two. */
module Inputs {
  import opened Bytes

  /** `--arch`; argparse restricts it to these three choices, and every
      encoder treats whatever is not x86_64 or arm64 as x86. */
  datatype Arch = X86 | X86_64 | Arm64

  predicate Is64(arch: Arch)
  {
    arch != X86
  }

  /** Width of the size constant and of the word-sized fields: 8 bytes on the
      64-bit targets, 4 on x86. */
  function WordSize(arch: Arch): nat
  {
    if Is64(arch) then 8 else 4
  }

  // ---------------------------------------------------------------------
  // Symbol names
  // ---------------------------------------------------------------------

  predicate IsIdentStart(c: char)
  {
    ('a' <= c <= 'z') || ('A' <= c <= 'Z') || c == '_'
  }

  predicate IsIdentChar(c: char)
  {
    IsIdentStart(c) || ('0' <= c <= '9')
  }

  /** `[a-zA-Z_][a-zA-Z0-9_]*` over the whole string: what the error message
      promises ("a valid C identifier"). */
  predicate IsCIdentifier(s: string)
  {
    |s| >= 1 && IsIdentStart(s[0]) && forall i :: 1 <= i < |s| ==> IsIdentChar(s[i])
  }

  /** What `re.match(r'^[a-zA-Z_][a-zA-Z0-9_]*$', s)` accepts: Python's `$`
      also matches just before a newline that ends the string. */
  predicate MatchesAsWritten(s: string)
  {
    IsCIdentifier(s) || (|s| >= 2 && s[|s| - 1] == '\n' && IsCIdentifier(s[..|s| - 1]))
  }

  /** The regular expression run the way the matcher runs it: the first class,
      a greedy star, then `$` at the end or before a final newline. (Giving
      characters back from the star cannot help: `$` never matches before an
      identifier character.) */
  method MatchSymbol(s: string) returns (ok: bool)
    ensures ok <==> MatchesAsWritten(s)
  {
    if |s| == 0 || !IsIdentStart(s[0]) {
      return false;
    }
    var k := 1;
    while k < |s| && IsIdentChar(s[k])
      invariant 1 <= k <= |s|
      invariant forall j :: 1 <= j < k ==> IsIdentChar(s[j])
    {
      k := k + 1;
    }
    ok := k == |s| || (k == |s| - 1 && s[k] == '\n');
    if !ok {
      assert !IsIdentChar(s[k]);
      if |s| >= 2 && s[|s| - 1] == '\n' {
        assert k < |s| - 1;
        assert s[..|s| - 1][k] == s[k];
      }
    } else if k == |s| - 1 {
      assert forall j :: 1 <= j < |s| - 1 ==> s[..|s| - 1][j] == s[j];
    }
  }

  /** The accepted names that are not identifiers are exactly an identifier
      followed by one newline. */
  lemma {:induction false} AsWrittenAcceptsNewline(s: string)
    ensures MatchesAsWritten(s) && !IsCIdentifier(s)
        <==> |s| >= 2 && s[|s| - 1] == '\n' && IsCIdentifier(s[..|s| - 1])
  {
    if |s| >= 2 && s[|s| - 1] == '\n' {
      assert !IsIdentChar(s[|s| - 1]);
    }
  }

  /** The name "a" followed by a newline gets past the check as written. */
  lemma {:induction false} TrailingNewlineCounterexample()
    ensures MatchesAsWritten("a\n")
    ensures !IsCIdentifier("a\n")
  {
    assert "a\n"[..1] == "a";
  }

  /** A checked name is plain ASCII without NULs or line breaks, so its UTF-8
      encoding is one byte per character and it can sit in a NUL-terminated
      string table. */
  lemma {:induction false} IdentifierIsPrintable(s: string)
    requires IsCIdentifier(s)
    ensures |s| >= 1
    ensures forall i :: 0 <= i < |s| ==> 0 < s[i] as int < 128 && s[i] != '\n'
  {
  }

  /** `str.encode()` of a string of ASCII characters. */
  function Ascii(s: string): (r: seq<byte>)
    requires forall i :: 0 <= i < |s| ==> s[i] as int < 128
    ensures |r| == |s|
  {
    seq(|s|, i requires 0 <= i < |s| => s[i] as int as byte)
  }

  /** Encoding commutes with concatenation, so `(a + b).encode()` is
      `a.encode() + b.encode()`. */
  lemma {:induction false} AsciiAppend(a: string, b: string)
    requires forall i :: 0 <= i < |a| ==> a[i] as int < 128
    requires forall i :: 0 <= i < |b| ==> b[i] as int < 128
    ensures forall i :: 0 <= i < |a + b| ==> (a + b)[i] as int < 128
    ensures Ascii(a + b) == Ascii(a) + Ascii(b)
  {
  }

  /** A name the check as written accepts is ASCII without NULs: an
      identifier, or an identifier and a newline. */
  lemma {:induction false} AsWrittenIsAscii(s: string)
    requires MatchesAsWritten(s)
    ensures forall i :: 0 <= i < |s| ==> 0 < s[i] as int < 128
  {
    if !IsCIdentifier(s) {
      var p := s[..|s| - 1];
      IdentifierIsPrintable(p);
      forall i | 0 <= i < |s|
        ensures 0 < s[i] as int < 128
      {
        if i < |s| - 1 {
          assert s[i] == p[i];
        }
      }
    } else {
      IdentifierIsPrintable(s);
    }
  }

  /** A string without NUL characters encodes to bytes without NULs. */
  lemma {:induction false} AsciiNoNul(s: string)
    requires forall i :: 0 <= i < |s| ==> 0 < s[i] as int < 128
    ensures NoNul(Ascii(s))
  {
  }

  /** The suffixes every generator appends to the symbol name. */
  const DataSuffix: seq<byte> := Ascii("_data")
  const EndSuffix: seq<byte> := Ascii("_end")
  const SizeSuffix: seq<byte> := Ascii("_size")

  lemma {:induction false} SuffixesClean()
    ensures NoNul(DataSuffix) && NoNul(EndSuffix) && NoNul(SizeSuffix)
    ensures |DataSuffix| == 5 && |EndSuffix| == 4 && |SizeSuffix| == 5
    ensures DataSuffix[0] != 0 && EndSuffix[0] != 0 && SizeSuffix[0] != 0
  {
    AsciiNoNul("_data");
    AsciiNoNul("_end");
    AsciiNoNul("_size");
  }

  // ---------------------------------------------------------------------
  // Alignment
  // ---------------------------------------------------------------------

  function Pow2(k: nat): (p: nat)
    ensures p >= 1
  {
    if k == 0 then 1 else 2 * Pow2(k - 1)
  }

  predicate IsPowerOfTwo(a: int)
    decreases if a > 0 then a else 0
  {
    a == 1 || (a > 1 && a % 2 == 0 && IsPowerOfTwo(a / 2))
  }

  /** `x & y` on non-negative integers, bit by bit from the low end. */
  function BitAnd(x: nat, y: nat): nat
  {
    if x == 0 || y == 0 then 0
    else 2 * BitAnd(x / 2, y / 2) + (if x % 2 == 1 && y % 2 == 1 then 1 else 0)
  }

  /** The alignment check as written: rejected when `a <= 0` or `a & (a - 1) != 0`. */
  predicate AlignmentAccepted(a: int)
  {
    !(a <= 0 || BitAnd(a, a - 1) != 0)
  }

  lemma {:induction false} BitAndSelf(x: nat)
    ensures BitAnd(x, x) == x
  {
    if x > 0 {
      BitAndSelf(x / 2);
    }
  }

  /** The bit trick decides exactly the powers of two. */
  lemma {:induction false} AlignmentCheck(a: int)
    ensures AlignmentAccepted(a) <==> IsPowerOfTwo(a)
    decreases if a > 0 then a else 0
  {
    if a > 1 {
      if a % 2 == 0 {
        assert (a - 1) / 2 == a / 2 - 1;
        assert BitAnd(a, a - 1) == 2 * BitAnd(a / 2, a / 2 - 1);
        AlignmentCheck(a / 2);
      } else {
        assert (a - 1) / 2 == a / 2;
        BitAndSelf(a / 2);
        assert BitAnd(a, a - 1) == 2 * (a / 2);
      }
    }
  }

  /** The powers of two are exactly the values 2^k. */
  lemma {:induction false} PowerOfTwoIsPow2(k: nat)
    ensures IsPowerOfTwo(Pow2(k))
  {
    if k > 0 {
      PowerOfTwoIsPow2(k - 1);
      assert Pow2(k) / 2 == Pow2(k - 1);
    }
  }

  /** `int.bit_length()`. */
  function BitLength(a: nat): nat
  {
    if a == 0 then 0 else 1 + BitLength(a / 2)
  }

  /** `alignment.bit_length() - 1` is the base-2 logarithm of a power of two. */
  lemma {:induction false} Log2OfPowerOfTwo(a: int)
    requires IsPowerOfTwo(a)
    ensures a >= 1 && BitLength(a) >= 1
    ensures Pow2(BitLength(a) - 1) == a
    decreases if a > 0 then a else 0
  {
    if a > 1 {
      Log2OfPowerOfTwo(a / 2);
    }
  }

  /** And of every 2^k it recovers k. */
  lemma {:induction false} Log2OfPow2(k: nat)
    ensures BitLength(Pow2(k)) == k + 1
  {
    if k > 0 {
      Log2OfPow2(k - 1);
      assert Pow2(k) / 2 == Pow2(k - 1);
    }
  }

  // ---------------------------------------------------------------------
  // Input size
  // ---------------------------------------------------------------------

  /** `len(data) / (1024.0 * 1024.0) > 2048` rejects exactly the inputs of
      more than 2^31 bytes: the division by 2^20 is exact in a double for
      every length below 2^53 and monotone above it. */
  const MaxInputBytes: nat := 0x8000_0000
}
