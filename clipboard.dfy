/** Content rules applied to every submitted clip: normalisation, the
    fingerprint used for duplicate detection, and the dedup-window policy. */
module Clipboard {
  import opened Wrappers
  import opened JsString

  /** Longest content, in UTF-16 code units, a clip may hold. */
  const MAX_LEN: nat := 20000

  /** Default dedup window, in milliseconds. */
  const DEFAULT_WINDOW_MS: int := 2000

  // ---------------------------------------------------------------------
  // normalizeContent

  /** Trim the input; a blank result is ""; otherwise keep at most the first
      MAX_LEN code units (silent truncation). */
  function NormalizeContent(input: JsText): (r: JsText)
    ensures |r| <= MAX_LEN
    ensures |r| == if |Trim(input)| > MAX_LEN then MAX_LEN else |Trim(input)|
  {
    var trimmed := Trim(input);
    if trimmed == [] then []
    else if |trimmed| > MAX_LEN then trimmed[..MAX_LEN]
    else trimmed
  }

  /** Normalisation yields "" exactly when the input is all whitespace. */
  lemma NormalizeEmptyIff(input: JsText)
    ensures NormalizeContent(input) == [] <==> AllWhitespace(input)
  {
    TrimEmptyIff(input);
  }

  /** A non-empty result is a prefix of the trimmed input, starts with a
      non-whitespace unit, and is the whole trimmed input when that fits and
      exactly its first MAX_LEN units when it does not. */
  lemma NormalizeIsTrimPrefix(input: JsText)
    ensures var r := NormalizeContent(input);
      r != [] ==> |r| <= |Trim(input)| && r == Trim(input)[..|r|] && !IsJsWhitespace(r[0])
    ensures |Trim(input)| <= MAX_LEN ==> NormalizeContent(input) == Trim(input)
    ensures |Trim(input)| > MAX_LEN ==> NormalizeContent(input) == Trim(input)[..MAX_LEN]
  {
    TrimIsInnerSlice(input);
  }

  /** Normalising twice is normalising once, provided the trimmed input is
      not cut: truncation can expose trailing whitespace that a second pass
      would strip (see NormalizeNotIdempotent). */
  lemma NormalizeIdempotentWhenShort(input: JsText)
    requires |Trim(input)| <= MAX_LEN
    ensures NormalizeContent(NormalizeContent(input)) == NormalizeContent(input)
  {
    var t := Trim(input);
    assert NormalizeContent(input) == t;
    if t != [] {
      TrimIsInnerSlice(input);
      TrimOfTrimmed(t);
      assert Trim(t) == t;
    }
  }

  /** Stripping trailing whitespace ignores any whitespace appended. */
  lemma {:induction false} TrimEndIgnoresWhitespaceSuffix(x: JsText, w: JsText)
    requires AllWhitespace(w)
    ensures TrimEnd(x + w) == TrimEnd(x)
    decreases |w|
  {
    if w == [] {
      assert x + w == x;
    } else {
      var w' := w[..|w| - 1];
      assert (x + w)[..|x + w| - 1] == x + w';
      assert IsJsWhitespace((x + w)[|x + w| - 1]);
      TrimEndIgnoresWhitespaceSuffix(x, w');
    }
  }

  /** `n` spaces. */
  function Spaces(n: nat): (r: JsText)
    ensures |r| == n && AllWhitespace(r)
  {
    seq(n, _ => 0x20)
  }

  /** The unconditional idempotence claim is false: "a", 19 999 spaces, "b"
      is already trimmed, is cut after the spaces, and the second pass then
      strips them, leaving just "a". */
  lemma NormalizeNotIdempotent()
    ensures exists input :: NormalizeContent(NormalizeContent(input)) != NormalizeContent(input)
  {
    var a: JsText := [0x61];
    var input := a + Spaces(MAX_LEN - 1) + [0x62];
    assert TrimStart(input) == input;
    assert TrimEnd(input) == input;
    var once := NormalizeContent(input);
    assert once == a + Spaces(MAX_LEN - 1);
    TrimEndIgnoresWhitespaceSuffix(a, Spaces(MAX_LEN - 1));
    assert TrimStart(once) == once;
    assert Trim(once) == a;
    assert NormalizeContent(once) == a;
  }

  // ---------------------------------------------------------------------
  // hashContent: 32-bit FNV-1a over UTF-16 code units
  //
  // JavaScript numbers are modelled as unbounded integers. The bitwise
  // operators first reduce their operands to 32 bits (ToInt32 / ToUint32) and
  // yield 32-bit results; `+=` on the shifted values is exact (every summand
  // is below 2^31 in magnitude, far inside a double's 53-bit mantissa).

  const TWO_32: int := 0x1_0000_0000
  const FNV_OFFSET_BASIS: nat := 0x811C_9DC5
  const FNV_PRIME: nat := 0x0100_0193

  /** ToUint32 of an integral number: its residue modulo 2^32. */
  function Uint32(x: int): (r: nat)
    ensures r < TWO_32
  {
    x % TWO_32
  }

  /** ToInt32 of an integral number: the residue read as two's complement. */
  function Int32(x: int): (r: int)
    ensures -0x8000_0000 <= r < 0x8000_0000
    ensures r % TWO_32 == x % TWO_32
  {
    var u := x % TWO_32;
    if u >= 0x8000_0000 then u - TWO_32 else u
  }

  /** Bitwise exclusive or of two naturals, least significant bit first. */
  function Xor(a: nat, b: nat): (r: nat)
    ensures r == 0 <==> a == b
    decreases a + b
  {
    if a == 0 && b == 0 then 0
    else 2 * Xor(a / 2, b / 2) + (if a % 2 == b % 2 then 0 else 1)
  }

  /** Xor of two k-bit numbers is a k-bit number. */
  lemma {:induction false} XorBound(a: nat, b: nat, k: nat)
    requires a < Pow2(k) && b < Pow2(k)
    ensures Xor(a, b) < Pow2(k)
    decreases k
  {
    if !(a == 0 && b == 0) {
      assert k > 0;
      XorBound(a / 2, b / 2, k - 1);
    }
  }

  /** The 32-bit exclusive or of a word with a code unit (`hash ^= c`). */
  function XorUnit(h: nat, c: CodeUnit): (r: nat)
    requires h < TWO_32
    ensures r < TWO_32
  {
    Pow2Values();
    XorBound(h, c, 32);
    Xor(h, c)
  }

  /** Reading a 32-bit word as signed and back as unsigned changes nothing. */
  lemma Uint32OfInt32(v: nat)
    requires v < TWO_32
    ensures Uint32(Int32(v)) == v
  {
  }

  /** `x << k` for k < 32: a 32-bit shift of ToInt32(x), signed result. */
  function ShiftLeft(x: int, k: nat): (r: int)
    requires k < 32
    ensures -0x8000_0000 <= r < 0x8000_0000
    ensures r % TWO_32 == x * Pow2(k) % TWO_32
  {
    Int32(x * Pow2(k))
  }

  function Pow2(k: nat): (p: nat)
    ensures p >= 1
  {
    if k == 0 then 1 else 2 * Pow2(k - 1)
  }

  /** The powers the 32-bit arithmetic needs. */
  lemma Pow2Values()
    ensures Pow2(8) == 256 && Pow2(16) == 0x1_0000 && Pow2(32) == TWO_32
  {
    assert Pow2(8) == 256;
    Pow2Add(8, 8);
    Pow2Add(16, 16);
  }

  lemma {:induction false} Pow2Add(a: nat, b: nat)
    ensures Pow2(a + b) == Pow2(a) * Pow2(b)
  {
    if a > 0 {
      Pow2Add(a - 1, b);
    }
  }

  /** One FNV-1a round on a 32-bit word: xor in the code unit, then multiply
      by the FNV prime modulo 2^32. */
  function FnvStep(h: nat, c: CodeUnit): (r: nat)
    requires h < TWO_32
    ensures r < TWO_32
  {
    (XorUnit(h, c) * FNV_PRIME) % TWO_32
  }

  /** The FNV-1a value of `s`, folding its code units left to right from the
      offset basis. */
  function Fnv(s: JsText): (r: nat)
    ensures r < TWO_32
  {
    if s == [] then FNV_OFFSET_BASIS else FnvStep(Fnv(s[..|s| - 1]), s[|s| - 1])
  }

  /** Residues modulo 2^32 add. */
  lemma AddMod(a: int, b: int, a': int, b': int)
    requires a % TWO_32 == a' % TWO_32 && b % TWO_32 == b' % TWO_32
    ensures (a + b) % TWO_32 == (a' + b') % TWO_32
  {
    var m := TWO_32;
    assert a == (a / m) * m + a % m;
    assert a' == (a' / m) * m + a' % m;
    assert b == (b / m) * m + b % m;
    assert b' == (b' / m) * m + b' % m;
    assert (a + b) - (a' + b') == (a / m - a' / m + b / m - b' / m) * m;
    ModOfMultipleDifference(a + b, a' + b', a / m - a' / m + b / m - b' / m);
  }

  lemma ModOfMultipleDifference(x: int, y: int, k: int)
    requires x - y == k * TWO_32
    ensures x % TWO_32 == y % TWO_32
  {
    var m := TWO_32;
    assert x == y + k * m;
    assert x == (y / m + k) * m + y % m;
  }

  /** Multiplying by a constant respects residues modulo 2^32. */
  lemma MulMod(a: int, a': int, c: int)
    requires a % TWO_32 == a' % TWO_32
    ensures (a * c) % TWO_32 == (a' * c) % TWO_32
  {
    var m := TWO_32;
    assert a == (a / m) * m + a % m;
    assert a' == (a' / m) * m + a' % m;
    assert a * c - a' * c == ((a / m - a' / m) * c) * m;
    ModOfMultipleDifference(a * c, a' * c, (a / m - a' / m) * c);
  }

  /** hashContent's multiply step, written with shifts: adding the value
      shifted by 1, 4, 7, 8 and 24 bits multiplies it, modulo 2^32, by the FNV
      prime 2^24 + 2^8 + 2^7 + 2^4 + 2^1 + 1. */
  lemma ShiftSumIsPrimeMultiply(x: int)
    ensures Uint32(x + (ShiftLeft(x, 1) + ShiftLeft(x, 4) + ShiftLeft(x, 7) + ShiftLeft(x, 8) + ShiftLeft(x, 24)))
         == (Uint32(x) * FNV_PRIME) % TWO_32
  {
    assert Pow2(1) == 2 && Pow2(4) == 16 && Pow2(7) == 128 && Pow2(8) == 256;
    Pow2Add(8, 8);
    Pow2Add(16, 8);
    var s1, s4, s7, s8, s24 := ShiftLeft(x, 1), ShiftLeft(x, 4), ShiftLeft(x, 7), ShiftLeft(x, 8), ShiftLeft(x, 24);
    AddMod(s1, s4, x * 2, x * 16);
    AddMod(s1 + s4, s7, x * 2 + x * 16, x * 128);
    AddMod(s1 + s4 + s7, s8, x * 2 + x * 16 + x * 128, x * 256);
    AddMod(s1 + s4 + s7 + s8, s24, x * 2 + x * 16 + x * 128 + x * 256, x * 0x100_0000);
    AddMod(x, s1 + s4 + s7 + s8 + s24, x, x * 2 + x * 16 + x * 128 + x * 256 + x * 0x100_0000);
    assert x + (x * 2 + x * 16 + x * 128 + x * 256 + x * 0x100_0000) == x * FNV_PRIME;
    assert Uint32(x) % TWO_32 == x % TWO_32;
    MulMod(Uint32(x), x, FNV_PRIME);
  }

  const HEX_DIGITS: string := "0123456789abcdef"

  /** `n.toString(16)`: lowercase hexadecimal without padding. */
  function ToHex(n: nat): (r: string)
    ensures |r| >= 1
    ensures forall i :: 0 <= i < |r| ==> r[i] in HEX_DIGITS
  {
    if n < 16 then [HEX_DIGITS[n]] else ToHex(n / 16) + [HEX_DIGITS[n % 16]]
  }

  /** The value of one lowercase hex digit. */
  function DigitValue(c: char): (d: nat)
    ensures d < 16
    ensures c in HEX_DIGITS ==> HEX_DIGITS[d] == c
  {
    if '0' <= c <= '9' then (c - '0') as nat
    else if 'a' <= c <= 'f' then (c - 'a') as nat + 10
    else 0
  }

  /** Reads a lowercase hex string back as a number. */
  function FromHex(s: string): nat {
    if s == [] then 0 else FromHex(s[..|s| - 1]) * 16 + DigitValue(s[|s| - 1])
  }

  /** Hex printing loses nothing: reading the digits back gives `n`. */
  lemma {:induction false} FromHexToHex(n: nat)
    ensures FromHex(ToHex(n)) == n
  {
    var r := ToHex(n);
    DigitValueOfDigit(n % 16);
    if n >= 16 {
      FromHexToHex(n / 16);
      assert r[..|r| - 1] == ToHex(n / 16);
    } else {
      assert r[..0] == [];
    }
  }

  /** Each digit reads back as its own value. */
  lemma DigitValueOfDigit(d: nat)
    requires d < 16
    ensures DigitValue(HEX_DIGITS[d]) == d
  {
  }

  /** Different numbers print differently. */
  lemma ToHexInjective(m: nat, n: nat)
    requires ToHex(m) == ToHex(n)
    ensures m == n
  {
    FromHexToHex(m);
    FromHexToHex(n);
  }

  /** No leading zero: only 0 itself prints with a first digit '0'. */
  lemma {:induction false} ToHexNoLeadingZero(n: nat)
    ensures ToHex(n)[0] == '0' <==> n == 0
  {
    if n >= 16 {
      ToHexNoLeadingZero(n / 16);
    }
  }

  /** A 32-bit value prints in at most 8 digits. */
  lemma {:induction false} ToHexAtMostDigits(n: nat, k: nat)
    requires 1 <= k && n < Pow16(k)
    ensures |ToHex(n)| <= k
  {
    if n >= 16 {
      assert k >= 2;
      assert n / 16 < Pow16(k - 1);
      ToHexAtMostDigits(n / 16, k - 1);
    }
  }

  function Pow16(k: nat): (p: nat)
    ensures p >= 1
  {
    if k == 0 then 1 else 16 * Pow16(k - 1)
  }

  /** The fingerprint hashContent returns: FNV-1a printed as unpadded
      lowercase hex. */
  function HashOf(s: JsText): (r: string)
    ensures FromHex(r) == Fnv(s)
  {
    FromHexToHex(Fnv(s));
    ToHex(Fnv(s))
  }

  /** Fingerprints are 1 to 8 lowercase hex digits with no leading zero
      (the value 0 prints as "0"). */
  lemma HashShape(s: JsText)
    ensures 1 <= |HashOf(s)| <= 8
    ensures forall i :: 0 <= i < |HashOf(s)| ==> HashOf(s)[i] in HEX_DIGITS
    ensures HashOf(s)[0] != '0' || HashOf(s) == "0"
  {
    var n := Fnv(s);
    assert Pow16(8) == TWO_32;
    ToHexAtMostDigits(n, 8);
    ToHexNoLeadingZero(n);
  }

  /** The fingerprint of "" is the offset basis. */
  lemma HashOfEmpty()
    ensures HashOf([]) == "811c9dc5"
  {
    assert Fnv([]) == 0x811c9dc5;
    OffsetBasisHex();
  }

  /** The offset basis prints as "811c9dc5", one digit at a time. */
  lemma OffsetBasisHex()
    ensures ToHex(0x811c9dc5) == "811c9dc5"
  {
    assert ToHex(0x8) == "8";
    ToHexStep(0x81, 0x8, 0x1, "8");
    ToHexStep(0x811, 0x81, 0x1, "81");
    ToHexStep(0x811c, 0x811, 0xc, "811");
    ToHexStep(0x811c9, 0x811c, 0x9, "811c");
    ToHexStep(0x811c9d, 0x811c9, 0xd, "811c9");
    ToHexStep(0x811c9dc, 0x811c9d, 0xc, "811c9d");
    ToHexStep(0x811c9dc5, 0x811c9dc, 0x5, "811c9dc");
  }

  /** One digit more: `n = 16 q + d` prints as `q` followed by digit `d`. */
  lemma ToHexStep(n: nat, q: nat, d: nat, prefix: string)
    requires d < 16 && 1 <= q && n == q * 16 + d && ToHex(q) == prefix
    ensures ToHex(n) == prefix + [HEX_DIGITS[d]]
  {
    assert n / 16 == q && n % 16 == d;
  }

  /** `hashContent`: the loop keeps its `^=` and shift-sum steps on
      JavaScript numbers and returns `(hash >>> 0).toString(16)`, which is the
      hex form of the FNV-1a value of the input. */
  method HashContent(input: JsText) returns (r: string)
    ensures r == ToHex(Fnv(input))
  {
    var hash: int := FNV_OFFSET_BASIS;
    for i := 0 to |input|
      invariant Uint32(hash) == Fnv(input[..i])
    {
      ghost var mixed := XorUnit(Uint32(hash), input[i]);
      hash := Int32(XorUnit(Uint32(hash), input[i]));
      Uint32OfInt32(mixed);
      ShiftSumIsPrimeMultiply(hash);
      hash := hash + (ShiftLeft(hash, 1) + ShiftLeft(hash, 4) + ShiftLeft(hash, 7) + ShiftLeft(hash, 8) + ShiftLeft(hash, 24));
      assert input[..i + 1][..i] == input[..i];
      assert Fnv(input[..i + 1]) == FnvStep(Fnv(input[..i]), input[i]);
    }
    assert input[..|input|] == input;
    r := ToHex(Uint32(hash));
  }

  // ---------------------------------------------------------------------
  // shouldSkipDuplicate

  /** JavaScript truthiness of the remembered values: null and "" (for the
      hash) and null and 0 (for the time) count as no prior acceptance. */
  predicate HasPrior(lastHash: Option<string>, lastAtMs: Option<int>) {
    lastHash.Some? && lastHash.value != "" && lastAtMs.Some? && lastAtMs.value != 0
  }

  /** Skip a submission whose fingerprint equals the last accepted one when
      at most `windowMs` milliseconds have passed since that acceptance. */
  function ShouldSkipDuplicate(lastHash: Option<string>, nextHash: string,
                               lastAtMs: Option<int>, nowMs: int, windowMs: int): (r: bool)
    ensures r <==> HasPrior(lastHash, lastAtMs) && lastHash.value == nextHash &&
                   nowMs <= lastAtMs.value + windowMs
  {
    if lastHash.None? || lastHash.value == "" || lastAtMs.None? || lastAtMs.value == 0 then false
    else lastHash.value == nextHash && nowMs - lastAtMs.value <= windowMs
  }

  /** With no prior acceptance nothing is skipped. */
  lemma NoPriorNeverSkips(lastHash: Option<string>, nextHash: string,
                          lastAtMs: Option<int>, nowMs: int, windowMs: int)
    requires !HasPrior(lastHash, lastAtMs)
    ensures !ShouldSkipDuplicate(lastHash, nextHash, lastAtMs, nowMs, windowMs)
  {
  }

  /** With a prior acceptance, a skip happens exactly for the same
      fingerprint inside the window, whose bound is inclusive. */
  lemma SkipIffSameHashInWindow(lastHash: string, nextHash: string,
                                lastAtMs: int, nowMs: int, windowMs: int)
    requires lastHash != "" && lastAtMs != 0
    ensures ShouldSkipDuplicate(Some(lastHash), nextHash, Some(lastAtMs), nowMs, windowMs)
        <==> lastHash == nextHash && nowMs <= lastAtMs + windowMs
  {
  }

  /** With the default 2000 ms window: the same hash 500 ms later, a
      different hash, the inclusive bound at +2000 ms and +2001 ms. */
  lemma SkipExamples(t: int)
    requires t != 0
    ensures ShouldSkipDuplicate(Some("h"), "h", Some(1000), 1500, DEFAULT_WINDOW_MS)
    ensures !ShouldSkipDuplicate(Some("h1"), "h2", Some(1000), 1500, DEFAULT_WINDOW_MS)
    ensures ShouldSkipDuplicate(Some("h"), "h", Some(t), t + 2000, DEFAULT_WINDOW_MS)
    ensures !ShouldSkipDuplicate(Some("h"), "h", Some(t), t + 2001, DEFAULT_WINDOW_MS)
  {
  }
}
