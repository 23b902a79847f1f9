/** JavaScript strings as sequences of UTF-16 code units, with the few
    String.prototype operations the application relies on. */
module JsString {

  /** One UTF-16 code unit, the value `charCodeAt` returns; `length` and
      `slice` count these. */
  type CodeUnit = c: int | 0 <= c < 0x1_0000

  /** A JavaScript string value. */
  type JsText = seq<CodeUnit>

  /** The code units that `String.prototype.trim` strips: the ECMAScript
      WhiteSpace set (TAB, VT, FF, SP, NBSP, ZWNBSP and the Unicode "Zs"
      category) and the LineTerminator set (LF, CR, LS, PS). */
  predicate IsJsWhitespace(c: CodeUnit) {
    c == 0x0009 || c == 0x000A || c == 0x000B || c == 0x000C || c == 0x000D ||
    c == 0x0020 || c == 0x00A0 || c == 0x1680 ||
    (0x2000 <= c <= 0x200A) ||
    c == 0x2028 || c == 0x2029 || c == 0x202F || c == 0x205F ||
    c == 0x3000 || c == 0xFEFF
  }

  /** Every code unit of `s` is whitespace (vacuously true for ""). */
  predicate AllWhitespace(s: JsText) {
    forall i :: 0 <= i < |s| ==> IsJsWhitespace(s[i])
  }

  /** `s` with leading whitespace removed. */
  function TrimStart(s: JsText): (r: JsText)
    ensures |r| <= |s| && r == s[|s| - |r|..]
    ensures r == [] || !IsJsWhitespace(r[0])
    ensures AllWhitespace(s[..|s| - |r|])
  {
    if |s| > 0 && IsJsWhitespace(s[0]) then
      var r := TrimStart(s[1..]);
      assert s[..|s| - |r|] == [s[0]] + s[1..][..|s| - 1 - |r|];
      r
    else s
  }

  /** `s` with trailing whitespace removed. */
  function TrimEnd(s: JsText): (r: JsText)
    ensures |r| <= |s| && r == s[..|r|]
    ensures r == [] || !IsJsWhitespace(r[|r| - 1])
    ensures AllWhitespace(s[|r|..])
  {
    if |s| > 0 && IsJsWhitespace(s[|s| - 1]) then
      var r := TrimEnd(s[..|s| - 1]);
      assert s[|r|..] == s[..|s| - 1][|r|..] + [s[|s| - 1]];
      r
    else s
  }

  /** `String.prototype.trim`: strip whitespace at both ends. */
  function Trim(s: JsText): (r: JsText)
    ensures |r| <= |s|
    ensures r == [] || (!IsJsWhitespace(r[0]) && !IsJsWhitespace(r[|r| - 1]))
  {
    TrimEnds(TrimStart(s));
    TrimEnd(TrimStart(s))
  }

  /** Trim's result, first code unit first: the units it keeps are those of
      `s` from index `|s| - |TrimStart(s)|` on, up to its own length. */
  lemma {:induction false} TrimIsInnerSlice(s: JsText)
    ensures |s| - |TrimStart(s)| + |Trim(s)| <= |s|
    ensures Trim(s) == s[|s| - |TrimStart(s)|..|s| - |TrimStart(s)| + |Trim(s)|]
    ensures Trim(s) == [] || (!IsJsWhitespace(Trim(s)[0]) && !IsJsWhitespace(Trim(s)[|Trim(s)| - 1]))
  {
    TrimIsSlice(s);
    TrimEnds(TrimStart(s));
  }

  /** The slice half of TrimIsInnerSlice. */
  lemma {:induction false} TrimIsSlice(s: JsText)
    ensures |s| - |TrimStart(s)| + |Trim(s)| <= |s|
    ensures Trim(s) == s[|s| - |TrimStart(s)|..|s| - |TrimStart(s)| + |Trim(s)|]
  {
    var t := TrimStart(s);
    SliceOfSuffix(s, |s| - |t|, t, TrimEnd(t));
  }

  /** Trimming the end of text that starts with non-whitespace leaves both
      ends non-whitespace. */
  lemma {:induction false} TrimEnds(t: JsText)
    requires t == [] || !IsJsWhitespace(t[0])
    ensures var r := TrimEnd(t);
      r == [] || (!IsJsWhitespace(r[0]) && !IsJsWhitespace(r[|r| - 1]))
  {
    var r := TrimEnd(t);
    if r != [] {
      assert r[0] == t[0];
    }
  }

  /** A prefix of the suffix of `s` from `i` is a slice of `s` from `i`. */
  lemma SliceOfSuffix(s: JsText, i: nat, t: JsText, r: JsText)
    requires i <= |s| && t == s[i..] && |r| <= |t| && r == t[..|r|]
    ensures r == s[i..i + |r|]
  {
  }

  /** trim gives "" exactly when the whole input is whitespace. */
  lemma TrimEmptyIff(s: JsText)
    ensures Trim(s) == [] <==> AllWhitespace(s)
  {
    var t := TrimStart(s);
    var i := |s| - |t|;
    if Trim(s) == [] {
      assert s[..i] == s;
    } else {
      TrimIsInnerSlice(s);
      assert s[i] == Trim(s)[0];
    }
  }

  /** Trimming an already-trimmed string changes nothing. */
  lemma TrimOfTrimmed(s: JsText)
    requires s == [] || (!IsJsWhitespace(s[0]) && !IsJsWhitespace(s[|s| - 1]))
    ensures Trim(s) == s
  {
  }

  /** Lower-casing of one code unit: the ASCII letters A-Z map to a-z; every
      other unit is left as it is. */
  function LowerUnit(c: CodeUnit): (r: CodeUnit)
    ensures 0x41 <= c <= 0x5A ==> r == c + 0x20
    ensures !(0x41 <= c <= 0x5A) ==> r == c
  {
    if 0x41 <= c <= 0x5A then c + 0x20 else c
  }

  /** `String.prototype.toLowerCase`, unit by unit. */
  function ToLower(s: JsText): (r: JsText)
    ensures |r| == |s|
    ensures forall i :: 0 <= i < |s| ==> r[i] == LowerUnit(s[i])
  {
    if s == [] then [] else [LowerUnit(s[0])] + ToLower(s[1..])
  }

  /** `needle` occurs in `hay` starting at index `at`. */
  predicate OccursAt(hay: JsText, needle: JsText, at: nat) {
    at + |needle| <= |hay| && hay[at..at + |needle|] == needle
  }

  /** `String.prototype.includes`: does `needle` occur anywhere in `hay`,
      searching from index `from` onward. */
  function IncludesFrom(hay: JsText, needle: JsText, from: nat): (b: bool)
    ensures b <==> exists at :: from <= at && OccursAt(hay, needle, at)
    decreases |hay| - from
  {
    if from + |needle| > |hay| then false
    else if hay[from..from + |needle|] == needle then assert OccursAt(hay, needle, from); true
    else IncludesFrom(hay, needle, from + 1)
  }

  /** `hay.includes(needle)`. */
  function Includes(hay: JsText, needle: JsText): (b: bool)
    ensures b <==> exists at :: OccursAt(hay, needle, at)
  {
    IncludesFrom(hay, needle, 0)
  }
}
