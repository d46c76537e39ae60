/**
 * JavaScript strings as the component sees them: sequences of UTF-16 code
 * units, measured by `.length` and cut by `.trim()`.
 */
module JsText {

  /** One UTF-16 code unit. */
  newtype CodeUnit = x: int | 0 <= x < 0x1_0000

  /** A JavaScript string value. */
  type JsString = seq<CodeUnit>

  /** Every character of `s` lies in the Basic Multilingual Plane. */
  predicate InBmp(s: string) {
    forall i :: 0 <= i < |s| ==> s[i] as int < 0x1_0000
  }

  /** The JavaScript string a literal of BMP characters denotes: one code unit per character. */
  function Units(s: string): (r: JsString)
    requires InBmp(s)
    ensures |r| == |s| && forall i :: 0 <= i < |s| ==> r[i] as int == s[i] as int
  {
    seq(|s|, i requires 0 <= i < |s| => s[i] as int as CodeUnit)
  }

  /**
   * The code units `String.prototype.trim` strips: WhiteSpace (section 12.2 of
   * ECMA-262: TAB, VT, FF, ZWNBSP and the Unicode space separators) and
   * LineTerminator (section 12.3: LF, CR, LS, PS).
   */
  predicate IsWhitespace(c: CodeUnit) {
    || c == 0x09 || c == 0x0A || c == 0x0B || c == 0x0C || c == 0x0D
    || c == 0x20 || c == 0xA0 || c == 0x1680
    || (0x2000 <= c <= 0x200A)
    || c == 0x2028 || c == 0x2029 || c == 0x202F || c == 0x205F
    || c == 0x3000 || c == 0xFEFF
  }

  /** Every code unit of `s` is whitespace (true of the empty string). */
  predicate Blank(s: JsString) {
    forall i :: 0 <= i < |s| ==> IsWhitespace(s[i])
  }

  /** Neither end of `s` is whitespace. */
  predicate Tight(s: JsString) {
    s != [] ==> !IsWhitespace(s[0]) && !IsWhitespace(s[|s| - 1])
  }

  /** The index of the first code unit at or after `i` that is not whitespace (`|s|` if none). */
  function SkipStart(s: JsString, i: nat): (k: nat)
    requires i <= |s|
    ensures i <= k <= |s|
    ensures forall j :: i <= j < k ==> IsWhitespace(s[j])
    ensures k < |s| ==> !IsWhitespace(s[k])
    decreases |s| - i
  {
    if i < |s| && IsWhitespace(s[i]) then SkipStart(s, i + 1) else i
  }

  /** The end of `s[lo..hi]` once its trailing whitespace is dropped. */
  function SkipEnd(s: JsString, lo: nat, hi: nat): (k: nat)
    requires lo <= hi <= |s|
    ensures lo <= k <= hi
    ensures forall j :: k <= j < hi ==> IsWhitespace(s[j])
    ensures k > lo ==> !IsWhitespace(s[k - 1])
  {
    if lo < hi && IsWhitespace(s[hi - 1]) then SkipEnd(s, lo, hi - 1) else hi
  }

  /**
   * `String.prototype.trim`: the part of `s` between its leading and its
   * trailing whitespace.
   */
  function Trim(s: JsString): (r: JsString)
    ensures Tight(r)
    ensures r == [] <==> Blank(s)
    ensures |r| <= |s|
  {
    var a := SkipStart(s, 0);
    var b := SkipEnd(s, a, |s|);
    assert a == b ==> a == |s|;
    assert a < b ==> s[a] == s[a..b][0];
    s[a..b]
  }

  /** Whitespace around a tight core is exactly what `Trim` removes. */
  lemma TrimExact(a: JsString, m: JsString, b: JsString)
    requires Blank(a) && Blank(b) && Tight(m)
    ensures Trim(a + m + b) == m
  {
    var s := a + m + b;
    if m == [] {
      assert Blank(s) by {
        forall k | 0 <= k < |s| ensures IsWhitespace(s[k]) {
          if k < |a| { assert s[k] == a[k]; } else { assert s[k] == b[k - |a|]; }
        }
      }
    } else {
      var lo := SkipStart(s, 0);
      assert s[|a|] == m[0];
      assert forall j :: 0 <= j < |a| ==> s[j] == a[j];
      assert lo == |a|;
      var hi := SkipEnd(s, lo, |s|);
      assert s[|a| + |m| - 1] == m[|m| - 1];
      assert forall j :: |a| + |m| <= j < |s| ==> s[j] == b[j - |a| - |m|];
      assert hi == |a| + |m|;
      assert s[lo..hi] == m;
    }
  }

  /** A string with no whitespace at either end is its own trim. */
  lemma TrimTight(s: JsString)
    requires Tight(s)
    ensures Trim(s) == s
  {
  }

  /** Trimming twice is trimming once. */
  lemma TrimIdempotent(s: JsString)
    ensures Trim(Trim(s)) == Trim(s)
  {
  }
}
