/**
 * The string normalisation both task forms apply before they write to the
 * store: JavaScript's `String.prototype.trim`, and `s.trim() || null`, which
 * turns a blank optional field into null (the empty string is falsy).
 */
module Text {
  import opened Wrappers

  /**
   * The code points `trim` removes from both ends: ECMAScript's WhiteSpace
   * (TAB, VT, FF, ZWNBSP and every space separator of category Zs) and its
   * LineTerminator set (LF, CR, LINE SEPARATOR, PARAGRAPH SEPARATOR).
   */
  predicate IsWhitespace(c: char) {
    var n := c as int;
    || n == 0x09 || n == 0x0A || n == 0x0B || n == 0x0C || n == 0x0D
    || n == 0x20 || n == 0xA0 || n == 0x1680 || (0x2000 <= n <= 0x200A)
    || n == 0x2028 || n == 0x2029 || n == 0x202F || n == 0x205F
    || n == 0x3000 || n == 0xFEFF
  }

  /** Every character of `s` is whitespace (the empty string included). */
  predicate IsBlank(s: string) {
    forall i :: 0 <= i < |s| ==> IsWhitespace(s[i])
  }

  /** `s` neither starts nor ends with whitespace. */
  predicate IsTrimmed(s: string) {
    s == [] || (!IsWhitespace(s[0]) && !IsWhitespace(s[|s| - 1]))
  }

  /** The index of the first character at or after `i` that is not
      whitespace, or `|s|` when there is none. */
  function SkipLeading(s: string, i: nat): (k: nat)
    requires i <= |s|
    ensures i <= k <= |s|
    ensures forall m :: i <= m < k ==> IsWhitespace(s[m])
    ensures k < |s| ==> !IsWhitespace(s[k])
    decreases |s| - i
  {
    if i < |s| && IsWhitespace(s[i]) then SkipLeading(s, i + 1) else i
  }

  /** One past the last character of `s[lo..j]` that is not whitespace, or
      `lo` when there is none. */
  function SkipTrailing(s: string, lo: nat, j: nat): (k: nat)
    requires lo <= j <= |s|
    ensures lo <= k <= j
    ensures forall m :: k <= m < j ==> IsWhitespace(s[m])
    ensures k > lo ==> !IsWhitespace(s[k - 1])
    decreases j
  {
    if j > lo && IsWhitespace(s[j - 1]) then SkipTrailing(s, lo, j - 1) else j
  }

  /** `s.trim()`: the slice of `s` left once the blank ends are cut off. */
  function Trim(s: string): (r: string)
    ensures IsTrimmed(r)
    ensures exists i, j :: 0 <= i <= j <= |s| && r == s[i..j] && IsBlank(s[..i]) && IsBlank(s[j..])
  {
    var i := SkipLeading(s, 0);
    var j := SkipTrailing(s, i, |s|);
    assert IsBlank(s[..i]) by {
      forall m | 0 <= m < i ensures IsWhitespace(s[..i][m]) {
        assert s[..i][m] == s[m];
      }
    }
    assert IsBlank(s[j..]) by {
      forall m | 0 <= m < |s| - j ensures IsWhitespace(s[j..][m]) {
        assert s[j..][m] == s[j + m];
      }
    }
    s[i..j]
  }

  /** A string trims to "" exactly when it is blank. */
  lemma TrimEmptyIffBlank(s: string)
    ensures Trim(s) == [] <==> IsBlank(s)
  {
    if !IsBlank(s) {
      var i, j :| 0 <= i <= j <= |s| && Trim(s) == s[i..j] && IsBlank(s[..i]) && IsBlank(s[j..]);
      if i == j {
        assert s == s[..i] + s[j..];
        BlankConcat(s[..i], s[j..]);
      }
    }
  }

  lemma BlankConcat(a: string, b: string)
    requires IsBlank(a) && IsBlank(b)
    ensures IsBlank(a + b)
  {
    forall k | 0 <= k < |a + b| ensures IsWhitespace((a + b)[k]) {
      if k >= |a| { assert (a + b)[k] == b[k - |a|]; }
    }
  }

  /** Trimming a string that is already trimmed gives it back unchanged. */
  lemma TrimOfTrimmed(s: string)
    requires IsTrimmed(s)
    ensures Trim(s) == s
  {
  }

  /** `trim` is idempotent. */
  lemma TrimIdempotent(s: string)
    ensures Trim(Trim(s)) == Trim(s)
  {
    TrimOfTrimmed(Trim(s));
  }

  /** `s.trim() || null`: the trimmed text, or null when nothing is left. */
  function TrimOrNull(s: string): (r: Option<string>)
    ensures r.None? <==> IsBlank(s)
    ensures r.Some? ==> r.value == Trim(s) && r.value != [] && IsTrimmed(r.value)
  {
    TrimEmptyIffBlank(s);
    if Trim(s) == [] then None else Some(Trim(s))
  }

  /** `x || ""`: how a form shows a nullable field. */
  function OrEmpty(o: Option<string>): string {
    if o.Some? then o.value else ""
  }

  /** The shape `TrimOrNull` produces: null, or a non-empty trimmed string. */
  predicate IsNormal(o: Option<string>) {
    o.None? || (o.value != [] && IsTrimmed(o.value))
  }

  /** Every result of `TrimOrNull` is normal. */
  lemma TrimOrNullIsNormal(s: string)
    ensures IsNormal(TrimOrNull(s))
  {
  }

  /** Showing a normal value in a form and normalising it again gives it back. */
  lemma {:induction false} NormalRoundTrip(o: Option<string>)
    requires IsNormal(o)
    ensures TrimOrNull(OrEmpty(o)) == o
  {
    if o.Some? {
      TrimOfTrimmed(o.value);
    } else {
      assert IsBlank("");
    }
  }

  /** Normalising twice (through the form) is the same as normalising once. */
  lemma TrimOrNullIdempotent(s: string)
    ensures TrimOrNull(OrEmpty(TrimOrNull(s))) == TrimOrNull(s)
  {
    TrimOrNullIsNormal(s);
    NormalRoundTrip(TrimOrNull(s));
  }
}
