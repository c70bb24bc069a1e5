/**
 * Python's `str.strip()` with no argument, which the notebook route applies
 * to submitted note content before deciding whether it is empty.
 */
module Text {

  /** The characters `str.strip()` removes: those Python's `str.isspace()` accepts. */
  predicate IsSpace(c: char) {
    || c == ' '
    || ('\t' <= c <= '\r')            // tab, line feed, vertical tab, form feed, carriage return
    || ('\U{1c}' <= c <= '\U{1f}')    // file, group, record and unit separators
    || c == '\U{85}' || c == '\U{a0}' || c == '\U{1680}'
    || ('\U{2000}' <= c <= '\U{200a}')
    || c == '\U{2028}' || c == '\U{2029}' || c == '\U{202f}' || c == '\U{205f}' || c == '\U{3000}'
  }

  /** Every character of `s` is whitespace (vacuously so for the empty string). */
  predicate Blank(s: string) {
    forall i :: 0 <= i < |s| ==> IsSpace(s[i])
  }

  /** Neither end of `s` is whitespace: a string `strip()` leaves as it is. */
  predicate Trimmed(s: string) {
    s == [] || (!IsSpace(s[0]) && !IsSpace(s[|s| - 1]))
  }

  /** The length of the longest all-whitespace prefix of `s`. */
  function LeadingSpaces(s: string): (k: nat)
    ensures k <= |s|
    ensures forall i :: 0 <= i < k ==> IsSpace(s[i])
    ensures k < |s| ==> !IsSpace(s[k])
  {
    if |s| > 0 && IsSpace(s[0]) then 1 + LeadingSpaces(s[1..]) else 0
  }

  /** The length of the longest all-whitespace suffix of `s`. */
  function TrailingSpaces(s: string): (k: nat)
    ensures k <= |s|
    ensures forall i :: |s| - k <= i < |s| ==> IsSpace(s[i])
    ensures k < |s| ==> !IsSpace(s[|s| - 1 - k])
  {
    if |s| > 0 && IsSpace(s[|s| - 1]) then 1 + TrailingSpaces(s[..|s| - 1]) else 0
  }

  /**
   * `s.strip()`: the slice of `s` left once every leading and every trailing
   * whitespace character is removed.
   */
  function Strip(s: string): (r: string)
    ensures |r| <= |s|
    ensures Trimmed(r)
    ensures LeadingSpaces(s) + |r| <= |s|
    ensures r == s[LeadingSpaces(s)..LeadingSpaces(s) + |r|]
    ensures Blank(s[LeadingSpaces(s) + |r|..])
  {
    var i := LeadingSpaces(s);
    var rest := s[i..];
    var t := TrailingSpaces(rest);
    var r := rest[..|rest| - t];
    assert r != [] ==> r[0] == s[i] && r[|r| - 1] == rest[|rest| - 1 - t];
    assert r == s[i..i + |r|];
    assert s[i + |r|..] == rest[|rest| - t..];
    r
  }

  /** The stripped text is empty exactly when the input was all whitespace. */
  lemma StripEmptyIffBlank(s: string)
    ensures Strip(s) == [] <==> Blank(s)
  {
  }

  /** A string with no whitespace at either end is left unchanged. */
  lemma StripKeepsTrimmed(s: string)
    requires Trimmed(s)
    ensures Strip(s) == s
  {
  }

  /** Stripping twice is stripping once. */
  lemma StripIdempotent(s: string)
    ensures Strip(Strip(s)) == Strip(s)
  {
  }

  /**
   * Strip is determined by its contract: any slice `s[i..j]` that has only
   * whitespace before and after it, and no whitespace at its own ends, is
   * `Strip(s)`.
   */
  lemma StripCharacterized(s: string, i: nat, j: nat)
    requires i <= j <= |s|
    requires Blank(s[..i]) && Blank(s[j..]) && Trimmed(s[i..j])
    ensures Strip(s) == s[i..j]
  {
  }
}
