/**
 * The few Python string built-ins the core relies on, on `string` (a `seq<char>`):
 * `str.isspace`, `str.strip`, `str.lower`, the `in` substring test, `str.join`
 * and the decimal rendering of a natural number.
 */
module Text {

  /**
   * Python's notion of whitespace: the characters for which `str.isspace()` holds.
   * The same set is matched by `\s` in a `str` regular expression and removed by `str.strip()`.
   */
  predicate IsSpace(c: char) {
    || ('\t' <= c <= '\r')                   // tab, newline, vertical tab, form feed, carriage return
    || ('\U{1C}' <= c <= '\U{1F}')           // file, group, record and unit separators
    || c == ' ' || c == '\U{85}' || c == '\U{A0}' || c == '\U{1680}'
    || ('\U{2000}' <= c <= '\U{200A}')
    || c == '\U{2028}' || c == '\U{2029}' || c == '\U{202F}' || c == '\U{205F}' || c == '\U{3000}'
  }

  /** `not s or not s.strip()`: the string is empty or consists of whitespace only. */
  predicate IsBlank(s: string) {
    forall i :: 0 <= i < |s| ==> IsSpace(s[i])
  }

  /** Length of the longest prefix of `s` whose characters all satisfy `inRun`. */
  function RunLength(s: string, inRun: char -> bool): (k: nat)
    ensures k <= |s|
  {
    if s == [] || !inRun(s[0]) then 0 else 1 + RunLength(s[1..], inRun)
  }

  /** The run is made of `inRun` characters and ends at the first one that is not. */
  lemma {:induction false} RunLengthShape(s: string, inRun: char -> bool)
    ensures forall i :: 0 <= i < RunLength(s, inRun) ==> inRun(s[i])
    ensures RunLength(s, inRun) < |s| ==> !inRun(s[RunLength(s, inRun)])
    decreases |s|
  {
    if s != [] && inRun(s[0]) {
      RunLengthShape(s[1..], inRun);
      forall i | 0 < i < RunLength(s, inRun) ensures inRun(s[i]) {
        assert s[i] == s[1..][i - 1];
      }
    }
  }

  /** Start of the longest whitespace suffix of `s`. */
  function TrailStart(s: string): (k: nat)
    ensures k <= |s|
  {
    if s == [] || !IsSpace(s[|s| - 1]) then |s| else TrailStart(s[..|s| - 1])
  }

  /** Everything from `TrailStart(s)` on is whitespace and the character before it is not. */
  lemma {:induction false} TrailStartShape(s: string)
    ensures forall i :: TrailStart(s) <= i < |s| ==> IsSpace(s[i])
    ensures 0 < TrailStart(s) ==> !IsSpace(s[TrailStart(s) - 1])
    decreases |s|
  {
    if s != [] && IsSpace(s[|s| - 1]) {
      var t := s[..|s| - 1];
      TrailStartShape(t);
      forall i | TrailStart(s) <= i < |s| ensures IsSpace(s[i]) {
        if i < |s| - 1 { assert s[i] == t[i]; }
      }
    }
  }

  /** `s.strip()`: the slice of `s` left after removing the whitespace at both ends. */
  function Strip(s: string): string {
    var i := RunLength(s, IsSpace);
    var j := TrailStart(s);
    if i < j then s[i..j] else []
  }

  /**
   * `Strip` removes exactly the whitespace at both ends: its result is a slice
   * `s[i..j]` with only whitespace outside it, empty exactly for a blank string, and
   * otherwise beginning and ending with a non-whitespace character.
   */
  lemma StripSlice(s: string) returns (i: nat, j: nat)
    ensures i <= j <= |s| && Strip(s) == s[i..j]
    ensures IsBlank(s[..i]) && IsBlank(s[j..])
    ensures IsBlank(s) <==> Strip(s) == []
    ensures Strip(s) != [] ==> !IsSpace(Strip(s)[0]) && !IsSpace(Strip(s)[|Strip(s)| - 1])
  {
    i, j := RunLength(s, IsSpace), TrailStart(s);
    RunLengthShape(s, IsSpace);
    TrailStartShape(s);
    if j <= i {
      i, j := 0, 0;
    }
    assert IsBlank(s[..i]) && IsBlank(s[j..]);
  }

  /** A string that `Strip` leaves alone is one without whitespace at either end. */
  lemma StripUnchanged(s: string)
    requires s == [] || (!IsSpace(s[0]) && !IsSpace(s[|s| - 1]))
    ensures Strip(s) == s
  {
    if s != [] {
      assert RunLength(s, IsSpace) == 0 && TrailStart(s) == |s|;
      assert s[0..|s|] == s;
    }
  }

  /** ASCII lower-casing of one character. */
  function LowerChar(c: char): char {
    if 'A' <= c <= 'Z' then (c as int + 32) as char else c
  }

  /**
   * `s.lower()` restricted to ASCII letters. For the comparisons the core makes
   * (file extensions, prompt-mode names, all ASCII) this is exact: the only
   * non-ASCII characters Python lower-cases to ASCII are the Kelvin sign (to `k`)
   * and the dotted capital I (to two characters), and no compared name contains `k`
   * or a combining dot.
   */
  function Lower(s: string): (r: string)
    ensures |r| == |s|
    ensures forall i :: 0 <= i < |s| ==> r[i] == LowerChar(s[i])
  {
    seq(|s|, i requires 0 <= i < |s| => LowerChar(s[i]))
  }

  /** Lower-casing twice is lower-casing once. */
  lemma LowerIdempotent(s: string)
    ensures Lower(Lower(s)) == Lower(s)
  {
    forall i | 0 <= i < |s| ensures Lower(Lower(s))[i] == Lower(s)[i] {
      assert Lower(s)[i] == LowerChar(s[i]);
    }
  }

  /** `pattern` occurs in `s` starting at index `i`. */
  predicate OccursAt(s: string, pattern: string, i: int) {
    0 <= i <= |s| - |pattern| && s[i..i + |pattern|] == pattern
  }

  /** Python's `pattern in s` for strings. */
  predicate Contains(s: string, pattern: string) {
    exists i | 0 <= i <= |s| - |pattern| :: OccursAt(s, pattern, i)
  }

  /** `sep.join(parts)`. */
  function Join(parts: seq<string>, sep: string): (r: string)
    ensures parts != [] ==> parts[0] <= r
  {
    if parts == [] then []
    else if |parts| == 1 then parts[0]
    else parts[0] + sep + Join(parts[1..], sep)
  }

  function DigitChar(d: nat): char
    requires d < 10
  {
    ('0' as int + d) as char
  }

  /** `str(n)` for a natural number: a non-empty string of decimal digits. */
  function NatToString(n: nat): (r: string)
    ensures r != []
    ensures forall i :: 0 <= i < |r| ==> '0' <= r[i] <= '9'
  {
    if n < 10 then [DigitChar(n)] else NatToString(n / 10) + [DigitChar(n % 10)]
  }
}
