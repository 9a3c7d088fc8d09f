/**
 * The string operations the search command relies on: `strings.ToLower`
 * (restricted to ASCII), `strings.Join`, `strings.Contains`, and the
 * regular expression `[0-9a-f]{4}:[0-9a-f]{4}` used unanchored.
 */
module Text {

  /** ASCII case folding of one character. */
  function LowerChar(c: char): char {
    if 'A' <= c <= 'Z' then (c as int + ('a' as int - 'A' as int)) as char else c
  }

  predicate IsUpper(c: char) {
    'A' <= c <= 'Z'
  }

  /** `strings.ToLower`, on ASCII letters only. */
  function Lower(s: string): string {
    seq(|s|, i requires 0 <= i < |s| => LowerChar(s[i]))
  }

  /** Lowering leaves no upper-case letter, keeps the length, and lowering twice changes nothing. */
  lemma LowerNormalises(s: string)
    ensures |Lower(s)| == |s|
    ensures forall i :: 0 <= i < |s| ==> !IsUpper(Lower(s)[i])
    ensures Lower(Lower(s)) == Lower(s)
  {
    forall i | 0 <= i < |s| ensures !IsUpper(Lower(s)[i]) && LowerChar(Lower(s)[i]) == Lower(s)[i] {
      assert Lower(s)[i] == LowerChar(s[i]);
    }
  }

  /** Lowering commutes with taking a slice. */
  lemma LowerSlice(s: string, i: nat, j: nat)
    requires i <= j <= |s|
    ensures Lower(s)[i..j] == Lower(s[i..j])
  {
    forall k | 0 <= k < j - i ensures Lower(s)[i..j][k] == Lower(s[i..j])[k] {
      assert Lower(s)[i..j][k] == LowerChar(s[i + k]);
    }
  }

  /** A string that contains another still contains it once both are lowered. */
  lemma LowerContains(hay: string, needle: string)
    requires Contains(hay, needle)
    ensures Contains(Lower(hay), Lower(needle))
  {
    var i: nat :| i <= |hay| && OccursAt(hay, needle, i);
    LowerSlice(hay, i, i + |needle|);
    assert OccursAt(Lower(hay), Lower(needle), i);
  }

  /** `strings.Join(parts, sep)`. */
  function Join(parts: seq<string>, sep: string): string
    decreases |parts|
  {
    if |parts| == 0 then ""
    else if |parts| == 1 then parts[0]
    else parts[0] + sep + Join(parts[1..], sep)
  }

  /** The joined string holds every part and one separator between neighbours. */
  lemma {:induction false} JoinLength(parts: seq<string>, sep: string)
    ensures |parts| > 0 ==> |Join(parts, sep)| == SumLengths(parts) + (|parts| - 1) * |sep|
    ensures |parts| == 0 ==> Join(parts, sep) == ""
    decreases |parts|
  {
    if |parts| > 1 {
      JoinLength(parts[1..], sep);
    }
  }

  function SumLengths(parts: seq<string>): nat
    decreases |parts|
  {
    if |parts| == 0 then 0 else |parts[0]| + SumLengths(parts[1..])
  }

  /** `strings.Contains(hay, needle)`; the empty needle is contained in every string. */
  predicate Contains(hay: string, needle: string) {
    exists i: nat :: i <= |hay| && OccursAt(hay, needle, i)
  }

  /** `needle` occurs in `hay` starting at offset `i`. */
  predicate OccursAt(hay: string, needle: string, i: nat) {
    i + |needle| <= |hay| && hay[i..i + |needle|] == needle
  }

  /** Every part of a join is contained in the joined string. */
  lemma {:induction false} JoinContainsParts(parts: seq<string>, sep: string, k: nat)
    requires k < |parts|
    ensures Contains(Join(parts, sep), parts[k])
    decreases |parts|
  {
    var j := Join(parts, sep);
    if k == 0 {
      assert OccursAt(j, parts[0], 0);
    } else {
      JoinContainsParts(parts[1..], sep, k - 1);
      var rest := Join(parts[1..], sep);
      var i: nat :| i <= |rest| && OccursAt(rest, parts[k], i);
      var off := |parts[0]| + |sep|;
      assert j == parts[0] + sep + rest;
      assert j[off + i..off + i + |parts[k]|] == rest[i..i + |parts[k]|];
      assert OccursAt(j, parts[k], off + i);
    }
  }

  predicate IsLowerHexDigit(c: char) {
    '0' <= c <= '9' || 'a' <= c <= 'f'
  }

  /** `[0-9a-f]{4}:[0-9a-f]{4}` matches `s` starting at offset `k`. */
  predicate UsbIdAt(s: string, k: nat) {
    k + 9 <= |s| &&
    IsLowerHexDigit(s[k]) && IsLowerHexDigit(s[k + 1]) &&
    IsLowerHexDigit(s[k + 2]) && IsLowerHexDigit(s[k + 3]) &&
    s[k + 4] == ':' &&
    IsLowerHexDigit(s[k + 5]) && IsLowerHexDigit(s[k + 6]) &&
    IsLowerHexDigit(s[k + 7]) && IsLowerHexDigit(s[k + 8])
  }

  /** The unanchored `regexp.MatchString("[0-9a-f]{4}:[0-9a-f]{4}", s)`. */
  predicate ContainsUsbId(s: string)
    ensures ContainsUsbId(s) ==> |s| >= 9
  {
    exists k: nat :: k + 9 <= |s| && UsbIdAt(s, k)
  }

  /** The pattern is unanchored: text added before or after a match leaves it matching. */
  lemma UsbIdUnanchored(before: string, s: string, after: string)
    requires ContainsUsbId(s)
    ensures ContainsUsbId(before + s + after)
  {
    var k: nat :| k + 9 <= |s| && UsbIdAt(s, k);
    var t := before + s + after;
    assert t[|before| + k..|before| + k + 9] == s[k..k + 9];
    assert UsbIdAt(t, |before| + k);
  }
}
