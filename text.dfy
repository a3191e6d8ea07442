/** The text operations `search_products` relies on: `str.lower` and the `in` substring test. */
module Text {

  /** Upper-case letters that `str.lower` maps one-to-one onto a letter 32 code points
      higher: ASCII A..Z and the Latin-1 capitals U+00C0..U+00DE except U+00D7 (the sign ×). */
  predicate IsUpper(c: char) {
    ('A' <= c <= 'Z') || ('\U{C0}' <= c <= '\U{DE}' && c != '\U{D7}')
  }

  /** One character of `str.lower`. */
  function LowerChar(c: char): (r: char)
    ensures !IsUpper(r)
    ensures r != c <==> IsUpper(c)
  {
    if IsUpper(c) then (c as int + 32) as char else c
  }

  /** `s.lower()`, character by character. */
  function Lower(s: string): (r: string)
    ensures |r| == |s|
    ensures forall i :: 0 <= i < |s| ==> r[i] == LowerChar(s[i])
  {
    if s == [] then [] else [LowerChar(s[0])] + Lower(s[1..])
  }

  /** Lower-casing twice is lower-casing once. */
  lemma LowerIdempotent(s: string)
    ensures Lower(Lower(s)) == Lower(s)
  {
    var once := Lower(s);
    var twice := Lower(once);
    assert forall i :: 0 <= i < |s| ==> twice[i] == once[i];
  }

  /** `pattern` occurs in `text` starting at position `i`. */
  predicate OccursAt(text: string, pattern: string, i: nat) {
    i + |pattern| <= |text| && text[i..i + |pattern|] == pattern
  }

  /** `pattern` occurs in `text` at some position. */
  ghost predicate OccursIn(text: string, pattern: string) {
    exists i: nat :: OccursAt(text, pattern, i)
  }

  /** Python's `pattern in text` on strings: a contained pattern is no longer than the
      text, and a prefix of the text, the empty string included, is contained. */
  predicate Contains(text: string, pattern: string)
    ensures Contains(text, pattern) ==> |pattern| <= |text|
    ensures pattern <= text ==> Contains(text, pattern)
    decreases |text|
  {
    pattern <= text || (text != [] && Contains(text[1..], pattern))
  }

  /** `Contains` holds exactly when the pattern occurs at some position. */
  lemma {:induction false} ContainsIffOccurs(text: string, pattern: string)
    ensures Contains(text, pattern) <==> OccursIn(text, pattern)
  {
    if Contains(text, pattern) {
      if pattern <= text {
        assert OccursAt(text, pattern, 0);
      } else {
        ContainsIffOccurs(text[1..], pattern);
        var i: nat :| OccursAt(text[1..], pattern, i);
        SliceOfTail(text, i, |pattern|);
        assert OccursAt(text, pattern, i + 1);
      }
    }
    if exists i: nat :: OccursAt(text, pattern, i) {
      var i: nat :| OccursAt(text, pattern, i);
      if i == 0 {
        assert pattern <= text;
      } else {
        SliceOfTail(text, i - 1, |pattern|);
        assert OccursAt(text[1..], pattern, i - 1);
        ContainsIffOccurs(text[1..], pattern);
      }
    }
  }

  /** A slice of the tail is the slice of the text one position further on. */
  lemma SliceOfTail(text: string, i: nat, n: nat)
    requires 1 + i + n <= |text|
    ensures text[1..][i..i + n] == text[i + 1..i + 1 + n]
  {
    var shifted := text[1..][i..i + n];
    var direct := text[i + 1..i + 1 + n];
    assert forall k :: 0 <= k < n ==> shifted[k] == direct[k];
  }

  /** The empty string is in every string. */
  lemma ContainsEmpty(text: string)
    ensures Contains(text, "")
  {
  }
}
