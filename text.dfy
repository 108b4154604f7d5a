/** String helpers the catalog search relies on: an ASCII model of
    `String.prototype.toLowerCase` and of `String.prototype.includes`. */
module Text {

  /** Lower-cases one character; only the ASCII letters 'A'..'Z' change. */
  function LowerChar(c: char): (r: char)
    ensures 'A' <= c <= 'Z' ==> 'a' <= r <= 'z' && r as int == c as int + 32
    ensures !('A' <= c <= 'Z') ==> r == c
  {
    if 'A' <= c <= 'Z' then (c as int + 32) as char else c
  }

  /** ASCII model of `toLowerCase`: the character-wise fold. */
  function Lower(s: string): (r: string)
    ensures |r| == |s|
    ensures forall i :: 0 <= i < |s| ==> r[i] == LowerChar(s[i])
  {
    if s == [] then [] else [LowerChar(s[0])] + Lower(s[1..])
  }

  /** Folding twice is folding once. */
  lemma LowerIdempotent(s: string)
    ensures Lower(Lower(s)) == Lower(s)
  {
  }

  /** `pat` occurs in `text` starting at index `i`. */
  predicate OccursAt(text: string, pat: string, i: int)
  {
    0 <= i && i + |pat| <= |text| && text[i..i + |pat|] == pat
  }

  /** Model of `text.includes(pat)`: scans the start positions left to right. */
  function Contains(text: string, pat: string): (r: bool)
    ensures r <==> exists i :: OccursAt(text, pat, i)
    decreases |text|
  {
    if |pat| > |text| then
      assert forall i :: !OccursAt(text, pat, i);
      false
    else if text[..|pat|] == pat then
      assert OccursAt(text, pat, 0);
      true
    else
      var rest := Contains(text[1..], pat);
      ShiftOccurrence(text, pat);
      rest
  }

  /** When `pat` does not start `text`, its occurrences in `text` are those in `text[1..]` moved by one. */
  lemma ShiftOccurrence(text: string, pat: string)
    requires |pat| <= |text| && text[..|pat|] != pat
    ensures (exists i :: OccursAt(text, pat, i)) <==> (exists i :: OccursAt(text[1..], pat, i))
  {
    if i :| OccursAt(text, pat, i) {
      assert i != 0;
      assert text[1..][i - 1..i - 1 + |pat|] == text[i..i + |pat|];
      assert OccursAt(text[1..], pat, i - 1);
    }
    if i :| OccursAt(text[1..], pat, i) {
      assert text[1..][i..i + |pat|] == text[i + 1..i + 1 + |pat|];
      assert OccursAt(text, pat, i + 1);
    }
  }

  /** The empty pattern occurs in every string, as `"abc".includes("")` is true. */
  lemma ContainsEmpty(text: string)
    ensures Contains(text, "")
  {
  }
}
