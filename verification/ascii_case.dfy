/** ASCII case mapping and Python's `str.capitalize`, used to normalise a
    Pokemon's name before it is stored (GetPokemon.py:64). */
module AsciiCase {

  predicate IsAsciiUpper(c: char) {
    'A' <= c <= 'Z'
  }

  predicate IsAsciiLower(c: char) {
    'a' <= c <= 'z'
  }

  /** `a` and `b` are the same character up to ASCII letter case. This is the
      reference relation the case mappings below are specified against. */
  predicate SameIgnoringCase(a: char, b: char) {
    || a == b
    || (IsAsciiLower(a) && b as int == a as int - 32)
    || (IsAsciiUpper(a) && b as int == a as int + 32)
  }

  /** Two strings of equal length that agree position by position up to case. */
  predicate SeqSameIgnoringCase(s: string, t: string) {
    |s| == |t| && forall i :: 0 <= i < |s| ==> SameIgnoringCase(s[i], t[i])
  }

  /** Upper-cases an ASCII lower-case letter; every other character is kept. */
  function ToUpper(c: char): (u: char)
    ensures SameIgnoringCase(c, u)
    ensures !IsAsciiLower(u)
  {
    if IsAsciiLower(c) then (c as int - 32) as char else c
  }

  /** Lower-cases an ASCII upper-case letter; every other character is kept. */
  function ToLower(c: char): (l: char)
    ensures SameIgnoringCase(c, l)
    ensures !IsAsciiUpper(l)
  {
    if IsAsciiUpper(c) then (c as int + 32) as char else c
  }

  /** The characters of `s`, each lower-cased. */
  function LowerAll(s: string): (r: string)
    ensures |r| == |s|
    ensures forall i :: 0 <= i < |s| ==> SameIgnoringCase(s[i], r[i]) && !IsAsciiUpper(r[i])
  {
    seq(|s|, i requires 0 <= i < |s| => ToLower(s[i]))
  }

  /** A string in capitalised form: the first character is not a lower-case
      letter and no later character is an upper-case letter. */
  predicate IsCapitalized(s: string) {
    && (|s| > 0 ==> !IsAsciiLower(s[0]))
    && forall i :: 1 <= i < |s| ==> !IsAsciiUpper(s[i])
  }

  /** Python's `str.capitalize` restricted to ASCII: the first character
      upper-cased and the rest lower-cased. The result is the capitalised
      string that equals `s` up to case. */
  function Capitalize(s: string): (r: string)
    ensures SeqSameIgnoringCase(s, r)
    ensures IsCapitalized(r)
  {
    if |s| == 0 then "" else [ToUpper(s[0])] + LowerAll(s[1..])
  }

  /** At most one capitalised string lies in each case-insensitive class. */
  lemma CapitalizedUnique(s: string, t: string)
    requires SeqSameIgnoringCase(s, t)
    requires IsCapitalized(s) && IsCapitalized(t)
    ensures s == t
  {
    forall i | 0 <= i < |s|
      ensures s[i] == t[i]
    {
      if i == 0 {
        assert !IsAsciiLower(s[0]) && !IsAsciiLower(t[0]);
      } else {
        assert !IsAsciiUpper(s[i]) && !IsAsciiUpper(t[i]);
      }
    }
  }

  /** Case-insensitive equality is symmetric and transitive. */
  lemma SeqSameIgnoringCaseSymmetric(s: string, t: string)
    requires SeqSameIgnoringCase(s, t)
    ensures SeqSameIgnoringCase(t, s)
  {
  }

  lemma SeqSameIgnoringCaseTransitive(s: string, t: string, u: string)
    requires SeqSameIgnoringCase(s, t) && SeqSameIgnoringCase(t, u)
    ensures SeqSameIgnoringCase(s, u)
  {
  }

  /** Capitalising leaves a string unchanged exactly when it is already in
      capitalised form. */
  lemma CapitalizeFixedPoints(s: string)
    ensures Capitalize(s) == s <==> IsCapitalized(s)
  {
    if IsCapitalized(s) {
      CapitalizedUnique(s, Capitalize(s));
    }
  }

  /** Capitalising twice is the same as capitalising once. */
  lemma CapitalizeIdempotent(s: string)
    ensures Capitalize(Capitalize(s)) == Capitalize(s)
  {
    CapitalizeFixedPoints(Capitalize(s));
  }

  /** Two names capitalise to the same string exactly when they are equal up
      to ASCII case, so `Bulbasaur`, `bulbasaur` and `BULBASAUR` share one
      stored name (and hence one `name_pii`). */
  lemma CapitalizeIgnoresCase(s: string, t: string)
    ensures Capitalize(s) == Capitalize(t) <==> SeqSameIgnoringCase(s, t)
  {
    var cs, ct := Capitalize(s), Capitalize(t);
    if SeqSameIgnoringCase(s, t) {
      SeqSameIgnoringCaseSymmetric(s, cs);
      SeqSameIgnoringCaseTransitive(cs, s, t);
      SeqSameIgnoringCaseTransitive(cs, t, ct);
      CapitalizedUnique(cs, ct);
    }
    if cs == ct {
      SeqSameIgnoringCaseSymmetric(t, ct);
      SeqSameIgnoringCaseTransitive(s, cs, t);
    }
  }
}
