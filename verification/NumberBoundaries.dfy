/**
 * The rule that separates words at digits: every leftmost match of a letter,
 * digits, a letter and digits is spaced out as "letter digits letter-digits".
 * Matches do not overlap, so one may be left over; `Numbered` says when.
 */
module NumberBoundaries {
  import opened Common

  predicate IsLower(c: char) { 'a' <= c <= 'z' }

  predicate IsLetter(c: char) { IsUpper(c) || IsLower(c) }

  predicate IsDigit(c: char) { '0' <= c <= '9' }

  /** The number of digits at the front. */
  function Digits(s: string): (n: nat)
    ensures n <= |s| && (forall i :: 0 <= i < n ==> IsDigit(s[i])) && (n < |s| ==> !IsDigit(s[n]))
  {
    if s != "" && IsDigit(s[0]) then 1 + Digits(s[1..]) else 0
  }

  /** The pattern matches at the front: a letter, digits, a letter, digits. */
  predicate MatchesHere(s: string) {
    s != "" && IsLetter(s[0]) &&
    var d := 1 + Digits(s[1..]);
    d > 1 && d < |s| && IsLetter(s[d]) && Digits(s[d + 1..]) > 0
  }

  /** The length of the match at the front. */
  function MatchLength(s: string): (e: nat)
    requires MatchesHere(s)
    ensures 4 <= e <= |s|
  {
    var d := 1 + Digits(s[1..]);
    d + 1 + Digits(s[d + 1..])
  }

  /** The match at the front, spaced out. */
  function SpacedMatch(s: string): (r: string)
    requires MatchesHere(s)
    ensures |r| == MatchLength(s) + 2 && r[0] == s[0] && r[|r| - 1] == s[MatchLength(s) - 1]
  {
    var d := 1 + Digits(s[1..]);
    [s[0]] + " " + s[1..d] + " " + s[d..MatchLength(s)]
  }

  function AddWordBoundaries(s: string): string
    decreases |s|
  {
    if s == "" then ""
    else if MatchesHere(s) then SpacedMatch(s) + AddWordBoundaries(s[MatchLength(s)..])
    else [s[0]] + AddWordBoundaries(s[1..])
  }

  // ----- the pattern, read character by character

  predicate LetterDigit(s: string) {
    |s| >= 2 && IsLetter(s[0]) && IsDigit(s[1])
  }

  predicate DigitsLetterDigit(s: string) {
    s != "" && IsDigit(s[0]) && (DigitsLetterDigit(s[1..]) || LetterDigit(s[1..]))
  }

  predicate Matches(s: string) {
    s != "" && IsLetter(s[0]) && DigitsLetterDigit(s[1..])
  }

  /** The pattern matches somewhere. */
  predicate Numbered(s: string) {
    s != "" && (Matches(s) || Numbered(s[1..]))
  }

  /** It matches somewhere not directly after a letter; `letter` says whether
      the character before `s` is one. */
  predicate Isolated(s: string, letter: bool) {
    s != "" && ((!letter && Matches(s)) || Isolated(s[1..], IsLetter(s[0])))
  }

  lemma {:induction false} DigitsCounted(s: string)
    ensures DigitsLetterDigit(s) <==> Digits(s) > 0 && LetterDigit(s[Digits(s)..])
  {
    if s != "" && IsDigit(s[0]) {
      DigitsCounted(s[1..]);
      assert s[Digits(s)..] == s[1..][Digits(s[1..])..];
      assert Digits(s[1..]) == 0 ==> !DigitsLetterDigit(s[1..]);
      if LetterDigit(s[1..]) { assert Digits(s[1..]) == 0; }
    }
  }

  lemma MatchesIsMatchesHere(s: string)
    ensures Matches(s) <==> MatchesHere(s)
  {
    if s != "" && IsLetter(s[0]) {
      DigitsCounted(s[1..]);
      var d := 1 + Digits(s[1..]);
      assert s[d..] == s[1..][Digits(s[1..])..];
      if d < |s| {
        assert s[d + 1..] == s[d..][1..];
        assert LetterDigit(s[d..]) <==> IsLetter(s[d]) && Digits(s[d + 1..]) > 0;
      }
    }
  }

  // ----- matches in concatenations

  lemma {:induction false} NumberedSuffix(z: string, s: string)
    requires Numbered(s)
    ensures Numbered(z + s)
  {
    if z != "" {
      NumberedSuffix(z[1..], s);
      assert (z + s)[1..] == z[1..] + s;
    } else {
      assert z + s == s;
    }
  }

  lemma {:induction false} DigitsLetterDigitPrefix(s: string, z: string)
    requires DigitsLetterDigit(s)
    ensures DigitsLetterDigit(s + z)
  {
    assert (s + z)[1..] == s[1..] + z;
    if DigitsLetterDigit(s[1..]) { DigitsLetterDigitPrefix(s[1..], z); }
  }

  lemma MatchesPrefix(s: string, z: string)
    requires Matches(s)
    ensures Matches(s + z)
  {
    assert (s + z)[1..] == s[1..] + z;
    DigitsLetterDigitPrefix(s[1..], z);
  }

  lemma {:induction false} NumberedPrefix(s: string, z: string)
    requires Numbered(s)
    ensures Numbered(s + z)
  {
    assert (s + z)[1..] == s[1..] + z;
    if Matches(s) { MatchesPrefix(s, z); } else { NumberedPrefix(s[1..], z); }
  }

  lemma {:induction false} IsolatedPrefix(s: string, z: string, letter: bool)
    requires Isolated(s, letter)
    ensures Isolated(s + z, letter)
  {
    assert (s + z)[1..] == s[1..] + z;
    if !letter && Matches(s) { MatchesPrefix(s, z); } else { IsolatedPrefix(s[1..], z, IsLetter(s[0])); }
  }

  /** What is isolated after a letter is isolated after anything. */
  lemma {:induction false} IsolatedSuffix(z: string, s: string, letter: bool)
    requires Isolated(s, true)
    ensures Isolated(z + s, letter)
  {
    if z != "" {
      IsolatedSuffix(z[1..], s, IsLetter(z[0]));
      assert (z + s)[1..] == z[1..] + s;
    } else {
      assert z + s == s;
    }
  }

  lemma {:induction false} IsolatedIsNumbered(s: string, letter: bool)
    requires Isolated(s, letter)
    ensures Numbered(s)
  {
    if letter || !Matches(s) { IsolatedIsNumbered(s[1..], IsLetter(s[0])); }
  }

  /** No match runs into `z`: it is empty, starts with neither letter nor digit,
      or starts with two letters. */
  predicate Barrier(z: string) {
    z == "" || (!IsLetter(z[0]) && !IsDigit(z[0])) || (|z| >= 2 && IsLetter(z[0]) && IsLetter(z[1]))
  }

  lemma {:induction false} NoMatchIntoBarrier(s: string, z: string)
    requires Barrier(z)
    ensures LetterDigit(s + z) ==> LetterDigit(s)
    ensures DigitsLetterDigit(s + z) ==> DigitsLetterDigit(s)
    ensures Matches(s + z) ==> Matches(s)
  {
    if s == "" {
      assert s + z == z;
    } else {
      assert (s + z)[1..] == s[1..] + z;
      NoMatchIntoBarrier(s[1..], z);
    }
  }

  lemma {:induction false} NumberedSplit(s: string, z: string)
    requires Barrier(z) && Numbered(s + z)
    ensures Numbered(s) || Numbered(z)
  {
    if s == "" {
      assert s + z == z;
    } else {
      NoMatchIntoBarrier(s, z);
      assert (s + z)[1..] == s[1..] + z;
      if !Matches(s + z) { NumberedSplit(s[1..], z); }
    }
  }

  predicate LastLetter(s: string, letter: bool) {
    if s == "" then letter else IsLetter(s[|s| - 1])
  }

  lemma {:induction false} IsolatedSplit(s: string, z: string, letter: bool)
    requires Barrier(z) && Isolated(s + z, letter)
    ensures Isolated(s, letter) || Isolated(z, LastLetter(s, letter))
  {
    if s == "" {
      assert s + z == z;
    } else {
      NoMatchIntoBarrier(s, z);
      assert (s + z)[1..] == s[1..] + z;
      if letter || !Matches(s + z) { IsolatedSplit(s[1..], z, IsLetter(s[0])); }
    }
  }

  predicate AllLetters(w: string) {
    forall i :: 0 <= i < |w| ==> IsLetter(w[i])
  }

  /** No isolated match starts in a word of letters that it follows. */
  lemma {:induction false} IsolatedAfterLetters(w: string, z: string, letter: bool)
    requires AllLetters(w) && (w != "" && !letter ==> |w| >= 2) && (w == "" ==> letter)
    requires Isolated(w + z, letter)
    ensures Isolated(z, true)
  {
    if w == "" {
      assert w + z == z;
    } else {
      assert (w + z)[1..] == w[1..] + z;
      if !letter { assert IsLetter((w + z)[1]); }
      IsolatedAfterLetters(w[1..], z, true);
    }
  }

  lemma {:induction false} LettersNotNumbered(w: string)
    requires AllLetters(w)
    ensures !Numbered(w)
  {
    if w != "" {
      LettersNotNumbered(w[1..]);
      if |w| > 1 { assert IsLetter(w[1]); }
    }
  }

  lemma {:induction false} DigitsNotMatched(ds: string, z: string)
    requires forall i :: 0 <= i < |ds| ==> IsDigit(ds[i])
    requires Numbered(ds + z)
    ensures Numbered(z)
  {
    if ds == "" {
      assert ds + z == z;
    } else {
      assert (ds + z)[1..] == ds[1..] + z;
      assert IsDigit(ds[0]);
      DigitsNotMatched(ds[1..], z);
    }
  }

  // ----- what the rule leaves over

  lemma NotNumberedUnchangedHead(s: string)
    requires s != ""
    ensures AddWordBoundaries(s) != "" && AddWordBoundaries(s)[0] == s[0]
  {
  }

  lemma {:induction false} BoundariesReflect(s: string)
    ensures LetterDigit(AddWordBoundaries(s)) ==> LetterDigit(s)
    ensures DigitsLetterDigit(AddWordBoundaries(s)) ==> DigitsLetterDigit(s)
    decreases |s|
  {
    if s != "" && !MatchesHere(s) {
      BoundariesReflect(s[1..]);
      var rest := AddWordBoundaries(s[1..]);
      assert ([s[0]] + rest)[1..] == rest;
      if |s| > 1 { NotNumberedUnchangedHead(s[1..]); }
    }
  }

  lemma TailOf(c: char, s: string)
    ensures ([c] + s)[0] == c && ([c] + s)[1..] == s
  {
  }

  /** No match starts at a letter that no digit follows. */
  lemma NumberedAfter(c: char, s: string)
    requires Numbered([c] + s) && (!IsLetter(c) || s == "" || !IsDigit(s[0]))
    ensures Numbered(s)
  {
    TailOf(c, s);
  }

  lemma {:induction false} SpacedLead(c: char, ds: string, z: string)
    requires forall i :: 0 <= i < |ds| ==> IsDigit(ds[i])
    requires z != "" && z[0] == ' ' && Numbered([c] + " " + ds + z)
    ensures Numbered(z[1..])
  {
    var b := ds + z;
    Reassociate([c] + " ", ds, z);
    Reassociate([c], " ", b);
    NumberedAfter(c, " " + b);
    NumberedAfter(' ', b);
    DigitsNotMatched(ds, z);
    assert z == [' '] + z[1..];
    NumberedAfter(' ', z[1..]);
  }

  lemma IsolatedAfterSpace(tail: string, es: string, rest: string)
    requires tail != "" && tail[1..] == es + rest && forall i :: 0 <= i < |es| ==> IsDigit(es[i])
    requires Numbered(tail) && (Numbered(rest) ==> Isolated(rest, true))
    ensures Isolated(" " + tail, true)
  {
    assert (" " + tail)[1..] == tail;
    if !Matches(tail) {
      DigitsNotMatched(es, rest);
      IsolatedSuffix(es, rest, IsLetter(tail[0]));
    }
    assert Isolated(tail, false);
  }

  /** After a spaced-out match: the only match can start at its last letter,
      which stands after a space, or later. */
  lemma {:induction false} AfterSpacedMatch(c: char, ds: string, tail: string, es: string, rest: string)
    requires forall i :: 0 <= i < |ds| ==> IsDigit(ds[i])
    requires tail != "" && tail[1..] == es + rest && forall i :: 0 <= i < |es| ==> IsDigit(es[i])
    requires Numbered(rest) ==> Isolated(rest, true)
    requires Numbered([c] + " " + ds + (" " + tail))
    ensures Isolated([c] + " " + ds + (" " + tail), true)
  {
    SpacedLead(c, ds, " " + tail);
    assert (" " + tail)[1..] == tail;
    IsolatedAfterSpace(tail, es, rest);
    IsolatedSuffix([c] + " " + ds, " " + tail, true);
  }

  /** A match left over stands after a space, so not after a letter. */
  lemma {:induction false} LeftoverIsIsolated(s: string)
    requires Numbered(AddWordBoundaries(s))
    ensures Isolated(AddWordBoundaries(s), true)
    decreases |s|
  {
    var out := AddWordBoundaries(s);
    if MatchesHere(s) {
      var d, e := 1 + Digits(s[1..]), MatchLength(s);
      var rest := AddWordBoundaries(s[e..]);
      if Numbered(rest) { LeftoverIsIsolated(s[e..]); }
      Reassociate([s[0]] + " " + s[1..d] + " ", s[d..e], rest);
      Reassociate([s[0]] + " " + s[1..d], " ", s[d..e] + rest);
      assert s[d..e] == [s[d]] + s[d + 1..e];
      Reassociate([s[d]], s[d + 1..e], rest);
      TailOf(s[d], s[d + 1..e] + rest);
      AfterSpacedMatch(s[0], s[1..d], s[d..e] + rest, s[d + 1..e], rest);
    } else {
      var rest := AddWordBoundaries(s[1..]);
      TailOf(s[0], rest);
      BoundariesReflect(s[1..]);
      MatchesIsMatchesHere(s);
      LeftoverIsIsolated(s[1..]);
      IsolatedSuffix([s[0]], rest, true);
    }
  }

  /** A string without a match is left alone, one with a match grows. */
  lemma {:induction false} BoundariesChange(s: string)
    ensures !Numbered(s) ==> AddWordBoundaries(s) == s
    ensures Numbered(s) ==> |AddWordBoundaries(s)| > |s|
    ensures |AddWordBoundaries(s)| >= |s|
    decreases |s|
  {
    if s != "" {
      MatchesIsMatchesHere(s);
      if MatchesHere(s) {
        BoundariesChange(s[MatchLength(s)..]);
      } else {
        BoundariesChange(s[1..]);
      }
    }
  }

  /** The ends of a string are kept. */
  lemma {:induction false} BoundariesKeepLast(s: string)
    requires s != ""
    ensures var out := AddWordBoundaries(s); out[|out| - 1] == s[|s| - 1]
    decreases |s|
  {
    if MatchesHere(s) {
      var rest := s[MatchLength(s)..];
      if rest != "" { BoundariesKeepLast(rest); NotNumberedUnchangedHead(rest); }
    } else if |s| > 1 {
      BoundariesKeepLast(s[1..]);
      NotNumberedUnchangedHead(s[1..]);
    }
  }
}
