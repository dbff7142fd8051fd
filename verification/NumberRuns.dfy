/**
 * For which inputs the digit rule leaves a match over: those with a run of an
 * odd number, more than one, of letters each followed by digits.
 */
module NumberRuns {
  import opened Common
  import opened NumberBoundaries

  /** The length of a letter with its digits at the front, or 0. */
  function Group(s: string): (n: nat)
    ensures n <= |s| && n != 1
  {
    if s != "" && IsLetter(s[0]) && Digits(s[1..]) > 0 then 1 + Digits(s[1..]) else 0
  }

  /** How many such groups stand at the front, one after the other. */
  function Groups(s: string): nat
    decreases |s|
  {
    if Group(s) == 0 then 0 else 1 + Groups(s[Group(s)..])
  }

  function AfterGroups(s: string): (r: string)
    ensures |r| <= |s| && (Group(s) > 0 ==> |r| < |s|)
    decreases |s|
  {
    if Group(s) == 0 then s else AfterGroups(s[Group(s)..])
  }

  predicate OddRun(s: string)
    decreases |s|
  {
    s != "" &&
    if Group(s) == 0 then OddRun(s[1..])
    else (Groups(s) % 2 == 1 && Groups(s) > 1) || OddRun(AfterGroups(s))
  }

  predicate AllDigits(ds: string) {
    forall i :: 0 <= i < |ds| ==> IsDigit(ds[i])
  }

  predicate NoDigitFirst(z: string) {
    z == "" || !IsDigit(z[0])
  }

  // ----- groups and matches

  lemma MatchIsTwoGroups(s: string)
    ensures MatchesHere(s) <==> Group(s) > 0 && Group(s[Group(s)..]) > 0
    ensures MatchesHere(s) ==> MatchLength(s) == Group(s) + Group(s[Group(s)..])
  {
    var g := Group(s);
    if g > 0 && g < |s| { assert s[g..][1..] == s[g + 1..] && s[g..][0] == s[g]; }
  }

  lemma GroupIsLetterDigit(s: string)
    ensures Group(s) > 0 <==> LetterDigit(s)
  {
    if s != "" && |s| > 1 { assert s[1..][0] == s[1]; }
  }

  lemma {:induction false} DigitsFollow(ds: string, z: string)
    requires ds != "" && AllDigits(ds) && NoDigitFirst(z)
    ensures DigitsLetterDigit(ds + z) <==> LetterDigit(z)
  {
    assert (ds + z)[1..] == ds[1..] + z && (ds + z)[0] == ds[0];
    if |ds| > 1 {
      DigitsFollow(ds[1..], z);
      assert (ds[1..] + z)[0] == ds[1] && IsDigit(ds[1]);
    } else {
      assert ds[1..] + z == z;
    }
  }

  lemma GroupNumbered(c: char, ds: string, z: string)
    requires IsLetter(c) && ds != "" && AllDigits(ds) && NoDigitFirst(z)
    ensures Numbered([c] + (ds + z)) <==> LetterDigit(z) || Numbered(z)
  {
    TailOf(c, ds + z);
    DigitsFollow(ds, z);
    if Numbered(ds + z) { DigitsNotMatched(ds, z); }
    if Numbered(z) { NumberedSuffix(ds, z); }
  }

  // ----- the rule, group by group

  lemma {:induction false} DigitsKept(ds: string, rest: string)
    requires AllDigits(ds)
    ensures AddWordBoundaries(ds + rest) == ds + AddWordBoundaries(rest)
  {
    if ds == "" {
      assert ds + rest == rest && ds + AddWordBoundaries(rest) == AddWordBoundaries(rest);
    } else {
      assert (ds + rest)[1..] == ds[1..] + rest && (ds + rest)[0] == ds[0];
      DigitsKept(ds[1..], rest);
      assert ds == [ds[0]] + ds[1..];
      Reassociate([ds[0]], ds[1..], AddWordBoundaries(rest));
    }
  }

  lemma HeadKept(s: string)
    requires NoDigitFirst(s)
    ensures NoDigitFirst(AddWordBoundaries(s))
  {
    if s != "" { NotNumberedUnchangedHead(s); }
  }

  lemma NoGroupStep(s: string)
    requires s != "" && Group(s) == 0
    ensures Numbered(AddWordBoundaries(s)) <==> Numbered(AddWordBoundaries(s[1..]))
  {
    var rest := AddWordBoundaries(s[1..]);
    MatchIsTwoGroups(s);
    TailOf(s[0], rest);
    if IsLetter(s[0]) { HeadKept(s[1..]); }
    if Numbered([s[0]] + rest) { NumberedAfter(s[0], rest); }
  }

  lemma SingleGroup(s: string)
    requires Group(s) > 0 && Group(s[Group(s)..]) == 0
    ensures var rest := s[Group(s)..];
            Numbered(AddWordBoundaries(s)) <==> Numbered(AddWordBoundaries(rest))
    ensures LetterDigit(AddWordBoundaries(s))
  {
    var g := Group(s);
    var ds, rest := s[1..g], s[g..];
    MatchIsTwoGroups(s);
    assert s[1..] == ds + rest && ds[0] == s[1..][0];
    DigitsKept(ds, rest);
    HeadKept(rest);
    GroupNumbered(s[0], ds, AddWordBoundaries(rest));
    BoundariesReflect(rest);
    GroupIsLetterDigit(rest);
  }

  lemma SpacedNumbered(c: char, ds: string, z: string)
    requires AllDigits(ds)
    ensures Numbered([c] + " " + ds + (" " + z)) <==> Numbered(z)
  {
    assert (" " + z)[1..] == z;
    if Numbered([c] + " " + ds + (" " + z)) { SpacedLead(c, ds, " " + z); }
    if Numbered(z) {
      NumberedSuffix(" ", z);
      NumberedSuffix([c] + " " + ds, " " + z);
    }
  }

  lemma TwoGroups(s: string)
    requires MatchesHere(s)
    ensures var rest := AddWordBoundaries(s[MatchLength(s)..]);
            Numbered(AddWordBoundaries(s)) <==> LetterDigit(rest) || Numbered(rest)
  {
    var d, e := 1 + Digits(s[1..]), MatchLength(s);
    var rest := AddWordBoundaries(s[e..]);
    var es := s[d + 1..e];
    Reassociate([s[0]] + " " + s[1..d] + " ", s[d..e], rest);
    Reassociate([s[0]] + " " + s[1..d], " ", s[d..e] + rest);
    SpacedNumbered(s[0], s[1..d], s[d..e] + rest);
    assert s[d..e] == [s[d]] + es;
    Reassociate([s[d]], es, rest);
    assert forall i :: 0 <= i < |es| ==> es[i] == s[d + 1..][i];
    assert s[e..] == s[d + 1..][|es|..];
    HeadKept(s[e..]);
    GroupNumbered(s[d], es, rest);
  }

  lemma StartsWithGroup(s: string)
    ensures LetterDigit(AddWordBoundaries(s)) <==> Groups(s) == 1
  {
    if Group(s) == 0 {
      BoundariesReflect(s);
      GroupIsLetterDigit(s);
    } else if Group(s[Group(s)..]) == 0 {
      SingleGroup(s);
    } else {
      MatchIsTwoGroups(s);
      assert SpacedMatch(s)[1] == ' ';
    }
  }

  /** The digit rule leaves a match over exactly when some run is odd. */
  lemma {:induction false} LeftoverExactly(s: string)
    ensures Numbered(AddWordBoundaries(s)) <==> OddRun(s)
    decreases |s|
  {
    if s == "" {
    } else if Group(s) == 0 {
      NoGroupStep(s);
      LeftoverExactly(s[1..]);
    } else if Group(s[Group(s)..]) == 0 {
      SingleGroup(s);
      LeftoverExactly(s[Group(s)..]);
      GroupStep(s);
      OddRunStep(s);
    } else {
      var first, rest := s[Group(s)..], s[MatchLength(s)..];
      MatchIsTwoGroups(s);
      TwoGroups(s);
      StartsWithGroup(rest);
      LeftoverExactly(rest);
      assert first[Group(first)..] == rest;
      GroupStep(s);
      GroupStep(first);
      RunOfMore(s, rest);
    }
  }

  lemma GroupStep(s: string)
    requires Group(s) > 0
    ensures var rest := s[Group(s)..];
            && Groups(s) == 1 + Groups(rest) && AfterGroups(s) == AfterGroups(rest)
            && (Group(rest) == 0 ==> Groups(rest) == 0 && AfterGroups(rest) == rest)
  {
  }

  lemma OddRunStep(s: string)
    requires Group(s) > 0
    ensures OddRun(s) <==> (Groups(s) % 2 == 1 && Groups(s) > 1) || OddRun(AfterGroups(s))
  {
  }

  /** Two groups more make no difference to whether a run is odd, but for one. */
  lemma Parity(m: nat, n: nat, after: bool)
    requires m == 2 + n
    ensures (m % 2 == 1 && m > 1) || after <==> n == 1 || (n % 2 == 1 && n > 1) || after
  {
  }

  lemma {:induction false} RunOfMore(s: string, rest: string)
    requires Group(s) > 0 && Groups(s) == 2 + Groups(rest) && AfterGroups(s) == AfterGroups(rest)
    ensures OddRun(s) <==> Groups(rest) == 1 || OddRun(rest)
  {
    OddRunStep(s);
    if Group(rest) > 0 {
      OddRunStep(rest);
      Parity(Groups(s), Groups(rest), OddRun(AfterGroups(rest)));
    } else {
      assert AfterGroups(rest) == rest && Groups(rest) == 0 && Groups(s) == 2;
    }
  }
}
