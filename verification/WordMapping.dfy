/**
 * Setting acronyms apart with underscores. The acronyms are kept in a map, so
 * the order in which they are handled varies; `OrderIrrelevant` shows that the
 * result does not.
 */
module WordMapping {
  import opened Common
  import opened NumberBoundaries

  predicate IsWord(w: string) {
    w == "HTTP" || w == "URL" || w == "IP"
  }

  /** An order in which the map may be walked. */
  predicate IsOrder(order: seq<string>) {
    |order| == 3 && (forall w :: w in order ==> IsWord(w)) &&
    order[0] != order[1] && order[0] != order[2] && order[1] != order[2]
  }

  /** What matters about an acronym below. */
  predicate Plain(w: string) {
    |w| >= 2 && AllLetters(w) && 's' !in w && 'S' !in w && '_' !in w
  }

  /** The index of the first occurrence, or -1. */
  function Find(v: string, w: string): (i: int)
    ensures -1 <= i && (i >= 0 ==> i + |w| <= |v|)
  {
    if w <= v then 0 else if v == "" then -1
    else var i := Find(v[1..], w); if i < 0 then -1 else i + 1
  }

  lemma SliceOfTail(v: string, i: nat, j: nat)
    requires i <= j < |v|
    ensures v[1..][i..j] == v[i + 1..j + 1]
  {
  }

  lemma {:induction false} FindSpec(v: string, w: string)
    requires Find(v, w) >= 0
    ensures v[Find(v, w)..Find(v, w) + |w|] == w
  {
    if !(w <= v) {
      FindSpec(v[1..], w);
      var i := Find(v[1..], w);
      SliceOfTail(v, i, i + |w|);
    }
  }

  /** What stands before an acronym that is not at the end. */
  function Before(a: string): string {
    if a == "" then "" else a + "_"
  }

  /** What stands after it; a plural s becomes part of it. */
  function After(r: string): string
    requires r != ""
  {
    if r[0] == 's' then "S_" + r[1..] else "_" + r
  }

  /** The acronym `w` set apart between `a` and `r`. */
  function Glue(a: string, w: string, r: string): string {
    if r == "" then a + "_" + w
    else if r == "s" then a + "_" + w + "S"
    else Before(a) + w + After(r)
  }

  function ApartAt(v: string, w: string, i: nat): string
    requires i + |w| <= |v|
  {
    Glue(v[..i], w, v[i + |w|..])
  }

  /** The first occurrence of one acronym set apart. */
  function SetApart(v: string, w: string): string {
    var i := Find(v, w);
    if i < 0 then v else ApartAt(v, w, i)
  }

  function Preprocess(v: string, order: seq<string>): string
    decreases |order|
  {
    if order == [] then v else Preprocess(SetApart(v, order[0]), order[1..])
  }

  lemma CutAround(v: string, i: nat, j: nat)
    requires i <= j <= |v|
    ensures v[..j] == v[..i] + v[i..j] && v[i..] == v[i..j] + v[j..]
    ensures j < |v| ==> v[j + 1..] == v[j..][1..]
  {
  }

  /** The three branches for a plural. */
  method SetPluralApart(value: string, word: string, idx: nat) returns (r: string)
    requires idx + |word| < |value| && value[idx..idx + |word|] == word && value[idx + |word|] == 's'
    ensures r == ApartAt(value, word, idx)
  {
    ghost var a, rest := value[..idx], value[idx + |word|..];
    CutAround(value, idx, idx + |word|);
    if idx + |word| == |value| - 1 {
      assert rest == "s";
      r := value[..idx] + "_" + value[idx..idx + |word|] + "S";
      return;
    }
    assert After(rest) == "S" + "_" + rest[1..];
    if idx == 0 {
      assert value[..idx + |word|] == word;
      r := value[..idx + |word|] + "S" + "_" + value[idx + |word| + 1..];
      assert r == word + After(rest) && Before(a) + word == word;
    } else {
      r := value[..idx] + "_" + value[idx..idx + |word|] + "S" + "_" + value[idx + |word| + 1..];
      assert r == Before(a) + word + After(rest);
    }
  }

  /** The branches for an acronym found at `idx`. */
  method SetFoundApart(value: string, word: string, idx: nat) returns (r: string)
    requires word != "" && idx + |word| <= |value| && value[idx..idx + |word|] == word
    ensures r == ApartAt(value, word, idx)
  {
    ghost var a, rest := value[..idx], value[idx + |word|..];
    CutAround(value, idx, idx + |word|);
    if idx + |word| - 1 == |value| - 1 {
      r := value[..idx] + "_" + value[idx..];
    } else if value[idx + |word|] == 's' {
      r := SetPluralApart(value, word, idx);
    } else if idx == 0 {
      r := value[..idx + |word|] + "_" + value[idx + |word|..];
      assert r == word + After(rest) && Before(a) + word == word;
    } else {
      r := value[..idx] + "_" + value[idx..idx + |word|] + "_" + value[idx + |word|..];
      assert r == Before(a) + word + After(rest);
    }
  }

  /** One turn of the loop below; no index is out of range. */
  method SetWordApart(value: string, word: string) returns (r: string)
    requires word != ""
    ensures r == SetApart(value, word)
  {
    var idx := Find(value, word);
    if idx < 0 { return value; }
    FindSpec(value, word);
    r := SetFoundApart(value, word, idx);
  }

  /** The loop over the acronyms, in whatever order the map yields them. */
  method PreprocessWordMapping(input: string, order: seq<string>) returns (value: string)
    requires forall w :: w in order ==> IsWord(w)
    ensures value == Preprocess(input, order)
  {
    value := input;
    assert order[0..] == order;
    for k := 0 to |order|
      invariant Preprocess(value, order[k..]) == Preprocess(input, order)
    {
      assert order[k] in order && order[k..][1..] == order[k + 1..];
      value := SetWordApart(value, order[k]);
    }
  }

  // ----- first occurrences in concatenations

  function Shift(n: nat, i: int): int {
    if i < 0 then -1 else n + i
  }

  lemma {:induction false} FindInPrefix(x: string, z: string, w: string)
    requires Find(x, w) >= 0
    ensures Find(x + z, w) == Find(x, w)
  {
    if !(w <= x) {
      assert (x + z)[1..] == x[1..] + z;
      FindInPrefix(x[1..], z, w);
      assert w <= x + z ==> w <= x;
    } else {
      assert w <= x + z;
    }
  }

  /** Nothing is found across a character that does not occur in the acronym. */
  lemma {:induction false} FindAcross(x: string, z: string, w: string)
    requires w != "" && Find(x, w) < 0 && (z == "" || z[0] !in w)
    ensures Find(x + z, w) == Shift(|x|, Find(z, w))
  {
    if x == "" {
      assert x + z == z;
    } else {
      assert (x + z)[1..] == x[1..] + z;
      assert |w| <= |x| ==> (w <= x + z <==> w <= x);
      assert |w| > |x| && z != "" ==> (x + z)[|x|] == z[0];
      FindAcross(x[1..], z, w);
    }
  }

  /** Nothing is found to start where its first character does not occur. */
  lemma {:induction false} FindPast(x: string, z: string, w: string)
    requires w != "" && w[0] !in x
    ensures Find(x + z, w) == Shift(|x|, Find(z, w))
  {
    if x == "" {
      assert x + z == z;
    } else {
      assert (x + z)[1..] == x[1..] + z;
      FindPast(x[1..], z, w);
      assert (x + z)[0] == x[0];
    }
  }

  lemma {:induction false} FindInSuffix(x: string, z: string, w: string)
    requires w != "" && (Find(z, w) >= 0 || Find(x + z, w) >= |x|)
    ensures 0 <= Find(x + z, w) <= |x| + Find(z, w)
    ensures Find(x + z, w) >= |x| ==> Find(x + z, w) == |x| + Find(z, w)
  {
    if x == "" {
      assert x + z == z;
    } else {
      assert (x + z)[1..] == x[1..] + z;
      if !(w <= x + z) { FindInSuffix(x[1..], z, w); }
    }
  }

  lemma FindAfterPlural(r: string, w: string)
    requires Plain(w) && r != ""
    ensures Find(After(r), w) == Shift(1, Find(r, w))
  {
    if r[0] == 's' {
      FindPast("S_", r[1..], w);
      FindPast("s", r[1..], w);
      assert "s" + r[1..] == r;
    } else {
      FindPast("_", r, w);
    }
  }

  lemma {:induction false} FindPastBefore(a: string, x: string, w: string)
    requires Plain(w) && Find(a, w) < 0
    ensures Find(a + "_" + x, w) == Shift(|a| + 1, Find(x, w))
    ensures Find(Before(a) + x, w) == Shift(|Before(a)|, Find(x, w))
  {
    FindPast("_", x, w);
    FindAcross(a, "_" + x, w);
    assert a + ("_" + x) == a + "_" + x;
    assert "" + x == x;
  }

  // ----- one acronym does not disturb another

  lemma WordsArePlain(u: string, w: string)
    requires IsWord(u) && IsWord(w)
    ensures Plain(w) && w[0] !in u[1..] && (u != w ==> w[0] != u[0] && w[0] !in u)
  {
  }

  lemma SetApartAt(a: string, w: string, r: string)
    requires Find(a + w + r, w) == |a|
    ensures SetApart(a + w + r, w) == Glue(a, w, r)
  {
    assert (a + w + r)[..|a|] == a && (a + w + r)[|a| + |w|..] == r;
  }

  lemma {:induction false} SplitAtFind(v: string, w: string)
    requires Find(v, w) >= 0
    ensures v == v[..Find(v, w)] + w + v[Find(v, w) + |w|..]
  {
    FindSpec(v, w);
    var i := Find(v, w);
    assert v == v[..i] + v[i..i + |w|] + v[i + |w|..];
  }

  /** An acronym that does not occur does not come to occur. */
  lemma {:induction false} AbsentStaysAbsent(v: string, u: string, w: string)
    requires Plain(w) && w[0] !in u && Find(v, w) < 0
    ensures Find(SetApart(v, u), w) < 0
  {
    var i := Find(v, u);
    if i >= 0 {
      var a, r := v[..i], v[i + |u|..];
      SplitAtFind(v, u);
      assert a + u + r == a + (u + r) == (a + u) + r;
      if Find(a, w) >= 0 { FindInPrefix(a, u + r, w); }
      if Find(r, w) >= 0 { FindInSuffix(a + u, r, w); }
      AbsentFromGlue(a, u, r, w);
    }
  }

  lemma AbsentFromEnd(a: string, word: string, w: string)
    requires Plain(w) && w[0] !in word && Find(a, w) < 0
    ensures Find(a + "_" + word, w) < 0
  {
    NoStartNotFound(word, w);
    FindPastBefore(a, word, w);
  }

  lemma {:induction false} AbsentFromMiddle(a: string, u: string, r: string, w: string)
    requires Plain(w) && w[0] !in u && Find(a, w) < 0 && Find(r, w) < 0 && r != ""
    ensures Find(Before(a) + (u + After(r)), w) < 0
  {
    FindAfterPlural(r, w);
    FindPast(u, After(r), w);
    FindPastBefore(a, u + After(r), w);
  }

  lemma {:induction false} AbsentFromGlue(a: string, u: string, r: string, w: string)
    requires Plain(w) && w[0] !in u && Find(a, w) < 0 && Find(r, w) < 0
    ensures Find(Glue(a, u, r), w) < 0
  {
    if r == "" {
      AbsentFromEnd(a, u, w);
    } else if r == "s" {
      AbsentFromEnd(a, u + "S", w);
      Reassociate(a + "_", u, "S");
    } else {
      AbsentFromMiddle(a, u, r, w);
      Reassociate(Before(a), u, After(r));
    }
  }

  lemma NoStartNotFound(x: string, w: string)
    requires w != "" && w[0] !in x
    ensures Find(x, w) < 0
  {
    FindPast(x, "", w);
    assert x + "" == x;
  }

  /** What setting `u` apart makes of `a + u + b` when more follows. */
  function Lead(a: string, u: string, b: string): string {
    Before(a) + u + (if b != "" && b[0] == 's' then "S_" + b[1..] else "_" + b)
  }

  /** What setting `w` apart makes of `w + c` when something precedes. */
  function Tail(w: string, c: string): string {
    "_" + w + (if c == "" then "" else if c == "s" then "S" else After(c))
  }

  lemma AfterInFront(b: string, z: string)
    requires z != "" && z[0] != 's'
    ensures After(b + z) == (if b != "" && b[0] == 's' then "S_" + b[1..] else "_" + b) + z
  {
    if b == "" {
      assert b + z == z;
      Reassociate("_", b, z);
    } else {
      assert (b + z)[0] == b[0] && (b + z)[1..] == b[1..] + z;
      if b[0] == 's' { Reassociate("S_", b[1..], z); } else { Reassociate("_", b, z); }
    }
  }

  lemma GlueLead(a: string, u: string, b: string, z: string)
    requires |z| >= 2 && z[0] != 's'
    ensures Glue(a, u, b + z) == Lead(a, u, b) + z
  {
    AfterInFront(b, z);
    Reassociate(Before(a) + u, if b != "" && b[0] == 's' then "S_" + b[1..] else "_" + b, z);
    assert |b + z| >= 2;
  }

  lemma GlueTail(x: string, w: string, c: string)
    requires x != ""
    ensures Glue(x, w, c) == x + Tail(w, c)
  {
    var end := if c == "" then "" else if c == "s" then "S" else After(c);
    Reassociate(x, "_", w);
    Reassociate(x, "_" + w, end);
    if c == "" { assert "_" + w + end == "_" + w; }
  }

  lemma {:induction false} FoundAfterLead(a: string, u: string, b: string, z: string, w: string)
    requires Plain(w) && w[0] !in u && z != "" && z[0] != 's'
    requires Find(a, w) < 0 && Find(b + z, w) == |b|
    ensures Find(Lead(a, u, b) + z, w) == |Lead(a, u, b)|
  {
    var m := After(b + z);
    FindAfterPlural(b + z, w);
    FindPast(u, m, w);
    FindPastBefore(a, u + m, w);
    LeadIsGlued(a, u, b, z);
  }

  /** Where `w` is first found in a concatenation, it is not found in front. */
  lemma FoundBehind(a: string, u: string, b: string, z: string, w: string)
    requires w != "" && Find(a + (u + (b + z)), w) == |a| + |u| + |b|
    ensures Find(a, w) < 0 && Find(b + z, w) == |b|
  {
    assert a + (u + (b + z)) == (a + u) + (b + z);
    if Find(a, w) >= 0 { FindInPrefix(a, u + (b + z), w); }
    FindInSuffix(a + u, b + z, w);
  }

  lemma LeadIsGlued(a: string, u: string, b: string, z: string)
    requires z != "" && z[0] != 's'
    ensures Lead(a, u, b) + z == Before(a) + (u + After(b + z))
        && |After(b + z)| == |Lead(a, u, b)| - |Before(a)| - |u| + |z|
  {
    AfterInFront(b, z);
    var m := if b != "" && b[0] == 's' then "S_" + b[1..] else "_" + b;
    Reassociate(Before(a) + u, m, z);
    Reassociate(Before(a), u, m + z);
  }

  lemma FoundInFront(a: string, u: string, x: string, y: string)
    requires u != "" && Find(a + u + x, u) == |a|
    ensures Find(a + u + y, u) == |a|
  {
    assert u <= u + [];
    if Find(a + u, u) < 0 {
      assert Find(u, u) == 0;
      FindInSuffix(a, u, u);
    }
    FindInPrefix(a + u, x, u);
    FindInPrefix(a + u, y, u);
  }

  /** First `u`, then `w`. */
  lemma FirstThenSecond(a: string, u: string, b: string, w: string, c: string)
    requires Plain(u) && Plain(w) && w[0] !in u
    requires Find(a + u + (b + (w + c)), u) == |a| && Find(a + (u + (b + (w + c))), w) == |a| + |u| + |b|
    ensures SetApart(SetApart(a + u + (b + (w + c)), u), w) == Lead(a, u, b) + Tail(w, c)
  {
    var z, lead := w + c, Lead(a, u, b);
    SetApartAt(a, u, b + z);
    GlueLead(a, u, b, z);
    FoundBehind(a, u, b, z, w);
    FoundAfterLead(a, u, b, z, w);
    assert lead + z == lead + w + c;
    SetApartAt(lead, w, c);
    GlueTail(lead, w, c);
  }

  /** First `w`, then `u`. */
  lemma {:induction false} SecondThenFirst(a: string, u: string, b: string, w: string, c: string)
    requires u != "" && |w| >= 2
    requires Find(a + u + (b + (w + c)), u) == |a| && Find(a + u + b + w + c, w) == |a + u + b|
    ensures SetApart(SetApart(a + u + b + w + c, w), u) == Lead(a, u, b) + Tail(w, c)
  {
    var t, front := Tail(w, c), a + u + b;
    SetApartAt(front, w, c);
    GlueTail(front, w, c);
    Reassociate(a + u, b, t);
    FoundInFront(a, u, b + (w + c), b + t);
    SetApartAt(a, u, b + t);
    assert |t| >= 2 && t[0] == '_';
    GlueLead(a, u, b, t);
  }

  /** Two occurrences do not overlap. */
  lemma NoOverlap(v: string, i: nat, j: nat, u: string, w: string)
    requires w != "" && w[0] !in u && i <= j && i + |u| <= |v| && j + |w| <= |v|
    requires v[i..i + |u|] == u && v[j..j + |w|] == w
    ensures i + |u| <= j
  {
    assert v[j] == v[j..j + |w|][0] == w[0];
    forall k | i <= k < i + |u| ensures v[k] in u {
      assert v[k] == v[i..i + |u|][k - i];
    }
  }

  lemma Assemble(v: string, i: nat, j: nat, u: string, w: string)
    requires i + |u| <= j && j + |w| <= |v| && v[i..i + |u|] == u && v[j..j + |w|] == w
    ensures var a, b, c := v[..i], v[i + |u|..j], v[j + |w|..];
            v == a + u + b + w + c == a + u + (b + (w + c)) == a + (u + (b + (w + c)))
  {
    var a, b, c := v[..i], v[i + |u|..j], v[j + |w|..];
    assert v[j..] == w + c;
    assert v[i + |u|..] == b + (w + c);
    assert v[i..] == u + (b + (w + c));
  }

  lemma CommutesInOrder(v: string, u: string, w: string)
    requires Plain(u) && Plain(w) && w[0] !in u && 0 <= Find(v, u) <= Find(v, w)
    ensures SetApart(SetApart(v, u), w) == SetApart(SetApart(v, w), u)
  {
    FindSpec(v, u);
    FindSpec(v, w);
    var i, j := Find(v, u), Find(v, w);
    NoOverlap(v, i, j, u, w);
    var a, b, c := v[..i], v[i + |u|..j], v[j + |w|..];
    Assemble(v, i, j, u, w);
    FirstThenSecond(a, u, b, w, c);
    SecondThenFirst(a, u, b, w, c);
  }

  lemma Commutes(v: string, u: string, w: string)
    requires IsWord(u) && IsWord(w) && u != w
    ensures SetApart(SetApart(v, u), w) == SetApart(SetApart(v, w), u)
  {
    WordsArePlain(u, w);
    WordsArePlain(w, u);
    if Find(v, u) < 0 {
      AbsentStaysAbsent(v, w, u);
    } else if Find(v, w) < 0 {
      AbsentStaysAbsent(v, u, w);
    } else if Find(v, u) <= Find(v, w) {
      CommutesInOrder(v, u, w);
    } else {
      CommutesInOrder(v, w, u);
    }
  }

  lemma PreprocessThree(v: string, x: string, y: string, z: string)
    ensures Preprocess(v, [x, y, z]) == SetApart(SetApart(SetApart(v, x), y), z)
  {
    assert [x, y, z][1..] == [y, z] && [y, z][1..] == [z] && [z][1..] == [];
    var v1 := SetApart(v, x);
    var v2 := SetApart(v1, y);
    assert Preprocess(v2, [z]) == SetApart(v2, z);
    assert Preprocess(v1, [y, z]) == Preprocess(v2, [z]);
  }

  /** The result is the same for every order of the acronyms. */
  lemma OrderIrrelevant(v: string, order: seq<string>, other: seq<string>)
    requires IsOrder(order) && IsOrder(other)
    ensures Preprocess(v, order) == Preprocess(v, other)
  {
    AsCanonical(v, order);
    AsCanonical(v, other);
  }

  lemma AsCanonical(v: string, order: seq<string>)
    requires IsOrder(order)
    ensures Preprocess(v, order) == SetApart(SetApart(SetApart(v, "HTTP"), "URL"), "IP")
  {
    var x, y, z := order[0], order[1], order[2];
    assert order == [x, y, z];
    assert x in order && y in order && z in order;
    PreprocessThree(v, x, y, z);
    var h, u, i := "HTTP", "URL", "IP";
    Commutes(v, h, u);
    Commutes(v, h, i);
    Commutes(v, u, i);
    Commutes(SetApart(v, h), u, i);
    Commutes(SetApart(v, u), h, i);
    Commutes(SetApart(v, i), h, u);
  }

  // ----- digit patterns survive

  lemma GlueKeepsIsolated(a: string, w: string, r: string, letter: bool)
    requires Plain(w) && Isolated(a + w + r, letter)
    ensures Isolated(Glue(a, w, r), letter)
  {
    assert a + w + r == a + (w + r);
    IsolatedSplit(a, w + r, letter);
    if Isolated(a, letter) {
      GlueTail(a, w, r);
      IsolatedPrefix(a, Tail(w, r), letter);
    } else {
      IsolatedAfterLetters(w, r, LastLetter(a, letter));
      AfterKeepsIsolated(r);
      IsolatedSuffix(Before(a) + w, After(r), letter);
    }
  }

  lemma AfterKeepsIsolated(r: string)
    requires Isolated(r, true)
    ensures r != "" && r != "s" && Isolated(After(r), true)
  {
    if r[0] == 's' {
      IsolatedSuffix("S_", r[1..], true);
    } else {
      IsolatedSuffix("_", r, true);
    }
  }

  lemma SetApartKeepsIsolated(v: string, w: string, letter: bool)
    requires Plain(w) && Isolated(v, letter)
    ensures Isolated(SetApart(v, w), letter)
  {
    if Find(v, w) >= 0 {
      SplitAtFind(v, w);
      GlueKeepsIsolated(v[..Find(v, w)], w, v[Find(v, w) + |w|..], letter);
    }
  }

  lemma NumberedAtBar(x: string, z: string)
    requires Numbered(x + ("_" + z))
    ensures Numbered(x) || Numbered(z)
  {
    NumberedSplit(x, "_" + z);
    assert ("_" + z)[1..] == z;
  }

  lemma AfterReflectsNumbered(w: string, r: string)
    requires Plain(w) && r != "" && Numbered(w + After(r))
    ensures Numbered(r)
  {
    if r[0] == 's' {
      LettersNotNumbered(w + "S");
      assert w + After(r) == w + "S" + ("_" + r[1..]);
      NumberedAtBar(w + "S", r[1..]);
    } else {
      LettersNotNumbered(w);
      NumberedAtBar(w, r);
    }
  }

  lemma BareWordReflects(a: string, word: string)
    requires AllLetters(word) && Numbered(a + "_" + word)
    ensures Numbered(a)
  {
    LettersNotNumbered(word);
    Reassociate(a, "_", word);
    NumberedAtBar(a, word);
  }

  lemma MiddleReflects(a: string, w: string, r: string)
    requires Plain(w) && r != "" && Numbered(Before(a) + w + After(r))
    ensures Numbered(a) || Numbered(r)
  {
    var m := w + After(r);
    Reassociate(Before(a), w, After(r));
    if a == "" {
      assert "" + m == m;
    } else {
      Reassociate(a, "_", m);
      NumberedAtBar(a, m);
    }
    if !Numbered(a) { AfterReflectsNumbered(w, r); }
  }

  lemma GlueReflectsNumbered(a: string, w: string, r: string)
    requires Plain(w) && Numbered(Glue(a, w, r))
    ensures Numbered(a) || Numbered(r)
  {
    if r == "" {
      BareWordReflects(a, w);
    } else if r == "s" {
      Reassociate(a + "_", w, "S");
      BareWordReflects(a, w + "S");
    } else {
      MiddleReflects(a, w, r);
    }
  }

  lemma PartsNumbered(a: string, w: string, r: string)
    requires Numbered(a) || Numbered(r)
    ensures Numbered(a + w + r)
  {
    if Numbered(r) {
      NumberedSuffix(a + w, r);
    } else {
      Reassociate(a, w, r);
      NumberedPrefix(a, w + r);
    }
  }

  lemma SetApartReflectsNumbered(v: string, w: string)
    requires Plain(w) && Numbered(SetApart(v, w))
    ensures Numbered(v)
  {
    if Find(v, w) >= 0 {
      SplitAtFind(v, w);
      var a, r := v[..Find(v, w)], v[Find(v, w) + |w|..];
      GlueReflectsNumbered(a, w, r);
      PartsNumbered(a, w, r);
    }
  }
}
