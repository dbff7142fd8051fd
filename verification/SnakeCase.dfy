/** Turning parameter names into snake case (on ASCII text). */
module SnakeCase {
  import opened Common
  import opened NumberBoundaries
  import opened NumberRuns
  import opened WordMapping

  function Trim(s: string): string {
    TrimRight(TrimLeft(s, ' '), ' ')
  }

  predicate IsDelimiter(c: char) {
    c == ' ' || c == '_' || c == '-'
  }

  predicate CaseChanges(s: string)
    requires s != ""
  {
    |s| > 1 && ((IsUpper(s[0]) && IsLower(s[1])) || (IsLower(s[0]) && IsUpper(s[1])))
  }

  /** The splitting pass as a transducer; `atStart` says that the current word has
      no character yet. */
  function Snake(s: string, atStart: bool): string {
    if s == "" then ""
    else if !atStart && CaseChanges(s) then
      if IsUpper(s[0]) then "_" + [Lower(s[0])] + Snake(s[1..], false) else [s[0]] + "_" + Snake(s[1..], true)
    else if IsDelimiter(s[0]) then "_" + Snake(s[1..], true)
    else [Lower(s[0])] + Snake(s[1..], false)
  }

  /** The text before the first underscore. */
  function FirstWord(s: string): string {
    if s == "" || s[0] == '_' then "" else [s[0]] + FirstWord(s[1..])
  }

  predicate IsMappedWord(w: string) {
    w == "http" || w == "url" || w == "ip"
  }

  /** The input must have something other than spaces: the source indexes its
      first character. */
  function ToSnake(s: string, order: seq<string>): string
    requires Trim(s) != ""
  {
    TrimmedBoundaries(s);
    var b := Trim(AddWordBoundaries(s));
    var joined := Snake(Preprocess(b, order), true);
    if IsUpper(b[0]) && !IsMappedWord(FirstWord(joined)) then "_" + joined else joined
  }

  // ----- the imperative form

  lemma FirstWordOfJoin(bits: seq<string>)
    requires bits != [] && forall w :: w in bits ==> '_' !in w
    ensures FirstWord(Join(bits, "_")) == bits[0]
  {
    assert bits[0] in bits;
    if |bits| == 1 {
      NoUnderscore(bits[0], "");
      assert bits[0] + "" == bits[0];
    } else {
      var rest := "_" + Join(bits[1..], "_");
      NoUnderscore(bits[0], rest);
      Reassociate(bits[0], "_", Join(bits[1..], "_"));
    }
  }

  lemma {:induction false} NoUnderscore(w: string, rest: string)
    requires '_' !in w && (rest == "" || rest[0] == '_')
    ensures FirstWord(w + rest) == w
  {
    if w == "" {
      assert w + rest == rest;
    } else {
      assert (w + rest)[1..] == w[1..] + rest;
      NoUnderscore(w[1..], rest);
    }
  }

  lemma ToLowerAppend(n: string, c: char)
    ensures ToLower(n + [c]) == ToLower(n) + [Lower(c)]
  {
  }

  /** The bits so far and the current word, as the output they stand for. */
  function Emitted(bits: seq<string>, n: string): string {
    Join(bits + [ToLower(n)], "_")
  }

  lemma EmitWord(bits: seq<string>, n: string, next: string)
    ensures Emitted(bits + [ToLower(n)], next) == Emitted(bits, n) + "_" + ToLower(next)
  {
    JoinAppend(bits + [ToLower(n)], ToLower(next), "_");
  }

  lemma EmitChar(bits: seq<string>, n: string, c: char)
    ensures Emitted(bits, n + [c]) == Emitted(bits, n) + [Lower(c)]
  {
    ToLowerAppend(n, c);
    JoinAppend(bits, ToLower(n), "_");
    JoinAppend(bits, ToLower(n + [c]), "_");
  }

  /** The splitting loop. The index kept beside the current word is always one
      less than its length, so its last character exists when it is asked for. */
  method Split(s: string) returns (bits: seq<string>)
    ensures bits != [] && (forall w :: w in bits ==> '_' !in w) && Join(bits, "_") == Snake(s, true)
  {
    bits := [];
    var n := "";
    var iReal := -1;
    assert s[0..] == s && Emitted([], "") == "" by { JoinAppend([], ToLower(""), "_"); }
    for i := 0 to |s|
      invariant iReal == |n| - 1
      invariant '_' !in n && forall w :: w in bits ==> '_' !in w
      invariant Emitted(bits, n) + Snake(s[i..], n == "") == Snake(s, true)
    {
      var v := s[i];
      ghost var rest := s[i + 1..];
      assert s[i..][1..] == rest;
      iReal := iReal + 1;
      var nextCaseIsChanged := false;
      if i + 1 < |s| {
        var next := s[i + 1];
        assert s[i..][1] == next;
        if (IsUpper(v) && IsLower(next)) || (IsLower(v) && IsUpper(next)) { nextCaseIsChanged := true; }
      }
      assert nextCaseIsChanged <==> CaseChanges(s[i..]);
      if iReal > 0 && n[|n| - 1] != '_' && nextCaseIsChanged {
        if IsUpper(v) {
          EmitUpper(bits, n, v, rest);
          bits := bits + [ToLower(n)];
          n := [v];
          iReal := 0;
        } else {
          EmitLower(bits, n, v, rest);
          bits := bits + [ToLower(n + [v])];
          n := "";
          iReal := -1;
        }
      } else if v == ' ' || v == '_' || v == '-' {
        EmitDelimiter(bits, n, rest);
        bits := bits + [ToLower(n)];
        n := "";
        iReal := -1;
      } else {
        EmitChar(bits, n, v);
        Reassociate(Emitted(bits, n), [Lower(v)], Snake(rest, false));
        n := n + [v];
      }
    }
    assert s[|s|..] == "";
    bits := bits + [ToLower(n)];
  }

  lemma EmitUpper(bits: seq<string>, n: string, v: char, rest: string)
    ensures Emitted(bits, n) + ("_" + [Lower(v)] + Snake(rest, false)) ==
        Emitted(bits + [ToLower(n)], [v]) + Snake(rest, false)
  {
    EmitWord(bits, n, [v]);
    assert ToLower([v]) == [Lower(v)];
    Reassociate(Emitted(bits, n), "_", [Lower(v)]);
    Reassociate(Emitted(bits, n), "_" + [Lower(v)], Snake(rest, false));
  }

  lemma EmitLower(bits: seq<string>, n: string, v: char, rest: string)
    requires IsLower(v)
    ensures Emitted(bits, n) + ([v] + "_" + Snake(rest, true)) ==
        Emitted(bits + [ToLower(n + [v])], "") + Snake(rest, true)
  {
    EmitWord(bits, n + [v], "");
    EmitChar(bits, n, v);
    assert ToLower("") == "" && Emitted(bits, n + [v]) + "_" + "" == Emitted(bits, n + [v]) + "_";
    Reassociate(Emitted(bits, n), [v], "_");
    Reassociate(Emitted(bits, n), [v] + "_", Snake(rest, true));
  }

  lemma EmitDelimiter(bits: seq<string>, n: string, rest: string)
    ensures Emitted(bits, n) + ("_" + Snake(rest, true)) == Emitted(bits + [ToLower(n)], "") + Snake(rest, true)
  {
    EmitWord(bits, n, "");
    assert ToLower("") == "" && Emitted(bits, n) + "_" + "" == Emitted(bits, n) + "_";
    Reassociate(Emitted(bits, n), "_", Snake(rest, true));
  }

  method ConvertToSnake(input: string, order: seq<string>) returns (r: string)
    requires Trim(input) != "" && forall w :: w in order ==> IsWord(w)
    ensures r == ToSnake(input, order)
  {
    TrimmedBoundaries(input);
    var s := AddWordBoundaries(input);
    s := Trim(s);
    var prefix := if 'A' <= s[0] <= 'Z' then "_" else "";
    s := PreprocessWordMapping(s, order);
    var bits := Split(s);
    FirstWordOfJoin(bits);
    var joined := Join(bits, "_");
    if !IsMappedWord(bits[0]) { return prefix + joined; }
    return joined;
  }

  // ----- trimming

  lemma {:induction false} TrimLeftBoundaries(s: string)
    ensures TrimLeft(AddWordBoundaries(s), ' ') == AddWordBoundaries(TrimLeft(s, ' '))
  {
    if s != "" {
      NotNumberedUnchangedHead(s);
      if s[0] == ' ' {
        assert ([s[0]] + AddWordBoundaries(s[1..]))[1..] == AddWordBoundaries(s[1..]);
        TrimLeftBoundaries(s[1..]);
      }
    }
  }

  lemma {:induction false} TrimEmpty(s: string)
    ensures Trim(s) == "" <==> TrimLeft(s, ' ') == ""
  {
    TrimLeftHead(s);
    if TrimLeft(s, ' ') != "" { TrimRightHead(TrimLeft(s, ' ')); }
  }

  lemma {:induction false} TrimLeftHead(s: string)
    ensures TrimLeft(s, ' ') != "" ==> TrimLeft(s, ' ')[0] != ' '
  {
    if s != "" && s[0] == ' ' { TrimLeftHead(s[1..]); }
  }

  lemma {:induction false} TrimRightHead(s: string)
    requires s != "" && s[0] != ' '
    ensures TrimRight(s, ' ') != "" && TrimRight(s, ' ')[0] == s[0]
  {
    if s[|s| - 1] == ' ' { TrimRightHead(s[..|s| - 1]); }
  }

  /** Spacing out digits makes nothing of nothing only. */
  lemma {:induction false} TrimmedBoundaries(s: string)
    ensures Trim(AddWordBoundaries(s)) == "" <==> Trim(s) == ""
  {
    TrimEmpty(s);
    TrimEmpty(AddWordBoundaries(s));
    TrimLeftBoundaries(s);
    if TrimLeft(s, ' ') != "" { NotNumberedUnchangedHead(TrimLeft(s, ' ')); }
  }

  // ----- content

  /** The letters, digits and other characters, in lower case: spaces, hyphens
      and underscores do not count. */
  function Content(s: string): string {
    if s == "" then "" else (if IsDelimiter(s[0]) then "" else [Lower(s[0])]) + Content(s[1..])
  }

  lemma {:induction false} ContentAppend(a: string, b: string)
    ensures Content(a + b) == Content(a) + Content(b)
  {
    if a == "" {
      assert a + b == b;
    } else {
      assert (a + b)[1..] == a[1..] + b;
      ContentAppend(a[1..], b);
    }
  }

  lemma {:induction false} BoundariesKeepContent(s: string)
    ensures Content(AddWordBoundaries(s)) == Content(s)
    decreases |s|
  {
    if s == "" {
    } else if MatchesHere(s) {
      var e := MatchLength(s);
      BoundariesKeepContent(s[e..]);
      MatchContent(s[..e], s[e..], s);
      ContentAppend(SpacedMatch(s), AddWordBoundaries(s[e..]));
      SpacedContent(s);
    } else {
      BoundariesKeepContent(s[1..]);
      MatchContent([s[0]], s[1..], s);
      ContentAppend([s[0]], AddWordBoundaries(s[1..]));
    }
  }

  lemma {:induction false} MatchContent(a: string, b: string, s: string)
    requires s == a + b
    ensures Content(s) == Content(a) + Content(b)
  {
    ContentAppend(a, b);
  }

  lemma SpacedContent(s: string)
    requires MatchesHere(s)
    ensures Content(SpacedMatch(s)) == Content(s[..MatchLength(s)])
  {
    var d, e := 1 + Digits(s[1..]), MatchLength(s);
    var a, b, c := [s[0]], s[1..d], s[d..e];
    assert s[..e] == a + b + c;
    ContentAppend(a, b);
    ContentAppend(a + b, c);
    ContentAppend(a, " ");
    ContentAppend(a + " ", b);
    ContentAppend(a + " " + b, " ");
    ContentAppend(a + " " + b + " ", c);
    assert Content(" ") == "";
  }

  lemma {:induction false} TrimLeftKeepsContent(s: string)
    ensures Content(TrimLeft(s, ' ')) == Content(s)
  {
    if s != "" && s[0] == ' ' { TrimLeftKeepsContent(s[1..]); }
  }

  lemma BlankHasNoContent(s: string)
    ensures Content(s + " ") == Content(s)
  {
    ContentAppend(s, " ");
    assert " "[1..] == "";
  }

  lemma {:induction false} TrimRightKeepsContent(s: string)
    ensures Content(TrimRight(s, ' ')) == Content(s)
    decreases |s|
  {
    if s != "" && s[|s| - 1] == ' ' {
      var front := s[..|s| - 1];
      assert front + " " == s;
      BlankHasNoContent(front);
      TrimRightKeepsContent(front);
    }
  }

  lemma TrimKeepsContent(s: string)
    ensures Content(Trim(s)) == Content(s)
  {
    TrimLeftKeepsContent(s);
    TrimRightKeepsContent(TrimLeft(s, ' '));
  }

  lemma AfterKeepsContent(r: string)
    requires r != ""
    ensures Content(After(r)) == Content(r)
  {
    if r[0] == 's' {
      assert ("S_" + r[1..])[1..] == "_" + r[1..] && ("_" + r[1..])[1..] == r[1..];
    } else {
      assert ("_" + r)[1..] == r;
    }
  }

  lemma BarKeepsContent(a: string, z: string)
    ensures Content(a + "_" + z) == Content(a) + Content(z)
  {
    assert Content("_") == "";
    ContentAppend(a, "_");
    ContentAppend(a + "_", z);
  }

  lemma {:induction false} MiddleKeepsContent(a: string, w: string, r: string)
    requires r != ""
    ensures Content(Before(a) + w + After(r)) == Content(a) + Content(w) + Content(r)
  {
    AfterKeepsContent(r);
    if a == "" {
      assert "" + w == w;
      ContentAppend(w, After(r));
    } else {
      BarKeepsContent(a, w);
      ContentAppend(a + "_" + w, After(r));
    }
  }

  lemma PluralKeepsContent(a: string, w: string)
    ensures Content(Glue(a, w, "s")) == Content(a) + Content(w) + Content("s")
  {
    Reassociate(a + "_", w, "S");
    BarKeepsContent(a, w + "S");
    ContentAppend(w, "S");
    Reassociate(Content(a), Content(w), Content("S"));
    HeadContent('S');
    assert Lower('S') == 's';
  }

  lemma GlueKeepsContent(a: string, w: string, r: string)
    ensures Content(Glue(a, w, r)) == Content(a) + Content(w) + Content(r)
  {
    if r == "" {
      BarKeepsContent(a, w);
    } else if r == "s" {
      PluralKeepsContent(a, w);
    } else {
      MiddleKeepsContent(a, w, r);
    }
  }

  lemma SetApartKeepsContent(v: string, w: string)
    ensures Content(SetApart(v, w)) == Content(v)
  {
    if Find(v, w) >= 0 {
      SplitAtFind(v, w);
      var a, r := v[..Find(v, w)], v[Find(v, w) + |w|..];
      GlueKeepsContent(a, w, r);
      ContentAppend(a, w);
      ContentAppend(a + w, r);
    }
  }

  lemma {:induction false} PreprocessKeepsContent(v: string, order: seq<string>)
    ensures Content(Preprocess(v, order)) == Content(v)
    decreases |order|
  {
    if order != [] {
      SetApartKeepsContent(v, order[0]);
      PreprocessKeepsContent(SetApart(v, order[0]), order[1..]);
    }
  }

  /** The content of what one character is turned into. */
  lemma HeadContent(c: char)
    ensures Content("_") == "" && Content([Lower(c)]) == Content([c])
    ensures Content("_" + [Lower(c)]) == Content([c]) && Content([Lower(c)] + "_") == Content([c])
  {
    var l := [Lower(c)];
    assert ("_" + l)[1..] == l && (l + "_")[1..] == "_" && "_"[1..] == "" && l[1..] == "" && [c][1..] == "";
    assert (l + "_")[0] == Lower(c);
  }

  lemma {:induction false} SnakeKeepsContent(s: string, atStart: bool)
    ensures Content(Snake(s, atStart)) == Content(s)
  {
    if s != "" {
      var c, rest := s[0], s[1..];
      HeadContent(c);
      MatchContent([c], rest, s);
      if !atStart && CaseChanges(s) {
        if IsUpper(c) {
          SnakeKeepsContent(rest, false);
          ContentAppend("_" + [Lower(c)], Snake(rest, false));
        } else {
          SnakeKeepsContent(rest, true);
          ContentAppend([c] + "_", Snake(rest, true));
        }
      } else if IsDelimiter(c) {
        SnakeKeepsContent(rest, true);
        ContentAppend("_", Snake(rest, true));
      } else {
        SnakeKeepsContent(rest, false);
        ContentAppend([Lower(c)], Snake(rest, false));
      }
    }
  }

  /** Snake-casing keeps the content of every name, in every order of the acronyms. */
  lemma {:induction false} ToSnakeKeepsContent(s: string, order: seq<string>)
    requires Trim(s) != ""
    ensures Content(ToSnake(s, order)) == Content(s)
  {
    TrimmedBoundaries(s);
    var a := AddWordBoundaries(s);
    var b := Trim(a);
    var joined := Snake(Preprocess(b, order), true);
    BoundariesKeepContent(s);
    TrimKeepsContent(a);
    PreprocessKeepsContent(b, order);
    SnakeKeepsContent(Preprocess(b, order), true);
    ContentAppend("_", joined);
    assert Content("_") == "";
  }

  /** The order in which Go walks the acronym map makes no difference. */
  lemma ToSnakeIsDeterministic(s: string, order: seq<string>, other: seq<string>)
    requires Trim(s) != "" && IsOrder(order) && IsOrder(other)
    ensures ToSnake(s, order) == ToSnake(s, other)
  {
    OrderIrrelevant(Trim(AddWordBoundaries(s)), order, other);
  }

  // ----- shape

  predicate IsSnake(s: string) {
    forall i :: 0 <= i < |s| ==> !IsUpper(s[i]) && s[i] != ' ' && s[i] != '-'
  }

  lemma {:induction false} SnakeIsSnake(s: string, atStart: bool)
    ensures IsSnake(Snake(s, atStart)) && |Snake(s, atStart)| >= |s|
  {
    if s != "" {
      SnakeIsSnake(s[1..], true);
      SnakeIsSnake(s[1..], false);
    }
  }

  lemma {:induction false} PreprocessGrows(v: string, order: seq<string>)
    ensures |Preprocess(v, order)| >= |v|
    decreases |order|
  {
    if order != [] { PreprocessGrows(SetApart(v, order[0]), order[1..]); }
  }

  /** The output is not empty and has no upper-case letter, space or hyphen. */
  lemma ToSnakeIsSnake(s: string, order: seq<string>)
    requires Trim(s) != ""
    ensures ToSnake(s, order) != "" && IsSnake(ToSnake(s, order))
  {
    TrimmedBoundaries(s);
    var b := Trim(AddWordBoundaries(s));
    PreprocessGrows(b, order);
    SnakeIsSnake(Preprocess(b, order), true);
  }

  // ----- idempotence

  lemma {:induction false} TrimNothing(s: string)
    requires s != "" && s[0] != ' ' && s[|s| - 1] != ' '
    ensures Trim(s) == s
  {
  }

  lemma {:induction false} SnakeFixed(t: string, atStart: bool)
    requires IsSnake(t)
    ensures Snake(t, atStart) == t
  {
    if t != "" {
      SnakeFixed(t[1..], true);
      SnakeFixed(t[1..], false);
      assert t == [t[0]] + t[1..];
    }
  }

  lemma {:induction false} PreprocessFixed(t: string, order: seq<string>)
    requires IsSnake(t) && forall w :: w in order ==> IsWord(w)
    ensures Preprocess(t, order) == t
    decreases |order|
  {
    if order != [] {
      assert order[0] in order && IsUpper(order[0][0]);
      NoStartNotFound(t, order[0]);
      assert forall w :: w in order[1..] ==> w in order;
      PreprocessFixed(t, order[1..]);
    }
  }

  /** A name already in snake case is left alone unless the digit rule applies. */
  lemma SnakeNameFixed(t: string, order: seq<string>)
    requires t != "" && IsSnake(t) && !Numbered(t) && forall w :: w in order ==> IsWord(w)
    ensures Trim(t) != "" && ToSnake(t, order) == t
  {
    TrimNothing(t);
    BoundariesChange(t);
    PreprocessFixed(t, order);
    SnakeFixed(t, true);
  }

  lemma {:induction false} BoundariesStayTrimmed(t: string)
    requires t != "" && t[0] != ' ' && t[|t| - 1] != ' '
    ensures Trim(AddWordBoundaries(t)) == AddWordBoundaries(t) && AddWordBoundaries(t) != ""
  {
    NotNumberedUnchangedHead(t);
    BoundariesKeepLast(t);
    TrimNothing(AddWordBoundaries(t));
  }

  lemma SnakeNameGrows(t: string, order: seq<string>)
    requires t != "" && IsSnake(t) && Numbered(t)
    ensures Trim(t) != "" && |ToSnake(t, order)| > |t|
  {
    TrimNothing(t);
    var a := AddWordBoundaries(t);
    BoundariesStayTrimmed(t);
    BoundariesChange(t);
    PreprocessGrows(a, order);
    SnakeIsSnake(Preprocess(a, order), true);
  }

  lemma {:induction false} SnakeKeepsMatches(s: string, atStart: bool)
    ensures LetterDigit(Snake(s, atStart)) <==> LetterDigit(s)
    ensures DigitsLetterDigit(Snake(s, atStart)) <==> DigitsLetterDigit(s)
    ensures Matches(Snake(s, atStart)) <==> Matches(s)
  {
    if s != "" {
      var c := Lower(s[0]);
      SnakeKeepsMatches(s[1..], true);
      SnakeKeepsMatches(s[1..], false);
      var next := Snake(s[1..], false);
      assert ([c] + next)[1..] == next;
      SnakeHead(s[1..]);
    }
  }

  lemma SnakeHead(s: string)
    ensures s != "" && IsDigit(s[0]) <==> Snake(s, false) != "" && IsDigit(Snake(s, false)[0])
  {
  }

  /** An underscore neither matches nor starts a match. */
  lemma BarNotNumbered(s: string)
    ensures Numbered("_" + s) <==> Numbered(s)
  {
    assert ("_" + s)[0] == '_' && ("_" + s)[1..] == s;
  }

  /** A letter whose next letter has the other case starts no match. */
  lemma ChangeNotMatched(s: string, next: string)
    requires s != "" && CaseChanges(s) && (next != "" && IsDigit(next[0]) ==> IsDigit(s[1]))
    ensures !Matches(s) && !Matches([Lower(s[0])] + next)
  {
    assert s[1..][0] == s[1];
    assert ([Lower(s[0])] + next)[1..] == next;
  }

  lemma {:induction false} SnakeKeepsNumbered(s: string, atStart: bool)
    ensures Numbered(Snake(s, atStart)) <==> Numbered(s)
  {
    if s != "" {
      SnakeKeepsNumbered(s[1..], true);
      SnakeKeepsNumbered(s[1..], false);
      if !atStart && CaseChanges(s) {
        CaseKeepsNumbered(s);
      } else if IsDelimiter(s[0]) {
        BarNotNumbered(Snake(s[1..], true));
      } else {
        SnakeKeepsMatches(s, atStart);
        assert ([Lower(s[0])] + Snake(s[1..], false))[1..] == Snake(s[1..], false);
      }
    }
  }

  lemma CaseKeepsNumbered(s: string)
    requires s != "" && CaseChanges(s)
    requires Numbered(Snake(s[1..], true)) <==> Numbered(s[1..])
    requires Numbered(Snake(s[1..], false)) <==> Numbered(s[1..])
    ensures Numbered(Snake(s, false)) <==> Numbered(s)
  {
    var next, last := Snake(s[1..], false), Snake(s[1..], true);
    SnakeHead(s[1..]);
    assert s[1..] != "" && s[1..][0] == s[1];
    ChangeNotMatched(s, next);
    if IsUpper(s[0]) {
      assert ([Lower(s[0])] + next)[1..] == next;
      BarNotNumbered([Lower(s[0])] + next);
      Reassociate("_", [Lower(s[0])], next);
    } else {
      ChangeNotMatched(s, "_" + last);
      assert ([s[0]] + ("_" + last))[1..] == "_" + last;
      BarNotNumbered(last);
      Reassociate([s[0]], "_", last);
    }
  }

  lemma {:induction false} TrimKeepsIsolated(s: string, letter: bool)
    requires Isolated(s, letter)
    ensures Isolated(TrimRight(s, ' '), letter)
    ensures !letter ==> Isolated(TrimLeft(s, ' '), false)
    decreases |s|
  {
    if s[|s| - 1] == ' ' {
      assert s[..|s| - 1] + " " == s;
      IsolatedSplit(s[..|s| - 1], " ", letter);
      TrimKeepsIsolated(s[..|s| - 1], letter);
    }
    if s[0] == ' ' && !letter { TrimKeepsIsolated(s[1..], false); }
  }

  lemma {:induction false} TrimReflectsNumbered(s: string)
    requires Numbered(TrimLeft(s, ' ')) || Numbered(TrimRight(s, ' '))
    ensures Numbered(s)
    decreases |s|
  {
    if s != "" {
      if s[0] == ' ' && Numbered(TrimLeft(s, ' ')) {
        TrimReflectsNumbered(s[1..]);
      } else if s[|s| - 1] == ' ' && Numbered(TrimRight(s, ' ')) {
        TrimReflectsNumbered(s[..|s| - 1]);
        NumberedPrefix(s[..|s| - 1], " ");
        assert s[..|s| - 1] + " " == s;
      }
    }
  }

  lemma {:induction false} PreprocessKeepsMatches(v: string, order: seq<string>)
    requires forall w :: w in order ==> IsWord(w)
    ensures Isolated(v, false) ==> Isolated(Preprocess(v, order), false)
    ensures Numbered(Preprocess(v, order)) ==> Numbered(v)
    decreases |order|
  {
    if order != [] {
      var w := order[0];
      assert w in order && forall x :: x in order[1..] ==> x in order;
      WordsArePlain(w, w);
      if Isolated(v, false) { SetApartKeepsIsolated(v, w, false); }
      if Numbered(SetApart(v, w)) { SetApartReflectsNumbered(v, w); }
      PreprocessKeepsMatches(SetApart(v, w), order[1..]);
    }
  }

  /** A digit pattern is in the output exactly when the digit rule left one. */
  lemma {:induction false} LeftoverSurvives(s: string, order: seq<string>)
    requires Trim(s) != "" && forall w :: w in order ==> IsWord(w)
    ensures Numbered(ToSnake(s, order)) <==> Numbered(AddWordBoundaries(s))
  {
    TrimmedBoundaries(s);
    var a := AddWordBoundaries(s);
    var b := Trim(a);
    var p := Preprocess(b, order);
    var joined := Snake(p, true);
    SnakeKeepsNumbered(p, true);
    PreprocessKeepsMatches(b, order);
    assert ("_" + joined)[1..] == joined;
    if Numbered(a) {
      LeftoverIsIsolated(s);
      IsolatedSuffix("", a, false);
      assert "" + a == a;
      TrimKeepsIsolated(a, false);
      TrimKeepsIsolated(TrimLeft(a, ' '), false);
      IsolatedIsNumbered(p, false);
    }
    if Numbered(b) {
      TrimReflectsNumbered(TrimLeft(a, ' '));
      TrimReflectsNumbered(a);
    }
  }

  /** Snake-casing twice is snake-casing once exactly for the names without a run
      of an odd number, more than one, of letters each followed by digits: then the
      digit rule leaves nothing over. */
  lemma {:induction false} IdempotentExactly(s: string, order: seq<string>, other: seq<string>)
    requires Trim(s) != "" && IsOrder(order) && IsOrder(other)
    ensures ToSnake(s, order) != "" && Trim(ToSnake(s, order)) != ""
    ensures ToSnake(ToSnake(s, order), other) == ToSnake(s, order) <==> !OddRun(s)
  {
    var t := ToSnake(s, order);
    ToSnakeIsSnake(s, order);
    LeftoverSurvives(s, order);
    LeftoverExactly(s);
    if Numbered(t) { SnakeNameGrows(t, other); } else { SnakeNameFixed(t, other); }
  }

  lemma {:induction false} NoDigitsNotNumbered(s: string)
    requires forall i :: 0 <= i < |s| ==> !IsDigit(s[i])
    ensures !Numbered(s)
  {
    if s != "" { NoDigitsNotNumbered(s[1..]); }
  }

  /** Names without digits. */
  lemma IdempotentWithoutDigits(s: string, order: seq<string>, other: seq<string>)
    requires Trim(s) != "" && IsOrder(order) && IsOrder(other)
    requires forall i :: 0 <= i < |s| ==> !IsDigit(s[i])
    ensures Trim(ToSnake(s, order)) != "" && ToSnake(ToSnake(s, order), other) == ToSnake(s, order)
  {
    NoDigitsNotNumbered(s);
    BoundariesChange(s);
    LeftoverExactly(s);
    IdempotentExactly(s, order, other);
  }

  /** A letter and a digit alone are left as they are. */
  lemma LetterThenDigit(s: string)
    requires |s| == 2 && IsLetter(s[0]) && IsDigit(s[1])
    ensures AddWordBoundaries(s) == s
  {
    var last := s[1..];
    assert last == [s[1]] && last[1..] == "";
    assert !LetterDigit(last[1..]) && !DigitsLetterDigit(last[1..]) && !Matches(last) && !Numbered(last[1..]);
    assert !DigitsLetterDigit(last);
    assert !Numbered(last) && !Matches(s) && !Numbered(s);
    BoundariesChange(s);
  }

  /** Four characters that match, and the length of the match. */
  lemma ShortestMatch(s: string)
    requires |s| >= 4 && IsLetter(s[0]) && IsDigit(s[1]) && IsLetter(s[2]) && IsDigit(s[3])
    requires |s| > 4 ==> !IsDigit(s[4])
    ensures Matches(s) && MatchesHere(s) && MatchLength(s) == 4
    ensures SpacedMatch(s) == [s[0], ' ', s[1], ' ', s[2], s[3]]
  {
    assert s[1..][0] == s[1] && s[1..][1..] == s[2..] && s[2..][1] == s[3];
    assert DigitsLetterDigit(s[1..]);
    assert Digits(s[2..]) == 0 && Digits(s[1..]) == 1;
    assert s[3..][1..] == s[4..];
    assert Digits(s[4..]) == 0 && Digits(s[3..]) == 1;
    MatchesIsMatchesHere(s);
  }

  /** What the digit rule makes of three letters, each with a digit: the second
      match overlaps the first. */
  lemma OverlappingMatches(s: string)
    requires |s| == 6 && IsLetter(s[0]) && IsLetter(s[2]) && IsLetter(s[4])
    requires IsDigit(s[1]) && IsDigit(s[3]) && IsDigit(s[5])
    ensures AddWordBoundaries(s) == [s[0], ' ', s[1], ' '] + s[2..]
  {
    ShortestMatch(s);
    LetterThenDigit(s[4..]);
    assert [s[0], ' ', s[1], ' ', s[2], s[3]] + s[4..] == [s[0], ' ', s[1], ' '] + s[2..];
  }

  lemma OverlapIsLeftOver(s: string)
    requires |s| == 6 && IsLetter(s[0]) && IsLetter(s[2]) && IsLetter(s[4])
    requires IsDigit(s[1]) && IsDigit(s[3]) && IsDigit(s[5])
    ensures Numbered(AddWordBoundaries(s))
  {
    OverlappingMatches(s);
    ShortestMatch(s[2..]);
    NumberedSuffix([s[0], ' ', s[1], ' '], s[2..]);
  }

  /** A name for which the second pass changes the result. */
  lemma NotIdempotentOnDigits(order: seq<string>) returns (s: string)
    requires IsOrder(order)
    ensures s == "a1b2c3" && Trim(s) != "" && Trim(ToSnake(s, order)) != ""
    ensures ToSnake(ToSnake(s, order), order) != ToSnake(s, order)
  {
    s := "a1b2c3";
    TrimNothing(s);
    OverlapIsLeftOver(s);
    LeftoverExactly(s);
    IdempotentExactly(s, order, order);
  }
}
