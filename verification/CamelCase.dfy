/**
 * What snake-casing is for: names written in camel case, with or without an
 * acronym, are taken apart into their words.
 */
module CamelCase {
  import opened Common
  import opened NumberBoundaries
  import opened WordMapping
  import opened SnakeCase

  predicate IsSmall(c: char) {
    IsLower(c) || IsDigit(c)
  }

  predicate AllSmall(w: string) {
    forall i :: 0 <= i < |w| ==> IsSmall(w[i])
  }

  /** A word that can follow another: a letter, then letters and digits. */
  predicate IsWordAfter(w: string) {
    w != "" && AllSmall(w) && IsLower(w[0])
  }

  predicate AreWords(ws: seq<string>) {
    forall w :: w in ws ==> IsWordAfter(w)
  }

  function Upper(c: char): (u: char)
    requires IsLower(c)
    ensures IsUpper(u) && Lower(u) == c
  {
    c - 'a' + 'A'
  }

  /** The words with capitals, joined. */
  function Camel(ws: seq<string>): string
    requires AreWords(ws)
  {
    if ws == [] then "" else
    assert ws[0] in ws && forall w :: w in ws[1..] ==> w in ws;
    [Upper(ws[0][0])] + (ws[0][1..] + Camel(ws[1..]))
  }

  /** The words, each after an underscore. */
  function Underscored(ws: seq<string>): string {
    if ws == [] then "" else "_" + (ws[0] + Underscored(ws[1..]))
  }

  predicate LongAndLower(w: string) {
    |w| >= 2 && IsLower(w[1])
  }

  /** The case changes where `w` begins after `prev`. */
  predicate Visible(prev: string, w: string) {
    (|prev| >= 2 && IsLower(prev[|prev| - 1])) || LongAndLower(w)
  }

  function Mark(visible: bool): string {
    if visible then "_" else ""
  }

  /** The words after `prev`, each after an underscore where its beginning is visible. */
  function Marked(prev: string, ws: seq<string>): string
    decreases |ws|
  {
    if ws == [] then "" else Mark(Visible(prev, ws[0])) + (ws[0] + Marked(ws[0], ws[1..]))
  }

  predicate AllVisible(prev: string, ws: seq<string>)
    decreases |ws|
  {
    ws == [] || (Visible(prev, ws[0]) && AllVisible(ws[0], ws[1..]))
  }

  lemma TailsAreWords(ws: seq<string>)
    requires AreWords(ws) && ws != []
    ensures IsWordAfter(ws[0]) && AreWords(ws[1..])
  {
    assert ws[0] in ws && forall w :: w in ws[1..] ==> w in ws;
  }

  // ----- the splitting pass

  /** The rest `u` of a word within a name, and the words that follow. */
  lemma {:induction false} SnakeTail(w: string, u: string, ws: seq<string>)
    requires AllSmall(w) && AreWords(ws) && |u| < |w| && u == w[|w| - |u|..] && (u == "" ==> |w| == 1)
    ensures Snake(u + Camel(ws), false) == u + Marked(w, ws)
    decreases |ws|, |u|
  {
    if u == "" {
      assert u + Camel(ws) == Camel(ws) && u + Marked(w, ws) == Marked(w, ws);
      if ws != [] { SnakeWithin(ws); }
    } else if |u| == 1 {
      assert u == [u[0]] && u[0] == w[|w| - 1] && IsSmall(u[0]);
      SnakeLast(w, u[0], ws);
    } else {
      var c, rest := u[0], u[1..] + Camel(ws);
      assert u + Camel(ws) == [c] + rest && rest[0] == u[1];
      assert c == w[|w| - |u|] && u[1] == w[|w| - |u| + 1] && IsSmall(c) && IsSmall(u[1]);
      SnakeSmall(c, rest, false);
      SnakeTail(w, u[1..], ws);
      assert [c] + (u[1..] + Marked(w, ws)) == u + Marked(w, ws);
    }
  }

  /** The last character of a word of two or more. */
  lemma {:induction false} SnakeLast(w: string, c: char, ws: seq<string>)
    requires |w| >= 2 && w[|w| - 1] == c && IsSmall(c) && AreWords(ws)
    ensures Snake([c] + Camel(ws), false) == [c] + Marked(w, ws)
    decreases |ws|, 0, 2
  {
    if ws == [] {
      SnakeSmall(c, "", false);
    } else if IsLower(c) {
      SnakeStart(ws);
      SnakeBeforeCapital(c, Camel(ws));
      Reassociate([c], "_", Snake(Camel(ws), true));
    } else {
      SnakeWithin(ws);
      SnakeSmall(c, Camel(ws), false);
    }
  }

  lemma SnakeSmall(c: char, rest: string, atStart: bool)
    requires IsSmall(c) && (atStart || rest == "" || !IsUpper(rest[0]) || !IsLower(c))
    ensures Snake([c] + rest, atStart) == [c] + Snake(rest, false)
  {
    assert ([c] + rest)[1..] == rest;
  }

  lemma SnakeBeforeCapital(c: char, rest: string)
    requires IsLower(c) && rest != "" && IsUpper(rest[0])
    ensures Snake([c] + rest, false) == [c] + "_" + Snake(rest, true)
  {
    assert ([c] + rest)[1..] == rest;
  }

  lemma CamelHead(ws: seq<string>)
    requires ws != [] && AreWords(ws)
    ensures IsWordAfter(ws[0]) && AreWords(ws[1..])
    ensures Camel(ws) == [Upper(ws[0][0])] + (ws[0][1..] + Camel(ws[1..]))
  {
    TailsAreWords(ws);
  }

  /** Whether the case changes at a capital at the front. */
  lemma CapitalChanges(c: char, u: string, ws: seq<string>)
    requires IsUpper(c) && AllSmall(u) && AreWords(ws)
    ensures CaseChanges([c] + (u + Camel(ws))) <==> u != "" && IsLower(u[0])
  {
    var s := [c] + (u + Camel(ws));
    if u != "" {
      assert s[1] == u[0] && IsSmall(u[0]);
    } else if ws != [] {
      CamelHead(ws);
      assert u + Camel(ws) == Camel(ws);
      assert s[1] == Upper(ws[0][0]);
    }
  }

  lemma SnakeCapital(c: char, rest: string, atStart: bool)
    requires IsUpper(c)
    ensures Snake([c] + rest, atStart) ==
            Mark(!atStart && CaseChanges([c] + rest)) + ([Lower(c)] + Snake(rest, false))
  {
    assert ([c] + rest)[1..] == rest;
    Reassociate("_", [Lower(c)], Snake(rest, false));
    assert "" + ([Lower(c)] + Snake(rest, false)) == [Lower(c)] + Snake(rest, false);
  }

  lemma SnakeWhole(ws: seq<string>, atStart: bool)
    requires ws != [] && AreWords(ws)
    ensures Snake(Camel(ws), atStart) ==
            Mark(!atStart && LongAndLower(ws[0])) + (ws[0] + Marked(ws[0], ws[1..]))
    decreases |ws|, 0, 0
  {
    CamelHead(ws);
    var w, u := ws[0], ws[0][1..];
    assert w == [w[0]] + u && (u != "" ==> u[0] == w[1]);
    CapitalChanges(Upper(w[0]), u, ws[1..]);
    SnakeCapital(Upper(w[0]), u + Camel(ws[1..]), atStart);
    SnakeTail(w, u, ws[1..]);
    Reassociate([w[0]], u, Marked(w, ws[1..]));
  }

  /** Words with capitals, at the start of a word. */
  lemma SnakeStart(ws: seq<string>)
    requires ws != [] && AreWords(ws)
    ensures Snake(Camel(ws), true) == ws[0] + Marked(ws[0], ws[1..])
    decreases |ws|, 0, 1
  {
    SnakeWhole(ws, true);
    assert "" + (ws[0] + Marked(ws[0], ws[1..])) == ws[0] + Marked(ws[0], ws[1..]);
  }

  /** And within one. */
  lemma SnakeWithin(ws: seq<string>)
    requires ws != [] && AreWords(ws)
    ensures Snake(Camel(ws), false) == Mark(LongAndLower(ws[0])) + (ws[0] + Marked(ws[0], ws[1..]))
    decreases |ws|, 0, 1
  {
    SnakeWhole(ws, false);
  }

  // ----- the other passes leave such names alone

  /** No two capitals stand side by side. */
  predicate Apart(s: string) {
    |s| < 2 || (!(IsUpper(s[0]) && IsUpper(s[1])) && Apart(s[1..]))
  }

  lemma {:induction false} ApartNotFound(s: string, w: string)
    requires Apart(s) && |w| >= 2 && IsUpper(w[0]) && IsUpper(w[1])
    ensures Find(s, w) == -1
  {
    if s != "" {
      assert |s| == 1 ==> s[1..] == "";
      ApartNotFound(s[1..], w);
    }
  }

  lemma {:induction false} CamelUnspaced(w: string, ws: seq<string>)
    requires AllSmall(w) && AreWords(ws)
    ensures ' ' !in w + Camel(ws)
    decreases |ws|
  {
    assert ' ' !in w;
    if ws != [] {
      CamelHead(ws);
      assert AllSmall(ws[0][1..]);
      CamelUnspaced(ws[0][1..], ws[1..]);
    }
  }

  predicate AllLong(ws: seq<string>) {
    forall w :: w in ws ==> |w| >= 2
  }

  lemma {:induction false} CamelApart(w: string, ws: seq<string>)
    requires AllSmall(w) && AreWords(ws) && AllLong(ws)
    ensures Apart(w + Camel(ws))
    decreases |ws|, |w|
  {
    if w != "" {
      assert w + Camel(ws) == [w[0]] + (w[1..] + Camel(ws));
      assert IsSmall(w[0]);
      CamelApart(w[1..], ws);
      ApartAfter(w[0], w[1..] + Camel(ws));
    } else if ws != [] {
      CamelHead(ws);
      assert ws[0] in ws && forall x :: x in ws[1..] ==> x in ws;
      var rest := ws[0][1..] + Camel(ws[1..]);
      assert w + Camel(ws) == [Upper(ws[0][0])] + rest && rest[0] == ws[0][1] && IsSmall(ws[0][1]);
      CamelApart(ws[0][1..], ws[1..]);
      ApartAfter(Upper(ws[0][0]), rest);
    } else {
      assert w + Camel(ws) == "";
    }
  }

  lemma ApartAfter(c: char, s: string)
    requires Apart(s) && (IsUpper(c) ==> s == "" || !IsUpper(s[0]))
    ensures Apart([c] + s)
  {
    assert ([c] + s)[1..] == s;
  }

  /** No acronym occurs. */
  predicate NoAcronym(s: string) {
    Find(s, "HTTP") < 0 && Find(s, "URL") < 0 && Find(s, "IP") < 0
  }

  lemma {:induction false} NothingSetApart(s: string, order: seq<string>)
    requires NoAcronym(s) && forall w :: w in order ==> IsWord(w)
    ensures Preprocess(s, order) == s
    decreases |order|
  {
    if order != [] {
      assert order[0] in order && forall w :: w in order[1..] ==> w in order;
      NothingSetApart(s, order[1..]);
    }
  }

  /** None can occur when all words after the first have two letters or more. */
  lemma LongWordsNoAcronym(first: string, ws: seq<string>)
    requires AllSmall(first) && AreWords(ws) && AllLong(ws)
    ensures NoAcronym(first + Camel(ws))
  {
    CamelApart(first, ws);
    ApartNotFound(first + Camel(ws), "HTTP");
    ApartNotFound(first + Camel(ws), "URL");
    ApartNotFound(first + Camel(ws), "IP");
  }

  lemma {:induction false} Unspaced(s: string)
    requires s != "" && ' ' !in s && !Numbered(s)
    ensures AddWordBoundaries(s) == s && Trim(s) == s
  {
    TrimNothing(s);
    BoundariesChange(s);
  }

  // ----- the results

  /** What a camel-case name becomes: its words, with an underscore wherever the
      beginning of a word is visible. */
  lemma CamelToSnake(first: string, ws: seq<string>, order: seq<string>)
    requires first != "" && AllSmall(first) && AreWords(ws)
    requires !Numbered(first + Camel(ws)) && NoAcronym(first + Camel(ws)) && forall w :: w in order ==> IsWord(w)
    ensures Trim(first + Camel(ws)) != ""
    ensures ToSnake(first + Camel(ws), order) == first + Marked(first, ws)
  {
    var s := first + Camel(ws);
    CamelUnspaced(first, ws);
    assert IsSmall(first[0]) && s[0] == first[0];
    ToSnakeFromSmall(s, order);
    NothingSetApart(s, order);
    SnakeFirst(first, ws);
  }

  lemma {:induction false} MarkedLength(prev: string, ws: seq<string>)
    ensures |Marked(prev, ws)| <= |Underscored(ws)|
    ensures |Marked(prev, ws)| == |Underscored(ws)| <==> AllVisible(prev, ws)
    ensures AllVisible(prev, ws) ==> Marked(prev, ws) == Underscored(ws)
    decreases |ws|
  {
    if ws != [] { MarkedLength(ws[0], ws[1..]); }
  }

  /** It is taken apart into exactly its words if and only if all beginnings are
      visible: after a lower-case letter that is not a word by itself, or before one. */
  lemma CamelSeparated(first: string, ws: seq<string>, order: seq<string>)
    requires first != "" && AllSmall(first) && AreWords(ws)
    requires !Numbered(first + Camel(ws)) && NoAcronym(first + Camel(ws)) && forall w :: w in order ==> IsWord(w)
    ensures Trim(first + Camel(ws)) != ""
    ensures ToSnake(first + Camel(ws), order) == first + Underscored(ws) <==> AllVisible(first, ws)
  {
    CamelToSnake(first, ws, order);
    MarkedLength(first, ws);
    assert |first + Marked(first, ws)| == |first| + |Marked(first, ws)|;
  }

  lemma ToSnakeFromSmall(s: string, order: seq<string>)
    requires s != "" && ' ' !in s && !Numbered(s) && !IsUpper(s[0])
    ensures Trim(s) != "" && ToSnake(s, order) == Snake(Preprocess(s, order), true)
  {
    Unspaced(s);
  }

  lemma SnakeFirst(first: string, ws: seq<string>)
    requires first != "" && AllSmall(first) && AreWords(ws)
    ensures Snake(first + Camel(ws), true) == first + Marked(first, ws)
  {
    var c, u := first[0], first[1..];
    assert first == [c] + u && IsSmall(c);
    Reassociate([c], u, Camel(ws));
    SnakeSmall(c, u + Camel(ws), true);
    SnakeTail(first, u, ws);
    Reassociate([c], u, Marked(first, ws));
  }

  /** A name that starts with a capital gets an underscore in front, unless its
      first word is that of an acronym. */
  lemma {:induction false} PascalToSnake(ws: seq<string>, order: seq<string>)
    requires ws != [] && AreWords(ws)
    requires !Numbered(Camel(ws)) && NoAcronym(Camel(ws)) && forall w :: w in order ==> IsWord(w)
    ensures Trim(Camel(ws)) != ""
    ensures var joined := ws[0] + Marked(ws[0], ws[1..]);
            ToSnake(Camel(ws), order) == Mark(!IsMappedWord(FirstWord(joined))) + joined
  {
    var s := Camel(ws);
    CamelHead(ws);
    CamelUnspaced("", ws);
    assert "" + s == s;
    Unspaced(s);
    NothingSetApart(s, order);
    SnakeStart(ws);
    assert "" + (ws[0] + Marked(ws[0], ws[1..])) == ws[0] + Marked(ws[0], ws[1..]);
  }

  // ----- acronyms

  /** The part of a name from an acronym on. */
  function FromAcronym(acronym: string, plural: bool, ws: seq<string>): string
    requires AreWords(ws)
  {
    acronym + ((if plural then "s" else "") + Camel(ws))
  }

  lemma {:induction false} OnlyThisAcronym(first: string, acronym: string, plural: bool, ws: seq<string>, other: string)
    requires AllSmall(first) && IsWord(acronym) && IsWord(other) && AreWords(ws) && NoAcronym(Camel(ws))
    ensures Find(first + FromAcronym(acronym, plural, ws), other) == if other == acronym then |first| else -1
  {
    var rest := (if plural then "s" else "") + Camel(ws);
    assert IsUpper(other[0]) && other[0] !in first;
    FindPast(first, acronym + rest, other);
    if other == acronym {
      assert acronym <= acronym + rest;
    } else {
      WordsArePlain(acronym, other);
      FindPast(acronym, rest, other);
      FindPast(if plural then "s" else "", Camel(ws), other);
    }
  }

  lemma OtherLeftAlone(first: string, acronym: string, plural: bool, ws: seq<string>, other: string)
    requires AllSmall(first) && IsWord(acronym) && IsWord(other) && other != acronym
    requires AreWords(ws) && NoAcronym(Camel(ws))
    ensures var v := first + FromAcronym(acronym, plural, ws);
            SetApart(v, other) == v && SetApart(SetApart(v, acronym), other) == SetApart(v, acronym)
  {
    OnlyThisAcronym(first, acronym, plural, ws, other);
    WordsArePlain(acronym, other);
    AbsentStaysAbsent(first + FromAcronym(acronym, plural, ws), acronym, other);
  }

  lemma AcronymInOrder(acronym: string, order: seq<string>)
    requires IsWord(acronym) && IsOrder(order)
    ensures acronym == order[0] || acronym == order[1] || acronym == order[2]
  {
    assert order[0] in order && order[1] in order && order[2] in order;
  }

  lemma AcronymSetApart(first: string, acronym: string, plural: bool, ws: seq<string>, order: seq<string>)
    requires AllSmall(first) && IsWord(acronym) && AreWords(ws) && NoAcronym(Camel(ws)) && IsOrder(order)
    ensures var v := first + FromAcronym(acronym, plural, ws); Preprocess(v, order) == SetApart(v, acronym)
  {
    var v := first + FromAcronym(acronym, plural, ws);
    assert order == [order[0], order[1], order[2]];
    PreprocessThree(v, order[0], order[1], order[2]);
    AcronymInOrder(acronym, order);
    forall other | other in order && other != acronym
      ensures SetApart(v, other) == v && SetApart(SetApart(v, acronym), other) == SetApart(v, acronym)
    {
      OtherLeftAlone(first, acronym, plural, ws, other);
    }
    assert order[0] in order && order[1] in order && order[2] in order;
  }

  lemma AcronymGlued(first: string, acronym: string, plural: bool, ws: seq<string>)
    requires AllSmall(first) && IsWord(acronym) && AreWords(ws) && NoAcronym(Camel(ws))
    ensures SetApart(first + FromAcronym(acronym, plural, ws), acronym) ==
            Glue(first, acronym, (if plural then "s" else "") + Camel(ws))
  {
    var rest := (if plural then "s" else "") + Camel(ws);
    OnlyThisAcronym(first, acronym, plural, ws, acronym);
    Reassociate(first, acronym, rest);
    SetApartAt(first, acronym, rest);
  }

  /** Capitals up to an underscore or the end are one word. */
  lemma {:induction false} SnakeCapitals(w: string, z: string, atStart: bool)
    requires forall i :: 0 <= i < |w| ==> IsUpper(w[i])
    requires z == "" || z[0] == '_'
    ensures Snake(w + z, atStart) == ToLower(w) + Snake(z, w == "" && atStart)
    decreases |w|
  {
    if w == "" {
      assert w + z == z && ToLower(w) + Snake(z, atStart) == Snake(z, atStart);
      if z != "" { assert Snake(z, true) == Snake(z, false); }
    } else {
      assert (w + z)[1..] == w[1..] + z;
      SnakeCapitals(w[1..], z, false);
      assert ToLower(w) == [Lower(w[0])] + ToLower(w[1..]);
      Reassociate([Lower(w[0])], ToLower(w[1..]), Snake(z, false));
    }
  }

  lemma {:induction false} SnakeBeforeBar(w: string, z: string, atStart: bool)
    requires AllSmall(w) && z != "" && z[0] == '_'
    ensures Snake(w + z, atStart) == w + Snake(z, true)
    decreases |w|
  {
    if w == "" {
      assert w + z == z && w + Snake(z, true) == Snake(z, true);
    } else {
      assert (w + z)[1..] == w[1..] + z;
      assert IsSmall(w[0]) && (|w| > 1 ==> IsSmall(w[1]));
      SnakeBeforeBar(w[1..], z, false);
      assert w == [w[0]] + w[1..];
      Reassociate([w[0]], w[1..], Snake(z, true));
    }
  }

  /** The acronym with its plural, in capitals. */
  function Capitals(acronym: string, plural: bool): string {
    acronym + if plural then "S" else ""
  }

  /** What follows an acronym that was set apart. */
  function Following(ws: seq<string>): string
    requires AreWords(ws)
  {
    if ws == [] then "" else "_" + Camel(ws)
  }

  /** What becomes of it. */
  function AfterBar(ws: seq<string>): string {
    if ws == [] then "" else "_" + (ws[0] + Marked(ws[0], ws[1..]))
  }

  lemma GlueIsBarred(first: string, acronym: string, plural: bool, ws: seq<string>)
    requires first != "" && AreWords(ws)
    ensures Glue(first, acronym, (if plural then "s" else "") + Camel(ws)) ==
            first + ("_" + (Capitals(acronym, plural) + Following(ws)))
  {
    var rest := (if plural then "s" else "") + Camel(ws);
    if ws != [] {
      TailsAreWords(ws);
      assert plural ==> rest[1..] == Camel(ws);
      assert rest[0] == 's' <==> plural;
    }
    assert plural && ws == [] ==> rest == "s";
  }

  /** A word, an acronym or its plural, and more words: the acronym becomes a word
      of its own, in every order of the acronyms. */
  lemma AcronymToSnake(first: string, acronym: string, plural: bool, ws: seq<string>, order: seq<string>)
    requires first != "" && AllSmall(first)
    requires IsWord(acronym) && AreWords(ws) && NoAcronym(Camel(ws)) && IsOrder(order)
    requires !Numbered(first + FromAcronym(acronym, plural, ws))
    ensures var s := first + FromAcronym(acronym, plural, ws);
            && Trim(s) != ""
            && ToSnake(s, order) == first + ("_" + (ToLower(Capitals(acronym, plural)) + AfterBar(ws)))
  {
    var s := first + FromAcronym(acronym, plural, ws);
    AcronymUnspaced(first, acronym, plural, ws);
    assert IsSmall(first[0]) && s[0] == first[0];
    ToSnakeFromSmall(s, order);
    AcronymSetApart(first, acronym, plural, ws, order);
    AcronymGlued(first, acronym, plural, ws);
    GlueIsBarred(first, acronym, plural, ws);
    CapitalsAreUpper(acronym, plural);
    SnakeBarred(first, Capitals(acronym, plural), ws);
  }

  lemma AcronymUnspaced(first: string, acronym: string, plural: bool, ws: seq<string>)
    requires AllSmall(first) && IsWord(acronym) && AreWords(ws)
    ensures ' ' !in first + FromAcronym(acronym, plural, ws)
  {
    CamelUnspaced(if plural then "s" else "", ws);
    CapitalsAreUpper(acronym, false);
    assert Capitals(acronym, false) == acronym;
  }

  lemma CapitalsAreUpper(acronym: string, plural: bool)
    requires IsWord(acronym)
    ensures var w := Capitals(acronym, plural); w != "" && forall i :: 0 <= i < |w| ==> IsUpper(w[i])
  {
  }

  lemma {:induction false} SnakeBarred(first: string, capitals: string, ws: seq<string>)
    requires AllSmall(first) && AreWords(ws) && capitals != ""
    requires forall i :: 0 <= i < |capitals| ==> IsUpper(capitals[i])
    ensures Snake(first + ("_" + (capitals + Following(ws))), true) ==
            first + ("_" + (ToLower(capitals) + AfterBar(ws)))
  {
    var z := "_" + (capitals + Following(ws));
    SnakeBeforeBar(first, z, true);
    assert z[1..] == capitals + Following(ws);
    SnakeCapitals(capitals, Following(ws), true);
    if ws != [] {
      SnakeStart(ws);
      assert Following(ws)[1..] == Camel(ws);
    }
  }

  /** In front of a name an acronym is a word of its own as well, and the underscore
      for the capital is left out unless it is a plural. */
  lemma AcronymInFront(acronym: string, plural: bool, ws: seq<string>, order: seq<string>)
    requires IsWord(acronym) && AreWords(ws) && ws != [] && NoAcronym(Camel(ws)) && IsOrder(order)
    requires !Numbered(FromAcronym(acronym, plural, ws))
    ensures Trim(FromAcronym(acronym, plural, ws)) != ""
    ensures ToSnake(FromAcronym(acronym, plural, ws), order) ==
            Mark(plural) + (ToLower(Capitals(acronym, plural)) + AfterBar(ws))
  {
    FrontSetApart(acronym, plural, ws, order);
    FrontGlued(acronym, plural, ws);
    SnakeFront(acronym, plural, ws);
    NoUnderscore(ToLower(Capitals(acronym, plural)), AfterBar(ws));
    PluralIsUnmapped(acronym, plural);
    FrontMarked(FromAcronym(acronym, plural, ws), order, ToLower(Capitals(acronym, plural)) + AfterBar(ws));
  }

  /** The underscore in front of a name with a capital. */
  lemma FrontMarked(s: string, order: seq<string>, joined: string)
    requires s != "" && IsUpper(s[0]) && AddWordBoundaries(s) == s && Trim(s) == s
    requires Snake(Preprocess(s, order), true) == joined
    ensures ToSnake(s, order) == Mark(!IsMappedWord(FirstWord(joined))) + joined
  {
    assert "" + joined == joined;
  }

  lemma SnakeFront(acronym: string, plural: bool, ws: seq<string>)
    requires IsWord(acronym) && AreWords(ws) && ws != []
    ensures Snake(Capitals(acronym, plural) + Following(ws), true) ==
            ToLower(Capitals(acronym, plural)) + AfterBar(ws)
    ensures '_' !in ToLower(Capitals(acronym, plural))
  {
    CapitalsAreUpper(acronym, plural);
    SnakeCapitals(Capitals(acronym, plural), Following(ws), true);
    SnakeStart(ws);
    assert Following(ws)[1..] == Camel(ws);
  }

  /** Alone, an acronym or its plural gets an underscore twice. */
  lemma AcronymAlone(acronym: string, plural: bool, order: seq<string>)
    requires IsWord(acronym) && IsOrder(order)
    ensures Trim(FromAcronym(acronym, plural, [])) != ""
    ensures ToSnake(FromAcronym(acronym, plural, []), order) == "__" + ToLower(Capitals(acronym, plural))
  {
    var joined := "_" + ToLower(Capitals(acronym, plural));
    AloneIsPlain(acronym, plural);
    FrontSetApart(acronym, plural, [], order);
    SnakeAlone(acronym, plural);
    FrontMarked(FromAcronym(acronym, plural, []), order, joined);
    assert FirstWord(joined) == "" && "_" + joined == "__" + ToLower(Capitals(acronym, plural));
  }

  lemma AloneIsPlain(acronym: string, plural: bool)
    requires IsWord(acronym)
    ensures NoAcronym(Camel([])) && !Numbered(FromAcronym(acronym, plural, []))
  {
    NoDigitsNotNumbered(FromAcronym(acronym, plural, []));
  }

  lemma SnakeAlone(acronym: string, plural: bool)
    requires IsWord(acronym)
    ensures Snake(Glue("", acronym, (if plural then "s" else "") + Camel([])), true) ==
            "_" + ToLower(Capitals(acronym, plural))
  {
    var capitals := Capitals(acronym, plural);
    assert Glue("", acronym, (if plural then "s" else "") + Camel([])) == "_" + capitals;
    CapitalsAreUpper(acronym, plural);
    SnakeCapitals(capitals, "", true);
    assert ("_" + capitals)[1..] == capitals && capitals + "" == capitals;
    assert ToLower(capitals) + "" == ToLower(capitals);
  }

  lemma FrontSetApart(acronym: string, plural: bool, ws: seq<string>, order: seq<string>)
    requires IsWord(acronym) && AreWords(ws) && NoAcronym(Camel(ws)) && IsOrder(order)
    requires !Numbered(FromAcronym(acronym, plural, ws))
    ensures var s := FromAcronym(acronym, plural, ws);
            && s != "" && IsUpper(s[0]) && AddWordBoundaries(s) == s && Trim(s) == s
            && Preprocess(s, order) == Glue("", acronym, (if plural then "s" else "") + Camel(ws))
  {
    var s := FromAcronym(acronym, plural, ws);
    assert "" + s == s;
    AcronymUnspaced("", acronym, plural, ws);
    Unspaced(s);
    AcronymSetApart("", acronym, plural, ws, order);
    AcronymGlued("", acronym, plural, ws);
  }

  lemma FrontGlued(acronym: string, plural: bool, ws: seq<string>)
    requires AreWords(ws) && ws != []
    ensures Glue("", acronym, (if plural then "s" else "") + Camel(ws)) == Capitals(acronym, plural) + Following(ws)
  {
    CamelHead(ws);
    assert "" + acronym == acronym;
    if plural {
      PluralGlued(acronym, Camel(ws));
    } else {
      assert "" + Camel(ws) == Camel(ws) && acronym + "" == acronym;
      assert Camel(ws)[0] != 's';
    }
  }

  lemma PluralGlued(acronym: string, rest: string)
    requires rest != ""
    ensures Glue("", acronym, "s" + rest) == (acronym + "S") + ("_" + rest)
  {
    assert ("s" + rest)[1..] == rest && "" + acronym == acronym;
    Reassociate("S", "_", rest);
    Reassociate(acronym, "S", "_" + rest);
    assert "S" + "_" == "S_";
  }

  lemma PluralIsUnmapped(acronym: string, plural: bool)
    requires IsWord(acronym)
    ensures IsMappedWord(ToLower(Capitals(acronym, plural))) <==> !plural
  {
    var low := ToLower(Capitals(acronym, plural));
    if plural {
      assert low[|acronym|] == 's';
    } else {
      assert ToLower("HTTP") == "http" && ToLower("URL") == "url" && ToLower("IP") == "ip";
      assert Capitals(acronym, plural) == acronym;
    }
  }

  // ----- delimiters and blanks

  /** Spaces and hyphens as underscores. */
  function Underlined(s: string): string {
    if s == "" then "" else [if s[0] == ' ' || s[0] == '-' then '_' else s[0]] + Underlined(s[1..])
  }

  lemma {:induction false} SnakeWithoutCapitals(s: string, atStart: bool)
    requires forall i :: 0 <= i < |s| ==> !IsUpper(s[i])
    ensures Snake(s, atStart) == Underlined(s)
    decreases |s|
  {
    if s != "" {
      SnakeWithoutCapitals(s[1..], true);
      SnakeWithoutCapitals(s[1..], false);
    }
  }

  lemma NoCapitalNoAcronym(s: string)
    requires forall i :: 0 <= i < |s| ==> !IsUpper(s[i])
    ensures NoAcronym(s)
  {
    assert 'H' !in s && 'U' !in s && 'I' !in s;
    NoStartNotFound(s, "HTTP");
    NoStartNotFound(s, "URL");
    NoStartNotFound(s, "IP");
  }

  /** In a name without capitals every space and hyphen between the first and the
      last character becomes an underscore, and nothing else changes. */
  lemma DelimitersToUnderscores(s: string, order: seq<string>)
    requires s != "" && s[0] != ' ' && s[|s| - 1] != ' ' && !Numbered(s)
    requires (forall i :: 0 <= i < |s| ==> !IsUpper(s[i])) && forall w :: w in order ==> IsWord(w)
    ensures Trim(s) != "" && ToSnake(s, order) == Underlined(s)
  {
    TrimNothing(s);
    BoundariesChange(s);
    NoCapitalNoAcronym(s);
    NothingSetApart(s, order);
    SnakeWithoutCapitals(s, true);
  }

  /** A delimiter ends one word and starts the next, whatever is on either side. */
  lemma {:induction false} SnakeAtDelimiter(a: string, d: char, b: string, atStart: bool)
    requires d == ' ' || d == '_' || d == '-'
    ensures Snake(a + ([d] + b), atStart) == Snake(a, atStart) + ("_" + Snake(b, true))
    decreases |a|
  {
    if a == "" {
      assert a + ([d] + b) == [d] + b && ([d] + b)[1..] == b;
      assert "" + ("_" + Snake(b, true)) == "_" + Snake(b, true);
    } else {
      var rest := "_" + Snake(b, true);
      assert (a + ([d] + b))[1..] == a[1..] + ([d] + b);
      SnakeAtDelimiter(a[1..], d, b, true);
      SnakeAtDelimiter(a[1..], d, b, false);
      SameCaseChange(a, [d] + b);
      Reassociate("_" + [Lower(a[0])], Snake(a[1..], false), rest);
      Reassociate([a[0]] + "_", Snake(a[1..], true), rest);
      Reassociate("_", Snake(a[1..], true), rest);
      Reassociate([Lower(a[0])], Snake(a[1..], false), rest);
    }
  }

  lemma SameCaseChange(a: string, z: string)
    requires a != "" && z != "" && !IsLetter(z[0])
    ensures CaseChanges(a + z) <==> CaseChanges(a)
    ensures (a + z)[0] == a[0]
  {
    if |a| == 1 { assert (a + z)[1] == z[0]; }
  }

  lemma BlankInFront(s: string)
    ensures AddWordBoundaries(" " + s) == " " + AddWordBoundaries(s)
    ensures TrimLeft(" " + s, ' ') == TrimLeft(s, ' ')
  {
    assert (" " + s)[1..] == s;
  }

  lemma {:induction false} DigitsBeforeBlank(s: string)
    ensures Digits(s + " ") == Digits(s)
  {
    if s != "" {
      assert (s + " ")[1..] == s[1..] + " ";
      DigitsBeforeBlank(s[1..]);
    } else {
      assert s + " " == " ";
    }
  }

  /** A blank behind changes neither where the second letter is looked for, nor
      what follows it. */
  lemma PlacesBeforeBlank(s: string, d: nat)
    requires s != "" && d == 1 + Digits(s[1..])
    ensures d == 1 + Digits((s + " ")[1..])
    ensures d < |s| ==> Digits((s + " ")[d + 1..]) == Digits(s[d + 1..]) && (s + " ")[d] == s[d]
    ensures d == |s| ==> (s + " ")[d] == ' '
  {
    assert (s + " ")[1..] == s[1..] + " ";
    DigitsBeforeBlank(s[1..]);
    if d < |s| {
      assert (s + " ")[d + 1..] == s[d + 1..] + " ";
      DigitsBeforeBlank(s[d + 1..]);
    }
  }

  lemma MatchBeforeBlank(s: string)
    requires s != ""
    ensures MatchesHere(s + " ") <==> MatchesHere(s)
  {
    PlacesBeforeBlank(s, 1 + Digits(s[1..]));
    assert (s + " ")[0] == s[0];
  }

  lemma LengthBeforeBlank(s: string)
    requires MatchesHere(s) && MatchesHere(s + " ")
    ensures MatchLength(s + " ") == MatchLength(s)
  {
    PlacesBeforeBlank(s, 1 + Digits(s[1..]));
  }

  lemma SliceBefore(s: string, z: string, i: nat, j: nat)
    requires i <= j <= |s|
    ensures (s + z)[i..j] == s[i..j]
    ensures s != "" ==> (s + z)[0] == s[0]
  {
  }

  lemma SpacedBeforeBlank(s: string)
    requires MatchesHere(s) && MatchesHere(s + " ") && MatchLength(s + " ") == MatchLength(s)
    ensures SpacedMatch(s + " ") == SpacedMatch(s)
  {
    var d, e := 1 + Digits(s[1..]), MatchLength(s);
    PlacesBeforeBlank(s, d);
    SliceBefore(s, " ", 1, d);
    SliceBefore(s, " ", d, e);
  }

  lemma {:induction false} BlankBehind(s: string)
    ensures AddWordBoundaries(s + " ") == AddWordBoundaries(s) + " "
    decreases |s|
  {
    if s == "" {
      assert s + " " == " " && " "[1..] == "";
    } else {
      MatchBeforeBlank(s);
      if MatchesHere(s) {
        var e := MatchLength(s);
        LengthBeforeBlank(s);
        SpacedBeforeBlank(s);
        assert (s + " ")[e..] == s[e..] + " ";
        BlankBehind(s[e..]);
        Reassociate(SpacedMatch(s), AddWordBoundaries(s[e..]), " ");
      } else {
        assert (s + " ")[1..] == s[1..] + " ";
        BlankBehind(s[1..]);
        Reassociate([s[0]], AddWordBoundaries(s[1..]), " ");
      }
    }
  }

  lemma {:induction false} TrimBehind(s: string)
    requires Trim(s) != ""
    ensures Trim(s + " ") == Trim(s)
  {
    if s[0] == ' ' {
      assert (s + " ")[1..] == s[1..] + " ";
      TrimBehind(s[1..]);
    } else {
      assert (s + " ")[..|s|] == s;
    }
  }

  /** Blanks around a name do not matter. */
  lemma BlanksAround(s: string, order: seq<string>)
    requires Trim(s) != ""
    ensures Trim(" " + s) != "" && ToSnake(" " + s, order) == ToSnake(s, order)
    ensures Trim(s + " ") != "" && ToSnake(s + " ", order) == ToSnake(s, order)
  {
    TrimmedBoundaries(s);
    BlankInFront(s);
    BlankInFront(AddWordBoundaries(s));
    BlankBehind(s);
    TrimBehind(s);
    TrimBehind(AddWordBoundaries(s));
  }
}
