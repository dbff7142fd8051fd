/**
 * The parser for Go's logfmt: a five-mode machine over one line. `Run` is the
 * machine as a function, `ParseLine` the loop over an index.
 */
module Logfmt {
  import opened Common

  datatype Mode = Garbage | Key | Equal | IdentValue | QuotedValue

  datatype Error = KeyNeedsEqual | UnterminatedEscape | UnknownEscape(c: char) | ControlCharacter
                 | UnterminatedQuote | UnicodeTooShort | UnicodeDigit

  /** A value is None for a key that has none. */
  type Fields = map<string, Option<string>>

  datatype State = State(rest: string, mode: Mode, key: string, value: string, fields: Fields)

  function Start(line: string): State {
    State(line, Garbage, "", "", map[])
  }

  predicate IsIdent(c: char) {
    c > ' ' && c != '"' && c != '='
  }

  /** The character a backslash escape stands for. */
  function Unescape(c: char): Option<char> {
    if c == '"' || c == '\\' || c == '\'' || c == '/' then Some(c)
    else if c == 'b' then Some('\U{08}')
    else if c == 'f' then Some('\U{0C}')
    else if c == 'n' then Some('\n')
    else if c == 'r' then Some('\r')
    else if c == 't' then Some('\t')
    else None
  }

  function Take(s: State, mode: Mode): State
    requires s.rest != ""
  {
    s.(rest := s.rest[1..], mode := mode)
  }

  /** Stores the pair and moves on. */
  function Store(s: State, value: Option<string>): State {
    s.(fields := s.fields[s.key := value], key := "", value := "")
  }

  /** One turn of the parsing loop. */
  function Step(s: State, logrus: bool): (r: Result<State, Error>)
    requires s.rest != ""
    ensures r.Ok? ==> |r.value.rest| < |s.rest| || (r.value.rest == s.rest && s.mode == Garbage && r.value.mode == Key)
  {
    var cur := s.rest[0];
    match s.mode
    case Garbage =>
      if IsIdent(cur) then Ok(s.(mode := Key)) else Ok(Take(s, Garbage))
    case Key =>
      if IsIdent(cur) then Ok(Take(s.(key := s.key + [cur]), Key))
      else if cur == '=' then Ok(Take(s, Equal))
      else if logrus then Err(KeyNeedsEqual)
      else Ok(Take(Store(s, None), Garbage))
    case Equal =>
      if IsIdent(cur) then Ok(Take(s.(value := s.value + [cur]), IdentValue))
      else if cur == '"' then Ok(Take(s, QuotedValue))
      else Ok(Take(Store(s, Some(s.value)), Garbage))
    case IdentValue =>
      if IsIdent(cur) then Ok(Take(s.(value := s.value + [cur]), IdentValue))
      else Ok(Take(Store(s, Some(s.value)), Garbage))
    case QuotedValue =>
      if cur == '\\' then
        if |s.rest| == 1 then Err(UnterminatedEscape)
        else match Unescape(s.rest[1])
          case Some(c) => Ok(s.(rest := s.rest[2..], value := s.value + [c]))
          case None =>
            // A unicode escape is looked up at its backslash, which is no digit.
            if s.rest[1] != 'u' then Err(UnknownEscape(s.rest[1]))
            else if |s.rest| < 6 then Err(UnicodeTooShort)
            else Err(UnicodeDigit)
      else if cur == '"' then Ok(Take(Store(s, Some(s.value)), Garbage))
      else if cur < ' ' then Err(ControlCharacter)
      else Ok(Take(s.(value := s.value + [cur]), QuotedValue))
  }

  function Finish(s: State, logrus: bool): Result<Fields, Error> {
    if s.mode == Key && logrus then Err(KeyNeedsEqual)
    else if s.mode == Key || s.mode == Equal then Ok(Store(s, None).fields)
    else if s.mode == IdentValue then Ok(Store(s, Some(s.value)).fields)
    else if s.mode == QuotedValue then Err(UnterminatedQuote)
    else Ok(s.fields)
  }

  function Run(s: State, logrus: bool): Result<Fields, Error>
    decreases |s.rest|, s.mode == Garbage
  {
    if s.rest == "" then Finish(s, logrus)
    else match Step(s, logrus)
      case Err(e) => Err(e)
      case Ok(t) => Run(t, logrus)
  }

  function Parse(line: string, logrus: bool): Result<Fields, Error> {
    Run(Start(line), logrus)
  }

  // ----- the imperative parser

  predicate IsHexDigit(c: char) {
    '0' <= c <= '9' || 'a' <= c <= 'f' || 'A' <= c <= 'F'
  }

  /** Decoding a unicode escape: the digit looked at is always the one at
      `index`, a backslash, so this never succeeds. */
  method ParseUnicodeSequence(line: string, index: nat) returns (error: Error)
    requires index + 1 < |line| && line[index] == '\\' && line[index + 1] == 'u'
    ensures error == if |line| - index < 6 then UnicodeTooShort else UnicodeDigit
  {
    if index + 6 > |line| { return UnicodeTooShort; }
    for i := index + 2 to index + 6
      invariant i == index + 2
    {
      if !IsHexDigit(line[index]) { return UnicodeDigit; }
    }
  }

  /** The parser's index together with the lists, the mode and the result that
      the five mode functions share. */
  class LineParser {
    const line: string
    const logrus: bool
    var index: nat
    var key: string
    var value: string
    var fields: Fields
    var mode: Mode

    constructor (line: string, logrus: bool)
      ensures this.line == line && this.logrus == logrus && index == 0 && Now() == Start(line)
    {
      this.line, this.logrus := line, logrus;
      index, key, value, fields, mode := 0, "", "", map[], Garbage;
    }

    ghost predicate More() reads this {
      index < |line|
    }

    ghost function Now(): State
      reads this
      requires index <= |line|
    {
      State(line[index..], mode, key, value, fields)
    }

    /** One turn from `before` happened as `Step` says. */
    ghost predicate Turned(before: State, error: Option<Error>)
      requires before.rest != ""
      reads this
    {
      match Step(before, logrus)
      case Err(e) => error == Some(e)
      case Ok(t) => error == None && index <= |line| && Now() == t
    }

    method HandleKv(stored: Option<string>)
      modifies this
      ensures index == old(index) && mode == old(mode)
      ensures fields == old(fields)[old(key) := stored] && key == "" && value == ""
    {
      fields := fields[key := stored];
      key, value := "", "";
    }

    method ParseGarbage(cur: char)
      requires More() && cur == line[index] && mode == Garbage
      modifies this
      ensures Turned(old(Now()), None)
    {
      assert line[index..][1..] == line[index + 1..];
      if IsIdent(cur) {
        mode := Key;
      } else {
        index := index + 1;
      }
    }

    method ParseKey(cur: char) returns (error: Option<Error>)
      requires More() && cur == line[index] && mode == Key
      modifies this
      ensures Turned(old(Now()), error)
    {
      assert line[index..][1..] == line[index + 1..];
      if IsIdent(cur) {
        key := key + [cur];
      } else if cur == '=' {
        mode := Equal;
      } else {
        if logrus { return Some(KeyNeedsEqual); }
        HandleKv(None);
        mode := Garbage;
      }
      index := index + 1;
      error := None;
    }

    method ParseEqual(cur: char)
      requires More() && cur == line[index] && mode == Equal
      modifies this
      ensures Turned(old(Now()), None)
    {
      assert line[index..][1..] == line[index + 1..];
      if IsIdent(cur) {
        value := value + [cur];
        mode := IdentValue;
      } else if cur == '"' {
        mode := QuotedValue;
      } else {
        HandleKv(Some(value));
        mode := Garbage;
      }
      index := index + 1;
    }

    method ParseIdentValue(cur: char)
      requires More() && cur == line[index] && mode == IdentValue
      modifies this
      ensures Turned(old(Now()), None)
    {
      assert line[index..][1..] == line[index + 1..];
      if IsIdent(cur) {
        value := value + [cur];
      } else {
        HandleKv(Some(value));
        mode := Garbage;
      }
      index := index + 1;
    }

    method ParseQuotedValue(first: char) returns (error: Option<Error>)
      requires More() && first == line[index] && mode == QuotedValue
      modifies this
      ensures Turned(old(Now()), error)
    {
      assert line[index..][1..] == line[index + 1..];
      error := None;
      if first == '\\' {
        index := index + 1;
        if index >= |line| { return Some(UnterminatedEscape); }
        var cur := line[index];
        assert old(line[index..])[1] == cur && old(line[index..])[2..] == line[index + 1..];
        if Unescape(cur).Some? {
          value := value + [Unescape(cur).value];
        } else if cur != 'u' {
          return Some(UnknownEscape(cur));
        } else {
          index := index - 1;
          var e := ParseUnicodeSequence(line, index);
          return Some(e);
        }
      } else if first == '"' {
        HandleKv(Some(value));
        mode := Garbage;
      } else if first < ' ' {
        return Some(ControlCharacter);
      } else {
        value := value + [first];
      }
      index := index + 1;
    }

    method Turn() returns (error: Option<Error>)
      requires More()
      modifies this
      ensures Turned(old(Now()), error)
    {
      error := None;
      match mode {
        case Garbage => ParseGarbage(line[index]);
        case Key => error := ParseKey(line[index]);
        case Equal => ParseEqual(line[index]);
        case IdentValue => ParseIdentValue(line[index]);
        case QuotedValue => error := ParseQuotedValue(line[index]);
      }
    }

    /** What is left when the line has been read. */
    method Close() returns (r: Result<Fields, Error>)
      requires index == |line|
      modifies this
      ensures r == Finish(old(Now()), logrus)
    {
      if mode == Key && logrus { return Err(KeyNeedsEqual); }
      if mode == Key || mode == Equal {
        HandleKv(None);
      } else if mode == IdentValue {
        HandleKv(Some(value));
      } else if mode == QuotedValue {
        return Err(UnterminatedQuote);
      }
      return Ok(fields);
    }
  }

  /** The loop; every line is parsed to its end. */
  method ParseLine(line: string, logrus: bool) returns (r: Result<Fields, Error>)
    ensures r == Parse(line, logrus)
  {
    var parser := new LineParser(line, logrus);
    while parser.index < |line|
      invariant parser.line == line && parser.logrus == logrus && parser.index <= |line| && fresh(parser)
      invariant Run(parser.Now(), logrus) == Parse(line, logrus)
      decreases |line| - parser.index, parser.mode == Garbage
    {
      var error := parser.Turn();
      if error.Some? { return Err(error.value); }
    }
    r := parser.Close();
  }

  // ----- printing

  predicate IsKey(k: string) {
    k != "" && forall i :: 0 <= i < |k| ==> IsIdent(k[i])
  }

  predicate Printable(c: char) {
    c >= ' ' || c == '\U{08}' || c == '\U{0C}' || c == '\n' || c == '\r' || c == '\t'
  }

  predicate IsText(v: string) {
    forall i :: 0 <= i < |v| ==> Printable(v[i])
  }

  function EscapeChar(c: char): string {
    if c == '"' then "\\\""
    else if c == '\\' then "\\\\"
    else if c == '\U{08}' then "\\b"
    else if c == '\U{0C}' then "\\f"
    else if c == '\n' then "\\n"
    else if c == '\r' then "\\r"
    else if c == '\t' then "\\t"
    else [c]
  }

  function Escape(v: string): string {
    if v == "" then "" else EscapeChar(v[0]) + Escape(v[1..])
  }

  /** A pair to print; `bare` asks for a value without quotes. */
  datatype Pair = Pair(key: string, value: Option<string>, bare: bool)

  /** A pair as `key="value"` or `key=value`, or the key when there is no value. */
  function PrintPair(p: Pair): string {
    (match p.value
     case Some(v) => if p.bare then p.key + "=" + v else p.key + "=\"" + Escape(v) + "\""
     case None => p.key) + " "
  }

  function Print(ps: seq<Pair>): string {
    if ps == [] then "" else PrintPair(ps[0]) + Print(ps[1..])
  }

  /** The pairs stored one after the other: the last one for a key wins. */
  function Stored(m: Fields, ps: seq<Pair>): Fields
    decreases |ps|
  {
    if ps == [] then m else Stored(m[ps[0].key := ps[0].value], ps[1..])
  }

  predicate AllIdent(v: string) {
    forall i :: 0 <= i < |v| ==> IsIdent(v[i])
  }

  predicate IsField(key: string, value: Option<string>) {
    IsKey(key) && (value.Some? ==> IsText(value.value))
  }

  predicate WellFormed(p: Pair) {
    IsField(p.key, p.value) && (p.bare && p.value.Some? ==> AllIdent(p.value.value))
  }

  // ----- round trips

  lemma {:induction false} RunKey(s: State, k: string, logrus: bool)
    requires s.mode == Key && forall i :: 0 <= i < |k| ==> IsIdent(k[i])
    ensures Run(s.(rest := k + s.rest), logrus) == Run(s.(key := s.key + k), logrus)
    decreases |k|
  {
    if k == "" {
      assert k + s.rest == s.rest && s.key + k == s.key;
    } else {
      assert (k + s.rest)[1..] == k[1..] + s.rest;
      RunKey(s.(key := s.key + [k[0]]), k[1..], logrus);
      assert s.key + [k[0]] + k[1..] == s.key + k;
    }
  }

  /** A printed character is read back in one turn. */
  lemma QuotedChar(s: State, c: char, tail: string, logrus: bool)
    requires s.mode == QuotedValue && Printable(c)
    ensures Step(s.(rest := EscapeChar(c) + tail), logrus) == Ok(s.(rest := tail, value := s.value + [c]))
  {
    var e := EscapeChar(c);
    assert (e + tail)[0] == e[0];
    if |e| == 2 {
      assert (e + tail)[1] == e[1] && (e + tail)[2..] == tail;
    } else {
      assert (e + tail)[1..] == tail;
    }
  }

  lemma RunOnce(s: State, t: State, logrus: bool)
    requires s.rest != "" && Step(s, logrus) == Ok(t)
    ensures Run(s, logrus) == Run(t, logrus)
  {
  }

  lemma {:induction false} RunQuoted(s: State, v: string, tail: string, logrus: bool)
    requires s.mode == QuotedValue && IsText(v)
    ensures Run(s.(rest := Escape(v) + tail), logrus) == Run(s.(rest := tail, value := s.value + v), logrus)
    decreases |v|
  {
    if v == "" {
      assert Escape(v) + tail == tail && s.value + v == s.value;
    } else {
      var rest := Escape(v[1..]) + tail;
      var t := s.(value := s.value + [v[0]]);
      assert Escape(v) + tail == EscapeChar(v[0]) + rest;
      assert t.value + v[1..] == s.value + v;
      QuotedChar(s, v[0], rest, logrus);
      RunOnce(s.(rest := EscapeChar(v[0]) + rest), t.(rest := rest), logrus);
      RunQuoted(t, v[1..], tail, logrus);
    }
  }

  lemma OpenQuote(key: string, inner: string, m: Fields, logrus: bool)
    ensures Run(State("=\"" + inner, Key, key, "", m), logrus) == Run(State(inner, QuotedValue, key, "", m), logrus)
  {
    var line := "=\"" + inner;
    assert line[1..] == "\"" + inner && ("\"" + inner)[1..] == inner;
    RunOnce(State(line, Key, key, "", m), State(line[1..], Equal, key, "", m), logrus);
    RunOnce(State(line[1..], Equal, key, "", m), State(inner, QuotedValue, key, "", m), logrus);
  }

  lemma CloseQuote(s: State, rest: string, logrus: bool)
    requires s.mode == QuotedValue && s.rest == "\" " + rest
    ensures Run(s, logrus) == Run(State(rest, Garbage, "", "", s.fields[s.key := Some(s.value)]), logrus)
  {
    assert s.rest[1..] == " " + rest;
    Blank(s.rest[1..], rest, s.fields[s.key := Some(s.value)], logrus);
    RunOnce(s, State(s.rest[1..], Garbage, "", "", s.fields[s.key := Some(s.value)]), logrus);
  }

  lemma Blank(line: string, rest: string, m: Fields, logrus: bool)
    requires line == " " + rest
    ensures Run(State(line, Garbage, "", "", m), logrus) == Run(State(rest, Garbage, "", "", m), logrus)
  {
    assert line[1..] == rest;
  }

  /** After a key: the equals sign, the quoted value, and the blank. */
  lemma RunValue(key: string, v: string, rest: string, m: Fields, logrus: bool)
    requires IsText(v)
    ensures Run(State("=\"" + (Escape(v) + ("\" " + rest)), Key, key, "", m), logrus)
         == Run(State(rest, Garbage, "", "", m[key := Some(v)]), logrus)
  {
    var inner := Escape(v) + ("\" " + rest);
    var s := State(inner, QuotedValue, key, "", m);
    OpenQuote(key, inner, m, logrus);
    RunQuoted(s, v, "\" " + rest, logrus);
    assert "" + v == v;
    CloseQuote(s.(rest := "\" " + rest, value := v), rest, logrus);
  }

  lemma {:induction false} RunIdent(s: State, v: string, logrus: bool)
    requires s.mode == IdentValue && AllIdent(v)
    ensures Run(s.(rest := v + s.rest), logrus) == Run(s.(value := s.value + v), logrus)
    decreases |v|
  {
    if v == "" {
      assert v + s.rest == s.rest && s.value + v == s.value;
    } else {
      assert (v + s.rest)[1..] == v[1..] + s.rest;
      RunIdent(s.(value := s.value + [v[0]]), v[1..], logrus);
      assert s.value + [v[0]] + v[1..] == s.value + v;
    }
  }

  lemma EndBare(s: State, rest: string, logrus: bool)
    requires (s.mode == IdentValue || s.mode == Equal) && s.rest == " " + rest
    ensures Run(s, logrus) == Run(State(rest, Garbage, "", "", s.fields[s.key := Some(s.value)]), logrus)
  {
    assert s.rest[1..] == rest;
    RunOnce(s, State(rest, Garbage, "", "", s.fields[s.key := Some(s.value)]), logrus);
  }

  /** After a key: the equals sign, a value without quotes (or none), and the blank. */
  lemma RunBareValue(key: string, v: string, rest: string, m: Fields, logrus: bool)
    requires AllIdent(v)
    ensures Run(State("=" + (v + (" " + rest)), Key, key, "", m), logrus)
         == Run(State(rest, Garbage, "", "", m[key := Some(v)]), logrus)
  {
    var inner := v + (" " + rest);
    assert ("=" + inner)[1..] == inner;
    var s := State(inner, Equal, key, "", m);
    RunOnce(State("=" + inner, Key, key, "", m), s, logrus);
    if v == "" {
      assert inner == " " + rest;
      EndBare(s, rest, logrus);
    } else {
      var after := State(" " + rest, IdentValue, key, [v[0]], m);
      assert inner[1..] == v[1..] + (" " + rest) && "" + [v[0]] == [v[0]] && [v[0]] + v[1..] == v;
      RunOnce(s, after.(rest := inner[1..]), logrus);
      RunIdent(after, v[1..], logrus);
      EndBare(after.(value := v), rest, logrus);
    }
  }

  lemma RunPair(p: Pair, rest: string, m: Fields, logrus: bool)
    requires WellFormed(p) && (logrus ==> p.value.Some?)
    ensures Run(State(PrintPair(p) + rest, Garbage, "", "", m), logrus) ==
        Run(State(rest, Garbage, "", "", m[p.key := p.value]), logrus)
  {
    var line := PrintPair(p) + rest;
    var tail := match p.value
                case Some(v) => if p.bare then "=" + (v + (" " + rest)) else "=\"" + (Escape(v) + ("\" " + rest))
                case None => " " + rest;
    assert line == p.key + tail;
    assert IsIdent(line[0]);
    var s := State(tail, Key, "", "", m);
    RunKey(s, p.key, logrus);
    assert "" + p.key == p.key;
    if p.value.Some? && p.bare {
      RunBareValue(p.key, p.value.value, rest, m, logrus);
    } else if p.value.Some? {
      RunValue(p.key, p.value.value, rest, m, logrus);
    } else {
      assert (" " + rest)[1..] == rest;
    }
  }

  /** Printing then parsing gives the printed pairs back, in both modes. */
  lemma {:induction false} PrintParse(ps: seq<Pair>, m: Fields, logrus: bool)
    requires forall p :: p in ps ==> WellFormed(p) && (logrus ==> p.value.Some?)
    ensures Run(State(Print(ps), Garbage, "", "", m), logrus) == Ok(Stored(m, ps))
    decreases |ps|
  {
    if ps != [] {
      assert ps[0] in ps && forall p :: p in ps[1..] ==> p in ps;
      RunPair(ps[0], Print(ps[1..]), m, logrus);
      PrintParse(ps[1..], m[ps[0].key := ps[0].value], logrus);
    }
  }

  predicate HasPair(ps: seq<Pair>, key: string, value: Option<string>) {
    exists p :: p in ps && p.key == key && p.value == value
  }

  /** `ps` lists the entries of `m`, each at least once. */
  predicate Lists(ps: seq<Pair>, m: Fields) {
    && (forall p :: p in ps ==> p.key in m && m[p.key] == p.value)
    && (forall k :: k in m ==> HasPair(ps, k, m[k]))
  }

  lemma {:induction false} StoredLists(m: Fields, n: Fields, ps: seq<Pair>)
    requires forall p :: p in ps ==> p.key in n && n[p.key] == p.value
    requires forall k :: k in m ==> k in n && m[k] == n[k]
    requires forall k :: k in n ==> k in m || HasPair(ps, k, n[k])
    ensures Stored(m, ps) == n
    decreases |ps|
  {
    if ps == [] {
      assert m.Keys == n.Keys;
    } else {
      assert ps[0] in ps;
      forall k | k in n ensures k in m[ps[0].key := ps[0].value] || HasPair(ps[1..], k, n[k]) {
        if k !in m && k != ps[0].key {
          var p :| p in ps && p.key == k && p.value == n[k];
          assert p in ps[1..];
        }
      }
      StoredLists(m[ps[0].key := ps[0].value], n, ps[1..]);
    }
  }

  /** Values without quotes hold identifier characters only. */
  predicate QuotedWhereNeeded(ps: seq<Pair>) {
    forall p :: p in ps && p.bare && p.value.Some? ==> AllIdent(p.value.value)
  }

  /** Round trip for maps. */
  lemma MapRoundTrip(m: Fields, ps: seq<Pair>, logrus: bool)
    requires Lists(ps, m) && QuotedWhereNeeded(ps)
    requires forall k :: k in m ==> IsField(k, m[k]) && (logrus ==> m[k].Some?)
    ensures Parse(Print(ps), logrus) == Ok(m)
  {
    PrintParse(ps, map[], logrus);
    StoredLists(map[], m, ps);
  }

  /** What every reachable state satisfies. */
  predicate Inv(s: State) {
    && (forall i :: 0 <= i < |s.key| ==> IsIdent(s.key[i]))
    && IsText(s.value)
    && (s.mode == Key && s.key == "" ==> s.rest != "" && IsIdent(s.rest[0]))
    && (s.mode == Garbage ==> s.key == "")
    && (s.mode != Garbage && s.mode != Key ==> s.key != "")
    && forall k :: k in s.fields ==> IsField(k, s.fields[k])
  }

  lemma StepKeepsInv(s: State, logrus: bool)
    requires s.rest != "" && Inv(s)
    ensures var r := Step(s, logrus); r.Ok? ==> Inv(r.value)
  {
  }

  lemma {:induction false} RunYieldsWellFormed(s: State, logrus: bool)
    requires Inv(s)
    ensures var r := Run(s, logrus); r.Ok? ==> forall k :: k in r.value ==> IsField(k, r.value[k])
    decreases |s.rest|, s.mode == Garbage
  {
    if s.rest != "" {
      StepKeepsInv(s, logrus);
      var r := Step(s, logrus);
      if r.Ok? {
        RunOnce(s, r.value, logrus);
        RunYieldsWellFormed(r.value, logrus);
      }
    }
  }

  /** Logrus mode only rejects more: what it accepts is parsed the same way. */
  lemma {:induction false} LogrusOnlyRestricts(s: State)
    requires Run(s, true).Ok?
    ensures Run(s, false) == Run(s, true)
    decreases |s.rest|, s.mode == Garbage
  {
    if s.rest != "" {
      assert Step(s, true) == Step(s, false);
      LogrusOnlyRestricts(Step(s, true).value);
    }
  }

  /** The state when the line has been read. */
  function Last(s: State, logrus: bool): Result<State, Error>
    decreases |s.rest|, s.mode == Garbage
  {
    if s.rest == "" then Ok(s)
    else match Step(s, logrus)
      case Err(e) => Err(e)
      case Ok(t) => Last(t, logrus)
  }

  /** A turn does not look at a blank at the end. */
  lemma StepBeforeBlank(s: State, logrus: bool)
    requires s.rest != ""
    ensures var r, b := Step(s, logrus), Step(s.(rest := s.rest + " "), logrus);
            if r.Ok? then b == Ok(r.value.(rest := r.value.rest + " ")) else b.Err?
  {
    var line := s.rest + " ";
    assert line[0] == s.rest[0] && line[1..] == s.rest[1..] + " ";
    if s.mode == QuotedValue && line[0] == '\\' { EscapeBeforeBlank(s, logrus); }
  }

  lemma EscapeBeforeBlank(s: State, logrus: bool)
    requires s.mode == QuotedValue && s.rest != "" && s.rest[0] == '\\'
    ensures var r, b := Step(s, logrus), Step(s.(rest := s.rest + " "), logrus);
            if r.Ok? then b == Ok(r.value.(rest := r.value.rest + " ")) else b.Err?
  {
    var line := s.rest + " ";
    if |s.rest| > 1 {
      assert line[1] == s.rest[1] && line[2..] == s.rest[2..] + " ";
    } else {
      assert line[1] == ' ' && Unescape(' ') == None;
    }
  }

  /** What a blank at the end adds to a run that ended in `l`. */
  predicate BlankAdds(l: Result<State, Error>, r: Result<Fields, Error>, b: Result<Fields, Error>) {
    && (r.Ok? <==> b.Ok?)
    && (r.Ok? ==> l.Ok? && (b == r <==> !l.value.mode.Equal?))
    && (r.Ok? && l.value.mode.Equal? ==>
          r.value == l.value.fields[l.value.key := None] && b.value == l.value.fields[l.value.key := Some("")])
  }

  lemma OnlyBlank(s: State, logrus: bool)
    requires s.rest == "" && (s.mode == Equal ==> s.value == "")
    ensures BlankAdds(Ok(s), Finish(s, logrus), Run(s.(rest := " "), logrus))
  {
    var b := s.(rest := " ");
    assert b.rest[1..] == "";
    if s.mode == Equal {
      RunOnce(b, Take(Store(b, Some("")), Garbage), logrus);
      assert s.fields[s.key := Some("")][s.key] != s.fields[s.key := None][s.key];
    }
  }

  lemma {:induction false} RunBeforeBlank(s: State, logrus: bool)
    requires s.mode == Equal || s.mode == Garbage || s.mode == Key ==> s.value == ""
    ensures BlankAdds(Last(s, logrus), Run(s, logrus), Run(s.(rest := s.rest + " "), logrus))
    decreases |s.rest|, s.mode == Garbage
  {
    var blank := s.(rest := s.rest + " ");
    if s.rest == "" {
      assert s.rest + " " == " ";
      OnlyBlank(s, logrus);
    } else {
      StepBeforeBlank(s, logrus);
      var r := Step(s, logrus);
      if r.Ok? {
        ValueStartsEmpty(s, logrus);
        RunOnce(blank, r.value.(rest := r.value.rest + " "), logrus);
        RunBeforeBlank(r.value, logrus);
      }
    }
  }

  lemma ValueStartsEmpty(s: State, logrus: bool)
    requires s.rest != "" && (s.mode == Equal || s.mode == Garbage || s.mode == Key ==> s.value == "")
    ensures var r := Step(s, logrus);
            r.Ok? && (r.value.mode == Equal || r.value.mode == Garbage || r.value.mode == Key) ==> r.value.value == ""
  {
  }

  /** A blank at the end of a line makes a difference exactly when the line ends
      right after a key's equals sign: then the key has no value without the blank
      and the empty value with it. */
  lemma BlankAtEnd(line: string, logrus: bool)
    ensures BlankAdds(Last(Start(line), logrus), Parse(line, logrus), Parse(line + " ", logrus))
  {
    RunBeforeBlank(Start(line), logrus);
  }

  // ----- printing what was parsed

  /** In logrus mode every key has a value, except that one at the very end of the
      line, right after its equals sign, has none. */
  lemma {:induction false} LogrusValues(s: State)
    requires Run(s, true).Ok? && forall k :: k in s.fields ==> s.fields[k].Some?
    ensures Last(s, true).Ok?
    ensures var l, r := Last(s, true).value, Run(s, true).value;
            if l.mode.Equal? then l.key in r && r[l.key] == None else forall k :: k in r ==> r[k].Some?
    decreases |s.rest|, s.mode == Garbage
  {
    if s.rest != "" {
      var t := Step(s, true).value;
      LogrusStep(s);
      RunOnce(s, t, true);
      LogrusValues(t);
    }
  }

  lemma LogrusStep(s: State)
    requires s.rest != "" && Step(s, true).Ok? && forall k :: k in s.fields ==> s.fields[k].Some?
    ensures var t := Step(s, true).value; forall k :: k in t.fields ==> t.fields[k].Some?
  {
  }

  /** A printed key without a value is not accepted in logrus mode. */
  lemma {:induction false} PrintedBareKeyFails(ps: seq<Pair>, m: Fields)
    requires forall p :: p in ps ==> WellFormed(p)
    requires exists p :: p in ps && p.value == None
    ensures Run(State(Print(ps), Garbage, "", "", m), true).Err?
    decreases |ps|
  {
    assert ps[0] in ps && forall p :: p in ps <==> p == ps[0] || p in ps[1..];
    if ps[0].value.Some? {
      RunPair(ps[0], Print(ps[1..]), m, true);
      PrintedBareKeyFails(ps[1..], m[ps[0].key := ps[0].value]);
    } else {
      BareKeyFails(ps[0].key, Print(ps[1..]), m);
    }
  }

  lemma BareKeyFails(key: string, rest: string, m: Fields)
    requires IsKey(key)
    ensures Run(State(key + " " + rest, Garbage, "", "", m), true).Err?
  {
    var line := key + (" " + rest);
    assert key + " " + rest == line;
    RunOnce(State(line, Garbage, "", "", m), State(line, Key, "", "", m), true);
    RunKey(State(" " + rest, Key, "", "", m), key, true);
  }

  /** The other round trip: whatever line was parsed, in either mode, printing the
      result and parsing it again gives the same result; except, in logrus mode,
      for a line that ends right after a key's equals sign. */
  lemma ParsePrintParse(line: string, ps: seq<Pair>, logrus: bool)
    requires Parse(line, logrus).Ok? && Lists(ps, Parse(line, logrus).value) && QuotedWhereNeeded(ps)
    ensures Parse(Print(ps), false) == Parse(line, logrus)
    ensures Last(Start(line), logrus).Ok?
    ensures Parse(Print(ps), logrus) == Parse(line, logrus) <==>
            !(logrus && Last(Start(line), logrus).value.mode.Equal?)
  {
    var m := Parse(line, logrus).value;
    RunYieldsWellFormed(Start(line), logrus);
    MapRoundTrip(m, ps, false);
    LastOfRun(Start(line), logrus);
    if logrus {
      LogrusValues(Start(line));
      var l := Last(Start(line), true).value;
      if l.mode.Equal? {
        ListedBareKey(m, ps, l.key);
        PrintedBareKeyFails(ps, map[]);
      } else {
        MapRoundTrip(m, ps, true);
      }
    }
  }

  lemma ListedBareKey(m: Fields, ps: seq<Pair>, key: string)
    requires Lists(ps, m) && QuotedWhereNeeded(ps) && key in m && m[key] == None
    requires forall k :: k in m ==> IsField(k, m[k])
    ensures forall p :: p in ps ==> WellFormed(p)
    ensures exists p :: p in ps && p.value == None
  {
    assert HasPair(ps, key, None);
  }

  lemma {:induction false} LastOfRun(s: State, logrus: bool)
    requires Run(s, logrus).Ok?
    ensures Last(s, logrus).Ok?
    decreases |s.rest|, s.mode == Garbage
  {
    if s.rest != "" {
      RunOnce(s, Step(s, logrus).value, logrus);
      LastOfRun(Step(s, logrus).value, logrus);
    }
  }

  // ----- what is accepted, character by character

  /** A bare character: above a blank, and neither a quote nor an equals sign. */
  predicate Bare(c: char) {
    c > ' ' && c != '"' && c != '='
  }

  predicate AllBare(v: string) {
    forall i :: 0 <= i < |v| ==> Bare(v[i])
  }

  /** From the beginning of a key to the character after it. */
  lemma ReadsKey(key: string, tail: string, m: Fields, logrus: bool)
    requires key != "" && AllBare(key)
    ensures Run(State(key + tail, Garbage, "", "", m), logrus) == Run(State(tail, Key, key, "", m), logrus)
  {
    var line := key + tail;
    assert line[0] == key[0];
    RunOnce(State(line, Garbage, "", "", m), State(line, Key, "", "", m), logrus);
    RunKey(State(tail, Key, "", "", m), key, logrus);
    assert "" + key == key;
  }

  /** From there through an equals sign and a value to the character after it. */
  lemma ReadsBareValue(key: string, v: string, tail: string, m: Fields, logrus: bool)
    requires v != "" && AllBare(v)
    ensures Run(State("=" + (v + tail), Key, key, "", m), logrus) == Run(State(tail, IdentValue, key, v, m), logrus)
  {
    var inner := v + tail;
    assert ("=" + inner)[1..] == inner && inner[1..] == v[1..] + tail;
    RunOnce(State("=" + inner, Key, key, "", m), State(inner, Equal, key, "", m), logrus);
    assert "" + [v[0]] == [v[0]] && [v[0]] + v[1..] == v;
    RunOnce(State(inner, Equal, key, "", m), State(inner[1..], IdentValue, key, [v[0]], m), logrus);
    RunIdent(State(tail, IdentValue, key, [v[0]], m), v[1..], logrus);
  }

  /** A value of bare characters is read whole: up to the end of the line, or up to
      the first character that is not bare. */
  lemma BareValueIsRead(key: string, v: string, end: char, logrus: bool)
    requires key != "" && v != "" && AllBare(key) && AllBare(v) && !Bare(end)
    ensures Parse(key + ("=" + (v + "")), logrus) == Ok(map[key := Some(v)])
    ensures Parse(key + ("=" + (v + [end])), logrus) == Ok(map[key := Some(v)])
  {
    ReadsKey(key, "=" + (v + ""), map[], logrus);
    ReadsBareValue(key, v, "", map[], logrus);
    ReadsKey(key, "=" + (v + [end]), map[], logrus);
    ReadsBareValue(key, v, [end], map[], logrus);
    EndsBareValue(key, v, end, logrus);
  }

  lemma EndsBareValue(key: string, v: string, end: char, logrus: bool)
    requires !Bare(end)
    ensures Run(State([end], IdentValue, key, v, map[]), logrus) == Ok(map[key := Some(v)])
    ensures Run(State("", IdentValue, key, v, map[]), logrus) == Ok(map[key := Some(v)])
  {
    assert [end][1..] == "";
    var stored := State("", Garbage, "", "", map[key := Some(v)]);
    RunOnce(State([end], IdentValue, key, v, map[]), stored, logrus);
  }

  /** The escapes, with the characters they stand for. */
  predicate StandsFor(e: char, c: char) {
    || (e == c && (e == '"' || e == '\\' || e == '\'' || e == '/'))
    || (e == 'b' && c == '\U{08}') || (e == 'f' && c == '\U{0C}')
    || (e == 'n' && c == '\n') || (e == 'r' && c == '\r') || (e == 't' && c == '\t')
  }

  /** In a quoted value a backslash and a character are read as the character the
      escape stands for, exactly. */
  lemma EscapeIsRead(s: State, e: char, c: char, tail: string, logrus: bool)
    requires s.mode == QuotedValue
    ensures Step(s.(rest := ['\\', e] + tail), logrus) == Ok(s.(rest := tail, value := s.value + [c])) <==>
            StandsFor(e, c)
  {
    var line := ['\\', e] + tail;
    assert line[0] == '\\' && line[1] == e && line[2..] == tail;
    assert (s.value + [c])[|s.value|] == c;
    forall d ensures (s.value + [d])[|s.value|] == d { }
  }

  /** A way to write one character inside quotes. */
  datatype Spelling = Plain(c: char) | Escaped(e: char, c: char)

  predicate Legible(p: Spelling) {
    match p
    case Plain(c) => c >= ' ' && c != '"' && c != '\\'
    case Escaped(e, c) => StandsFor(e, c)
  }

  function Spelled(p: Spelling): string {
    match p case Plain(c) => [c] case Escaped(e, _) => ['\\', e]
  }

  function SpelledAll(ps: seq<Spelling>): string {
    if ps == [] then "" else Spelled(ps[0]) + SpelledAll(ps[1..])
  }

  function Meant(ps: seq<Spelling>): string {
    if ps == [] then "" else [ps[0].c] + Meant(ps[1..])
  }

  lemma SpellingIsRead(s: State, p: Spelling, tail: string, logrus: bool)
    requires s.mode == QuotedValue && Legible(p)
    ensures Run(s.(rest := Spelled(p) + tail), logrus) == Run(s.(rest := tail, value := s.value + [p.c]), logrus)
  {
    match p
    case Plain(c) =>
      assert ([c] + tail)[1..] == tail;
      RunOnce(s.(rest := [c] + tail), s.(rest := tail, value := s.value + [c]), logrus);
    case Escaped(e, c) =>
      EscapeIsRead(s, e, c, tail, logrus);
      RunOnce(s.(rest := ['\\', e] + tail), s.(rest := tail, value := s.value + [c]), logrus);
  }

  lemma {:induction false} SpellingsAreRead(s: State, ps: seq<Spelling>, tail: string, logrus: bool)
    requires s.mode == QuotedValue && forall p :: p in ps ==> Legible(p)
    ensures Run(s.(rest := SpelledAll(ps) + tail), logrus) ==
            Run(s.(rest := tail, value := s.value + Meant(ps)), logrus)
    decreases |ps|
  {
    if ps == [] {
      assert SpelledAll(ps) + tail == tail && s.value + Meant(ps) == s.value;
    } else {
      var rest := SpelledAll(ps[1..]) + tail;
      Reassociate(Spelled(ps[0]), SpelledAll(ps[1..]), tail);
      Reassociate(s.value, [ps[0].c], Meant(ps[1..]));
      assert Legible(ps[0]) && forall p :: p in ps[1..] ==> p in ps;
      SpellingIsRead(s, ps[0], rest, logrus);
      SpellingsAreRead(s.(value := s.value + [ps[0].c]), ps[1..], tail, logrus);
    }
  }

  /** From the beginning of a line into its quoted value. */
  lemma ReadsQuoted(key: string, ps: seq<Spelling>, tail: string, logrus: bool)
    requires key != "" && AllBare(key) && forall p :: p in ps ==> Legible(p)
    ensures Parse(key + ("=\"" + (SpelledAll(ps) + tail)), logrus) ==
            Run(State(tail, QuotedValue, key, Meant(ps), map[]), logrus)
  {
    var inner := SpelledAll(ps) + tail;
    ReadsKey(key, "=\"" + inner, map[], logrus);
    OpenQuote(key, inner, map[], logrus);
    SpellingsAreRead(State(inner, QuotedValue, key, "", map[]), ps, tail, logrus);
    assert "" + Meant(ps) == Meant(ps);
  }

  /** A quoted value is read as what it means, however its characters are written:
      plainly or by any of the escapes. */
  lemma QuotedValueIsRead(key: string, ps: seq<Spelling>, logrus: bool)
    requires key != "" && AllBare(key) && forall p :: p in ps ==> Legible(p)
    ensures Parse(key + ("=\"" + (SpelledAll(ps) + "\"")), logrus) == Ok(map[key := Some(Meant(ps))])
  {
    ReadsQuoted(key, ps, "\"", logrus);
    assert "\""[1..] == "";
    var stored := State("", Garbage, "", "", map[key := Some(Meant(ps))]);
    RunOnce(State("\"", QuotedValue, key, Meant(ps), map[]), stored, logrus);
  }

  /** How a quoted value can break off. */
  function Breaks(rest: string): Option<Error> {
    if rest == "" then Some(UnterminatedQuote)
    else if rest[0] < ' ' then Some(ControlCharacter)
    else if rest[0] != '\\' then None
    else if |rest| == 1 then Some(UnterminatedEscape)
    else if rest[1] == 'u' then Some(if |rest| < 6 then UnicodeTooShort else UnicodeDigit)
    else if rest[1] in ['"', '\\', '\'', '/', 'b', 'f', 'n', 'r', 't'] then None
    else Some(UnknownEscape(rest[1]))
  }

  lemma BreaksOff(s: State, logrus: bool)
    requires s.mode == QuotedValue && Breaks(s.rest).Some?
    ensures Run(s, logrus) == Err(Breaks(s.rest).value)
  {
  }

  /** And then the line is rejected with that error, whatever was read before. */
  lemma BrokenQuoteFails(key: string, ps: seq<Spelling>, rest: string, logrus: bool)
    requires key != "" && AllBare(key) && (forall p :: p in ps ==> Legible(p)) && Breaks(rest).Some?
    ensures Parse(key + ("=\"" + (SpelledAll(ps) + rest)), logrus) == Err(Breaks(rest).value)
  {
    ReadsQuoted(key, ps, rest, logrus);
    BreaksOff(State(rest, QuotedValue, key, Meant(ps), map[]), logrus);
  }
}
