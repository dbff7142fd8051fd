/**
 * What happens to the values of a custom resource on their way to Ansible:
 * map keys are converted, and strings are marked unsafe.
 */
module Parameters {
  import opened Common
  import opened SnakeCase
  import opened NumberBoundaries
  import opened WordMapping

  datatype JSON = Null | Bool(b: bool) | Number(n: int) | Str(s: string)
                | Array(items: seq<JSON>) | Object(fields: map<string, JSON>)

  const UNSAFE := "__ansible_unsafe"

  // ----- marking strings unsafe

  /** Every string, at any depth, is wrapped in a map with the marker key. */
  function MarkUnsafe(v: JSON): JSON {
    match v
    case Array(items) => Array(seq(|items|, i requires 0 <= i < |items| => MarkUnsafe(items[i])))
    case Object(fields) => Object(map k | k in fields :: MarkUnsafe(fields[k]))
    case Str(s) => Object(map[UNSAFE := v])
    case _ => v
  }

  predicate IsMark(v: JSON) {
    v.Object? && v.fields.Keys == {UNSAFE} && v.fields[UNSAFE].Str?
  }

  function Unmark(v: JSON): JSON {
    if IsMark(v) then v.fields[UNSAFE]
    else match v
      case Array(items) => Array(seq(|items|, i requires 0 <= i < |items| => Unmark(items[i])))
      case Object(fields) => Object(map k | k in fields :: Unmark(fields[k]))
      case _ => v
  }

  /** Every string is the value of a marker. */
  predicate WellMarked(v: JSON) {
    IsMark(v) ||
    match v
    case Array(items) => forall i :: 0 <= i < |items| ==> WellMarked(items[i])
    case Object(fields) => forall k :: k in fields ==> WellMarked(fields[k])
    case Str(_) => false
    case _ => true
  }

  /** The loops over lists and maps. */
  method MarkUnsafeValues(v: JSON) returns (r: JSON)
    ensures r == MarkUnsafe(v)
    decreases v
  {
    match v {
      case Array(items) =>
        var p: seq<JSON> := [];
        for i := 0 to |items|
          invariant |p| == i && forall j :: 0 <= j < i ==> p[j] == MarkUnsafe(items[j])
        {
          var n := MarkUnsafeValues(items[i]);
          p := p + [n];
        }
        r := Array(p);
      case Object(fields) =>
        var m: map<string, JSON> := map[];
        var todo := fields.Keys;
        while todo != {}
          invariant todo <= fields.Keys && m.Keys == fields.Keys - todo
          invariant forall k :: k in m ==> m[k] == MarkUnsafe(fields[k])
        {
          var k :| k in todo;
          var n := MarkUnsafeValues(fields[k]);
          m := m[k := n];
          todo := todo - {k};
        }
        assert m == map k | k in fields :: MarkUnsafe(fields[k]);
        r := Object(m);
      case Str(s) => r := Object(map[UNSAFE := v]);
      case _ => r := v;
    }
  }

  predicate Undone(v: JSON) {
    !MarkUnsafe(v).Str? && WellMarked(MarkUnsafe(v)) && Unmark(MarkUnsafe(v)) == v
  }

  lemma UndoneArray(items: seq<JSON>)
    requires forall i :: 0 <= i < |items| ==> Undone(items[i])
    ensures Undone(Array(items))
  {
  }

  lemma UndoneObject(fields: map<string, JSON>)
    requires forall k :: k in fields ==> Undone(fields[k])
    ensures Undone(Object(fields))
  {
    var m := map k | k in fields :: MarkUnsafe(fields[k]);
    assert MarkUnsafe(Object(fields)) == Object(m);
    assert UNSAFE in m ==> Undone(fields[UNSAFE]);
    assert !IsMark(Object(m));
    forall k | k in m ensures WellMarked(m[k]) && Unmark(m[k]) == fields[k] { assert Undone(fields[k]); }
    FieldsRestored(m, fields);
  }

  lemma FieldsRestored(m: map<string, JSON>, fields: map<string, JSON>)
    requires m.Keys == fields.Keys && !IsMark(Object(m)) && forall k :: k in m ==> Unmark(m[k]) == fields[k]
    ensures Unmark(Object(m)) == Object(fields)
  {
    assert Unmark(Object(m)).fields == fields;
  }

  /** Marking can be undone, whatever the value: even one that already holds the
      marker key. So no two values are marked alike. */
  lemma {:induction false} UnmarkMark(v: JSON)
    ensures !MarkUnsafe(v).Str? && WellMarked(MarkUnsafe(v)) && Unmark(MarkUnsafe(v)) == v
    decreases v
  {
    match v
    case Array(items) =>
      forall i | 0 <= i < |items| ensures Undone(items[i]) { UnmarkMark(items[i]); }
      UndoneArray(items);
    case Object(fields) =>
      forall k | k in fields ensures Undone(fields[k]) { UnmarkMark(fields[k]); }
      UndoneObject(fields);
    case _ =>
  }

  /** The marked values are exactly those in which every string stands under a marker. */
  lemma {:induction false} MarkUnmark(r: JSON)
    ensures WellMarked(r) <==> MarkUnsafe(Unmark(r)) == r
    decreases r
  {
    if WellMarked(r) && !IsMark(r) {
      match r
      case Array(items) =>
        forall i | 0 <= i < |items| ensures MarkUnsafe(Unmark(items[i])) == items[i] { MarkUnmark(items[i]); }
      case Object(fields) =>
        forall k | k in fields ensures MarkUnsafe(Unmark(fields[k])) == fields[k] { MarkUnmark(fields[k]); }
      case _ =>
    }
    UnmarkMark(Unmark(r));
  }

  lemma MarkInjective(v: JSON, w: JSON)
    requires MarkUnsafe(v) == MarkUnsafe(w)
    ensures v == w
  {
    UnmarkMark(v);
    UnmarkMark(w);
  }

  // ----- converting keys

  /** `r` is a possible conversion of `v`: when two keys of a map are converted to
      the same key, either value may be kept, by the order the map is walked in. */
  ghost predicate Converts(fn: string -> string, v: JSON, r: JSON)
    decreases v
  {
    match v
    case Array(items) =>
      r.Array? && |r.items| == |items| && forall i :: 0 <= i < |items| ==> Converts(fn, items[i], r.items[i])
    case Object(fields) =>
      && r.Object?
      && (forall k :: k in fields ==> fn(k) in r.fields)
      && (forall q :: q in r.fields ==> exists k :: k in fields && fn(k) == q && Converts(fn, fields[k], r.fields[q]))
    case _ => r == v
  }

  method ConvertParameter(fn: string -> string, v: JSON) returns (r: JSON)
    ensures Converts(fn, v, r)
    decreases v
  {
    match v {
      case Array(items) =>
        var res: seq<JSON> := [];
        for i := 0 to |items|
          invariant |res| == i && forall j :: 0 <= j < i ==> Converts(fn, items[j], res[j])
        {
          var n := ConvertParameter(fn, items[i]);
          res := res + [n];
        }
        r := Array(res);
      case Object(fields) =>
        var ret: map<string, JSON> := map[];
        var todo := fields.Keys;
        while todo != {}
          invariant todo <= fields.Keys
          invariant forall k :: k in fields && k !in todo ==> fn(k) in ret
          invariant forall q :: q in ret ==> exists k :: k in fields && fn(k) == q && Converts(fn, fields[k], ret[q])
        {
          var k :| k in todo;
          var n := ConvertParameter(fn, fields[k]);
          ret := ret[fn(k) := n];
          todo := todo - {k};
        }
        r := Object(ret);
      case _ => r := v;
    }
  }

  /** No map, at any depth, has two keys that are converted alike. */
  ghost predicate Distinct(fn: string -> string, v: JSON)
    decreases v
  {
    match v
    case Array(items) => forall i :: 0 <= i < |items| ==> Distinct(fn, items[i])
    case Object(fields) =>
      && (forall k, l :: k in fields && l in fields && fn(k) == fn(l) ==> k == l)
      && (forall k :: k in fields ==> Distinct(fn, fields[k]))
    case _ => true
  }

  /** Then the conversion is determined. */
  lemma {:induction false} ConversionUnique(fn: string -> string, v: JSON, r: JSON, s: JSON)
    requires Distinct(fn, v) && Converts(fn, v, r) && Converts(fn, v, s)
    ensures r == s
    decreases v
  {
    match v
    case Array(items) =>
      forall i | 0 <= i < |items| ensures r.items[i] == s.items[i] {
        ConversionUnique(fn, items[i], r.items[i], s.items[i]);
      }
    case Object(fields) =>
      forall q | q in r.fields ensures q in s.fields && r.fields[q] == s.fields[q] {
        var k :| k in fields && fn(k) == q && Converts(fn, fields[k], r.fields[q]);
        var l :| l in fields && fn(l) == q && Converts(fn, fields[l], s.fields[q]);
        ConversionUnique(fn, fields[k], r.fields[q], s.fields[q]);
      }
      forall q | q in s.fields ensures q in r.fields {
        var l :| l in fields && fn(l) == q && Converts(fn, fields[l], s.fields[q]);
      }
    case _ =>
  }

  // ----- where everything is found after the conversion

  /** A step into a value: a key of a map or a place in a list. */
  datatype Place = Key(k: string) | Index(i: nat)

  /** What is found along a path, if anything. */
  function Find(v: JSON, path: seq<Place>): Option<JSON>
    decreases |path|
  {
    if path == [] then Some(v)
    else match (v, path[0])
      case (Array(items), Index(i)) => if i < |items| then Find(items[i], path[1..]) else None
      case (Object(fields), Key(k)) => if k in fields then Find(fields[k], path[1..]) else None
      case _ => None
  }

  function ConvertedPath(fn: string -> string, path: seq<Place>): (r: seq<Place>)
    ensures |r| == |path|
  {
    if path == [] then []
    else [match path[0] case Key(k) => Key(fn(k)) case Index(i) => Index(i)] + ConvertedPath(fn, path[1..])
  }

  /** A list of the same length, a map, or the same simple value. */
  predicate SameKind(x: JSON, y: JSON) {
    match x
    case Array(items) => y.Array? && |y.items| == |items|
    case Object(_) => y.Object?
    case _ => y == x
  }

  /** The field a converted key is found under is the conversion of a field. */
  lemma FieldKept(fn: string -> string, fields: map<string, JSON>, r: JSON, k: string)
    requires Distinct(fn, Object(fields)) && Converts(fn, Object(fields), r) && k in fields
    ensures r.Object? && fn(k) in r.fields && Converts(fn, fields[k], r.fields[fn(k)])
  {
    var l :| l in fields && fn(l) == fn(k) && Converts(fn, fields[l], r.fields[fn(k)]);
    assert l == k;
  }

  /** Everything is found again: what a path leads to in the value, the path with
      its keys converted leads to in the conversion, at any depth. */
  lemma {:induction false} FoundAgain(fn: string -> string, v: JSON, r: JSON, path: seq<Place>)
    requires Distinct(fn, v) && Converts(fn, v, r) && Find(v, path).Some?
    ensures Find(r, ConvertedPath(fn, path)).Some?
    ensures SameKind(Find(v, path).value, Find(r, ConvertedPath(fn, path)).value)
    decreases |path|
  {
    if path != [] {
      var rest := ConvertedPath(fn, path[1..]);
      assert ConvertedPath(fn, path)[1..] == rest;
      match (v, path[0])
      case (Array(items), Index(i)) => FoundAgain(fn, items[i], r.items[i], path[1..]);
      case (Object(fields), Key(k)) =>
        FieldKept(fn, fields, r, k);
        FoundAgain(fn, fields[k], r.fields[fn(k)], path[1..]);
    }
  }

  /** And nothing else: what is found in a conversion, under any path, was found in
      the value under a path that is converted to it, even when keys coincide. */
  lemma {:induction false} FoundBefore(fn: string -> string, v: JSON, r: JSON, path: seq<Place>)
    returns (origin: seq<Place>)
    requires Converts(fn, v, r) && Find(r, path).Some?
    ensures ConvertedPath(fn, origin) == path && Find(v, origin).Some?
    ensures SameKind(Find(v, origin).value, Find(r, path).value)
    decreases |path|
  {
    if path == [] { return []; }
    match (r, path[0]) {
      case (Array(items), Index(i)) =>
        var rest := FoundBefore(fn, v.items[i], items[i], path[1..]);
        origin := [Index(i)] + rest;
        assert origin[1..] == rest;
      case (Object(fields), Key(q)) =>
        var k :| k in v.fields && fn(k) == q && Converts(fn, v.fields[k], fields[q]);
        var rest := FoundBefore(fn, v.fields[k], fields[q], path[1..]);
        origin := [Key(k)] + rest;
        assert origin[1..] == rest;
    }
  }

  // ----- marking and converting

  /** Converting then marking is one of the ways to mark and then convert. */
  lemma {:induction false} ConvertThenMark(fn: string -> string, v: JSON, r: JSON)
    requires fn(UNSAFE) == UNSAFE && Converts(fn, v, r)
    ensures Converts(fn, MarkUnsafe(v), MarkUnsafe(r))
    decreases v
  {
    match v
    case Array(items) =>
      forall i | 0 <= i < |items| ensures Converts(fn, MarkUnsafe(items[i]), MarkUnsafe(r.items[i])) {
        ConvertThenMark(fn, items[i], r.items[i]);
      }
    case Object(fields) =>
      var m, n := MarkUnsafe(v).fields, MarkUnsafe(r).fields;
      forall q | q in n ensures exists k :: k in m && fn(k) == q && Converts(fn, m[k], n[q]) {
        var k :| k in fields && fn(k) == q && Converts(fn, fields[k], r.fields[q]);
        ConvertThenMark(fn, fields[k], r.fields[q]);
        assert k in m && Converts(fn, m[k], n[q]);
      }
    case Str(s) =>
      var m := map[UNSAFE := v];
      assert UNSAFE in m && Converts(fn, m[UNSAFE], v);
    case _ =>
  }

  predicate HasUnmarkedFields(r: JSON) {
    r.Object? && forall q :: q in r.fields ==> !r.fields[q].Str? && MarkUnsafe(Unmark(r.fields[q])) == r.fields[q]
  }

  lemma NoMarkAbove(r: JSON)
    requires HasUnmarkedFields(r)
    ensures !IsMark(r)
  {
    if UNSAFE in r.fields { assert !r.fields[UNSAFE].Str?; }
  }

  lemma UnmarkFields(r: JSON)
    requires r.Object? && !IsMark(r)
    ensures var u := Unmark(r);
            && u.Object? && u.fields.Keys == r.fields.Keys
            && forall q :: q in u.fields ==> u.fields[q] == Unmark(r.fields[q])
  {
  }

  lemma FieldsUnmarked(r: JSON)
    requires HasUnmarkedFields(r)
    ensures var u := Unmark(r);
            && u.Object? && u.fields.Keys == r.fields.Keys
            && forall q :: q in u.fields ==> u.fields[q] == Unmark(r.fields[q])
    ensures MarkUnsafe(Unmark(r)) == r
  {
    NoMarkAbove(r);
    UnmarkFields(r);
    var u := Unmark(r).fields;
    forall q | q in u ensures MarkUnsafe(u[q]) == r.fields[q] { assert q in r.fields; }
    FieldsRemarked(r, u);
  }

  lemma FieldsRemarked(r: JSON, u: map<string, JSON>)
    requires r.Object? && u.Keys == r.fields.Keys
    requires forall q :: q in u ==> MarkUnsafe(u[q]) == r.fields[q]
    ensures MarkUnsafe(Object(u)) == r
  {
    assert MarkUnsafe(Object(u)).fields == r.fields;
  }

  /** And every way to mark and then convert is of that kind. */
  lemma {:induction false} MarkThenConvert(fn: string -> string, v: JSON, r: JSON)
    requires fn(UNSAFE) == UNSAFE && Converts(fn, MarkUnsafe(v), r)
    ensures !r.Str? && MarkUnsafe(Unmark(r)) == r && Converts(fn, v, Unmark(r))
    decreases v, 1
  {
    if v.Array? {
      MarkThenConvertItems(fn, v, r);
    } else if v.Object? {
      MarkThenConvertFields(fn, v, r);
    } else if v.Str? {
      MarkedStringConverts(fn, v, r);
    } else {
      assert r == v;
    }
  }

  lemma {:induction false} MarkThenConvertItems(fn: string -> string, v: JSON, r: JSON)
    requires fn(UNSAFE) == UNSAFE && v.Array? && Converts(fn, MarkUnsafe(v), r)
    ensures !r.Str? && MarkUnsafe(Unmark(r)) == r && Converts(fn, v, Unmark(r))
    decreases v, 0
  {
    forall i | 0 <= i < |v.items|
      ensures MarkUnsafe(Unmark(r.items[i])) == r.items[i] && Converts(fn, v.items[i], Unmark(r.items[i])) {
      MarkThenConvert(fn, v.items[i], r.items[i]);
    }
  }

  lemma {:induction false} MarkThenConvertFields(fn: string -> string, v: JSON, r: JSON)
    requires fn(UNSAFE) == UNSAFE && v.Object? && Converts(fn, MarkUnsafe(v), r)
    ensures !r.Str? && MarkUnsafe(Unmark(r)) == r && Converts(fn, v, Unmark(r))
    decreases v, 0
  {
    var m := MarkUnsafe(v).fields;
    forall q | q in r.fields
      ensures !r.fields[q].Str? && MarkUnsafe(Unmark(r.fields[q])) == r.fields[q]
      ensures exists k :: k in v.fields && fn(k) == q && Converts(fn, v.fields[k], Unmark(r.fields[q])) {
      var k :| k in m && fn(k) == q && Converts(fn, m[k], r.fields[q]);
      MarkThenConvert(fn, v.fields[k], r.fields[q]);
      assert k in v.fields && Converts(fn, v.fields[k], Unmark(r.fields[q]));
    }
    FieldsUnmarked(r);
    assert forall k :: k in v.fields ==> k in m && fn(k) in r.fields;
  }

  lemma MarkedStringConverts(fn: string -> string, v: JSON, r: JSON)
    requires v.Str? && fn(UNSAFE) == UNSAFE && Converts(fn, MarkUnsafe(v), r)
    ensures !r.Str? && MarkUnsafe(Unmark(r)) == r && Converts(fn, v, Unmark(r))
  {
    var m := MarkUnsafe(v).fields;
    assert UNSAFE in m && fn(UNSAFE) in r.fields;
    forall q | q in r.fields ensures q == UNSAFE && r.fields[q] == v {
      var k :| k in m && fn(k) == q && Converts(fn, m[k], r.fields[q]);
    }
    assert r.fields == map[UNSAFE := v];
    assert IsMark(r) && Unmark(r) == v;
  }

  /** Marking and converting keys commute, on all values and for every order in
      which the maps are walked. */
  lemma MarkingCommutes(fn: string -> string, v: JSON, r: JSON)
    requires fn(UNSAFE) == UNSAFE
    ensures Converts(fn, v, r) <==> Converts(fn, MarkUnsafe(v), MarkUnsafe(r))
  {
    if Converts(fn, v, r) { ConvertThenMark(fn, v, r); }
    if Converts(fn, MarkUnsafe(v), MarkUnsafe(r)) {
      MarkThenConvert(fn, v, MarkUnsafe(r));
      UnmarkMark(r);
    }
  }

  /** Snake-casing one key. (A key of spaces only stops the source; it is kept here.) */
  function SnakeKey(order: seq<string>): string -> string {
    k => if Trim(k) != "" then ToSnake(k, order) else k
  }

  /** The marker is a snake-case name, so marking commutes with snake-casing. */
  lemma SnakeKeepsMarker(order: seq<string>)
    requires IsOrder(order)
    ensures SnakeKey(order)(UNSAFE) == UNSAFE
  {
    assert IsSnake(UNSAFE);
    NoDigitsNotNumbered(UNSAFE);
    SnakeNameFixed(UNSAFE, order);
  }

  lemma MarkingCommutesWithSnake(order: seq<string>, v: JSON, r: JSON)
    requires IsOrder(order)
    ensures Converts(SnakeKey(order), v, r) <==> Converts(SnakeKey(order), MarkUnsafe(v), MarkUnsafe(r))
  {
    SnakeKeepsMarker(order);
    MarkingCommutes(SnakeKey(order), v, r);
  }
}
