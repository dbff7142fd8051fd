/** How module parameters are compared with the state of existing objects. */
module Compare {
  import opened Common

  /** An operand: None, a simple value, a list of values (for lists and sets),
      a list of dictionaries, or a dictionary. */
  datatype Arg<V> = Nothing | Scalar(value: V) | Items(items: seq<V>)
                  | Dicts(dicts: seq<map<string, V>>) | Dict(entries: map<string, V>)

  datatype Method = Ignore | Strict | AllowMorePresent

  datatype Datatype = ValueType | ListType | SetType | SetOfDictType | DictType

  /** The operand is None or has the shape its datatype calls for. */
  predicate Fits<V>(a: Arg<V>, t: Datatype) {
    match a
    case Nothing => true
    case Scalar(_) => t == ValueType
    case Items(_) => t == ListType || t == SetType
    case Dicts(_) => t == SetOfDictType
    case Dict(_) => t == DictType
  }

  // ----- subsequences

  /** `e` says where in `b` each element of `a` is found, left to right. */
  ghost predicate Embeds<V>(a: seq<V>, b: seq<V>, e: seq<nat>) {
    && |e| == |a|
    && (forall i :: 0 <= i < |a| ==> e[i] < |b| && b[e[i]] == a[i])
    && (forall i, j :: 0 <= i < j < |a| ==> e[i] < e[j])
  }

  ghost predicate Subsequence<V>(a: seq<V>, b: seq<V>) {
    exists e :: Embeds(a, b, e)
  }

  /** The greedy scan: match the first element as early as possible. */
  predicate Greedy<V(==)>(a: seq<V>, b: seq<V>)
    decreases |b|
  {
    a == [] || (b != [] && if a[0] == b[0] then Greedy(a[1..], b[1..]) else Greedy(a, b[1..]))
  }

  lemma {:induction false} GreedyFinds<V>(a: seq<V>, b: seq<V>) returns (e: seq<nat>)
    requires Greedy(a, b)
    ensures Embeds(a, b, e)
    decreases |b|
  {
    if a == [] { return []; }
    if a[0] == b[0] {
      var f := GreedyFinds(a[1..], b[1..]);
      e := [0] + seq(|f|, i requires 0 <= i < |f| => f[i] + 1);
      forall i | 0 <= i < |a| ensures e[i] < |b| && b[e[i]] == a[i] {
        if i > 0 { assert a[i] == a[1..][i - 1] == b[1..][f[i - 1]]; }
      }
    } else {
      var f := GreedyFinds(a, b[1..]);
      e := seq(|f|, i requires 0 <= i < |f| => f[i] + 1);
      assert forall i :: 0 <= i < |a| ==> b[e[i]] == b[1..][f[i]];
    }
  }

  lemma {:induction false} GreedyMisses<V>(a: seq<V>, b: seq<V>, e: seq<nat>)
    requires Embeds(a, b, e)
    ensures Greedy(a, b)
    decreases |b|
  {
    if a != [] {
      assert e[0] < |b|;
      if a[0] == b[0] {
        var f := seq(|a| - 1, i requires 0 <= i < |a| - 1 => assert e[0] < e[i + 1]; e[i + 1] - 1);
        forall i | 0 <= i < |a| - 1 ensures f[i] < |b[1..]| && b[1..][f[i]] == a[1..][i] {
          assert a[1..][i] == a[i + 1] == b[e[i + 1]];
        }
        GreedyMisses(a[1..], b[1..], f);
      } else {
        assert forall i :: 0 < i < |a| ==> e[0] < e[i];
        var f := seq(|a|, i requires 0 <= i < |a| => e[i] - 1);
        forall i | 0 <= i < |a| ensures f[i] < |b[1..]| && b[1..][f[i]] == a[i] {
          assert b[1..][f[i]] == b[e[i]];
        }
        GreedyMisses(a, b[1..], f);
      }
    }
  }

  /** The greedy scan succeeds exactly on subsequences. */
  lemma GreedyIsSubsequence<V>(a: seq<V>, b: seq<V>)
    ensures Greedy(a, b) <==> Subsequence(a, b)
  {
    if Greedy(a, b) { var e := GreedyFinds(a, b); }
    if Subsequence(a, b) {
      var e :| Embeds(a, b, e);
      GreedyMisses(a, b, e);
    }
  }

  lemma SubsequenceTransitive<V>(a: seq<V>, b: seq<V>, c: seq<V>)
    requires Subsequence(a, b) && Subsequence(b, c)
    ensures Subsequence(a, c)
  {
    var e :| Embeds(a, b, e);
    var f :| Embeds(b, c, f);
    var g: seq<nat> := seq(|a|, i requires 0 <= i < |a| => f[e[i]]);
    assert Embeds(a, c, g);
  }

  lemma SubsequenceReflexive<V>(a: seq<V>)
    ensures Subsequence(a, a)
  {
    var e: seq<nat> := seq(|a|, i => i);
    assert Embeds(a, a, e);
  }

  // ----- what the comparison means

  predicate EntriesIn<V(==)>(a: map<string, V>, b: map<string, V>) {
    forall k :: k in a ==> k in b && b[k] == a[k]
  }

  /** Some dictionary of `ds` contains `d`. */
  predicate HasAbove<V(==)>(d: map<string, V>, ds: seq<map<string, V>>) {
    exists e :: e in ds && EntriesIn(d, e)
  }

  predicate HasBelow<V(==)>(d: map<string, V>, ds: seq<map<string, V>>) {
    exists e :: e in ds && EntriesIn(e, d)
  }

  /** Every dictionary of `a` is contained in some dictionary of `b`. */
  predicate Covered<V(==)>(a: seq<map<string, V>>, b: seq<map<string, V>>) {
    forall av :: av in a ==> HasAbove(av, b)
  }

  /** Every dictionary of `b` contains some dictionary of `a`. */
  predicate AllCovering<V(==)>(a: seq<map<string, V>>, b: seq<map<string, V>>) {
    forall bv :: bv in b ==> HasBelow(bv, a)
  }

  function Size<V>(a: Arg<V>): nat {
    match a
    case Items(xs) => |xs|
    case Dicts(ds) => |ds|
    case Dict(m) => |m|
    case _ => 0
  }

  /** The relation the comparison decides. */
  ghost predicate Matches<V>(a: Arg<V>, b: Arg<V>, m: Method, t: Datatype)
    requires Fits(a, t) && Fits(b, t)
  {
    if m == Ignore then true
    else if a.Nothing? || b.Nothing? then
      if a.Nothing? && b.Nothing? then true
      else if t == ValueType then false
      else if a.Nothing? then m == AllowMorePresent || Size(b) == 0
      else Size(a) == 0
    else
      match t
      case ValueType => a == b
      case ListType => if m == Strict then a == b else Subsequence(a.items, b.items)
      case DictType => if m == Strict then a == b else EntriesIn(a.entries, b.entries)
      case SetType =>
        var sa, sb := (set x | x in a.items), (set x | x in b.items);
        if m == Strict then sa == sb else sa <= sb
      case SetOfDictType => Covered(a.dicts, b.dicts) && (m == Strict ==> AllCovering(a.dicts, b.dicts))
  }

  method CompareDictAllowMorePresent<V(==)>(av: map<string, V>, bv: map<string, V>) returns (r: bool)
    ensures r <==> EntriesIn(av, bv)
  {
    var todo := av.Keys;
    while todo != {}
      invariant todo <= av.Keys
      invariant forall k :: k in av && k !in todo ==> k in bv && bv[k] == av[k]
    {
      var key :| key in todo;
      if key !in bv { return false; }
      if bv[key] != av[key] { return false; }
      todo := todo - {key};
    }
    return true;
  }

  /** The scan over two lists. */
  method ScanLists<V(==)>(a: seq<V>, b: seq<V>) returns (r: bool)
    ensures r <==> Subsequence(a, b)
  {
    GreedyIsSubsequence(a, b);
    var i := 0;
    assert a[0..] == a && b[0..] == b;
    for j := 0 to |a|
      invariant 0 <= i <= |b|
      invariant Greedy(a, b) <==> Greedy(a[j..], b[i..])
    {
      var v := a[j];
      while i < |b| && b[i] != v
        invariant 0 <= i <= |b|
        invariant Greedy(a, b) <==> Greedy(a[j..], b[i..])
      {
        assert b[i..][1..] == b[i + 1..];
        i := i + 1;
      }
      if i == |b| { return false; }
      assert a[j..][1..] == a[j + 1..] && b[i..][1..] == b[i + 1..];
      i := i + 1;
    }
    return true;
  }

  /** Is some dictionary of `b` a superset of `av`? */
  method FindCovering<V(==)>(av: map<string, V>, b: seq<map<string, V>>) returns (found: bool)
    ensures found <==> exists bv :: bv in b && EntriesIn(av, bv)
  {
    for j := 0 to |b|
      invariant forall k :: 0 <= k < j ==> !EntriesIn(av, b[k])
    {
      found := CompareDictAllowMorePresent(av, b[j]);
      if found { return true; }
    }
    return false;
  }

  method FindCovered<V(==)>(a: seq<map<string, V>>, bv: map<string, V>) returns (found: bool)
    ensures found <==> exists av :: av in a && EntriesIn(av, bv)
  {
    for j := 0 to |a|
      invariant forall k :: 0 <= k < j ==> !EntriesIn(a[k], bv)
    {
      found := CompareDictAllowMorePresent(a[j], bv);
      if found { return true; }
    }
    return false;
  }

  method ScanDicts<V(==)>(a: seq<map<string, V>>, b: seq<map<string, V>>, strict: bool) returns (r: bool)
    ensures r <==> Covered(a, b) && (strict ==> AllCovering(a, b))
  {
    for i := 0 to |a|
      invariant forall k :: 0 <= k < i ==> exists bv :: bv in b && EntriesIn(a[k], bv)
    {
      var found := FindCovering(a[i], b);
      if !found {
        assert a[i] in a;
        return false;
      }
    }
    if strict {
      for i := 0 to |b|
        invariant forall k :: 0 <= k < i ==> exists av :: av in a && EntriesIn(av, b[k])
      {
        var found := FindCovered(a, b[i]);
        if !found {
          assert b[i] in b;
          return false;
        }
      }
    }
    return true;
  }

  method CompareGeneric<V(==)>(a: Arg<V>, b: Arg<V>, m: Method, t: Datatype) returns (r: bool)
    requires Fits(a, t) && Fits(b, t)
    ensures r <==> Matches(a, b, m, t)
  {
    if m == Ignore { return true; }
    if a.Nothing? || b.Nothing? {
      if a == b { return true; }
      if t == ValueType { return false; }
      if m == AllowMorePresent && a.Nothing? { return true; }
      return Size(if a.Nothing? then b else a) == 0;
    }
    match t {
      case ValueType => return a == b;
      case ListType =>
        if m == Strict { return a == b; }
        r := ScanLists(a.items, b.items);
      case DictType =>
        if m == Strict { return a == b; }
        r := CompareDictAllowMorePresent(a.entries, b.entries);
      case SetType =>
        var sa, sb := (set x | x in a.items), (set x | x in b.items);
        return if m == Strict then sa == sb else sb >= sa;
      case SetOfDictType =>
        r := ScanDicts(a.dicts, b.dicts, m == Strict);
    }
  }

  // ----- laws

  lemma AllowMoreReflexive<V>(a: Arg<V>, m: Method, t: Datatype)
    requires Fits(a, t)
    ensures Matches(a, a, m, t)
  {
    if a.Items? { SubsequenceReflexive(a.items); }
    if a.Dicts? { assert forall d :: d in a.dicts ==> EntriesIn(d, d); }
  }

  /** Allowing more to be present is transitive for every datatype, None included. */
  lemma AllowMoreTransitive<V>(a: Arg<V>, b: Arg<V>, c: Arg<V>, t: Datatype)
    requires Fits(a, t) && Fits(b, t) && Fits(c, t)
    requires Matches(a, b, AllowMorePresent, t) && Matches(b, c, AllowMorePresent, t)
    ensures Matches(a, c, AllowMorePresent, t)
  {
    if a.Nothing? { return; }
    if b.Nothing? {
      EmptyMatchesAll(a, c, t);
    } else if c.Nothing? {
      if t != ValueType { OnlyEmptyInEmpty(a, b, t); }
    } else {
      match t
      case ListType => SubsequenceTransitive(a.items, b.items, c.items);
      case SetOfDictType =>
        forall av | av in a.dicts ensures exists cv :: cv in c.dicts && EntriesIn(av, cv) {
          var bv :| bv in b.dicts && EntriesIn(av, bv);
          var cv :| cv in c.dicts && EntriesIn(bv, cv);
          assert EntriesIn(av, cv);
        }
      case _ =>
    }
  }

  lemma EmptyMatchesAll<V>(a: Arg<V>, c: Arg<V>, t: Datatype)
    requires Fits(a, t) && Fits(c, t) && t != ValueType && Size(a) == 0
    ensures Matches(a, c, AllowMorePresent, t)
  {
    if a.Items? && c.Items? { assert Embeds(a.items, c.items, []); }
  }

  lemma OnlyEmptyInEmpty<V>(a: Arg<V>, b: Arg<V>, t: Datatype)
    requires Fits(a, t) && Fits(b, t) && t != ValueType && !a.Nothing? && !b.Nothing?
    requires Matches(a, b, AllowMorePresent, t)
    ensures Size(a) > 0 ==> Size(b) > 0
  {
    match a
    case Items(xs) =>
      if xs != [] && t == ListType {
        var e :| Embeds(xs, b.items, e);
        assert e[0] < |b.items|;
      } else if xs != [] {
        var sa, sb := (set x | x in a.items), (set x | x in b.items);
        assert xs[0] in sa && sa <= sb;
      }
    case Dicts(ds) =>
      if ds != [] { assert ds[0] in ds; }
    case Dict(entries) =>
      if k :| k in entries { assert k in b.entries; }
    case _ =>
  }

  /** What matches strictly also matches when more is allowed. */
  lemma StrictImpliesAllowMore<V>(a: Arg<V>, b: Arg<V>, t: Datatype)
    requires Fits(a, t) && Fits(b, t) && Matches(a, b, Strict, t)
    ensures Matches(a, b, AllowMorePresent, t)
  {
    if t == ListType && a.Items? && b.Items? { SubsequenceReflexive(a.items); }
  }

  /** The strict comparison is symmetric for every datatype but sets of
      dictionaries, where the coverings in both directions use containment. */
  lemma StrictSymmetric<V>(a: Arg<V>, b: Arg<V>, t: Datatype)
    requires Fits(a, t) && Fits(b, t) && (t == SetOfDictType ==> a.Nothing? || b.Nothing?)
    ensures Matches(a, b, Strict, t) <==> Matches(b, a, Strict, t)
  {
  }

  // ----- what each comparison says of its operands

  /** Two operands that are not None: values are compared for equality, whatever the
      method; the others by what they hold. */
  lemma ComparesContents<V>(x: V, y: V, xs: seq<V>, ys: seq<V>, d: map<string, V>, e: map<string, V>)
    ensures Matches(Scalar(x), Scalar(y), Ignore, ValueType)
    ensures Matches(Scalar(x), Scalar(y), Strict, ValueType) <==> x == y
    ensures Matches(Scalar(x), Scalar(y), AllowMorePresent, ValueType) <==> x == y
    ensures Matches(Items(xs), Items(ys), Strict, ListType) <==> xs == ys
    ensures Matches(Dict(d), Dict(e), Strict, DictType) <==> d == e
    ensures Matches(Dict(d), Dict(e), AllowMorePresent, DictType) <==> e + d == e
    ensures Matches(Items(xs), Items(ys), AllowMorePresent, SetType) <==> forall v :: v in xs ==> v in ys
    ensures Matches(Items(xs), Items(ys), Strict, SetType) <==> forall v :: v in xs <==> v in ys
  {
    SetsOfItems(xs, ys);
    DictExtends(d, e);
  }

  lemma SetsOfItems<V>(xs: seq<V>, ys: seq<V>)
    ensures (set x | x in xs) <= (set y | y in ys) <==> forall v :: v in xs ==> v in ys
    ensures (set x | x in xs) == (set y | y in ys) <==> forall v :: v in xs <==> v in ys
  {
    var a, b := (set x | x in xs), (set y | y in ys);
    assert forall v :: (v in a <==> v in xs) && (v in b <==> v in ys);
  }

  lemma DictExtends<V>(d: map<string, V>, e: map<string, V>)
    ensures EntriesIn(d, e) <==> e + d == e
  {
    if EntriesIn(d, e) {
      assert (e + d).Keys == e.Keys;
    } else {
      var k :| k in d && !(k in e && e[k] == d[k]);
      assert k in e + d && (e + d)[k] == d[k];
    }
  }

  predicate IsEmpty<V(==)>(a: Arg<V>) {
    a == Items([]) || a == Dicts([]) || a == Dict(map[])
  }

  /** None is like something empty; only where more is allowed, None as the first
      operand matches everything that is no simple value. */
  lemma ComparesNone<V>(a: Arg<V>, t: Datatype)
    requires Fits(a, t)
    ensures Matches(Nothing, a, Strict, t) <==> a == Nothing || IsEmpty(a)
    ensures Matches(a, Nothing, Strict, t) <==> a == Nothing || IsEmpty(a)
    ensures Matches(a, Nothing, AllowMorePresent, t) <==> a == Nothing || IsEmpty(a)
    ensures Matches(Nothing, a, AllowMorePresent, t) <==> a == Nothing || t != ValueType
  {
  }

  lemma {:induction false} EmbedsAtLeast<V>(a: seq<V>, b: seq<V>, e: seq<nat>, i: nat)
    requires Embeds(a, b, e) && i < |a|
    ensures i <= e[i]
  {
    if i > 0 {
      EmbedsAtLeast(a, b, e, i - 1);
      assert e[i - 1] < e[i];
    }
  }

  lemma {:induction false} EmbedsAtMost<V>(a: seq<V>, b: seq<V>, e: seq<nat>, i: nat)
    requires Embeds(a, b, e) && i < |a|
    ensures e[i] + (|a| - 1 - i) < |b|
    decreases |a| - i
  {
    if i + 1 < |a| {
      EmbedsAtMost(a, b, e, i + 1);
      assert e[i] < e[i + 1];
    }
  }

  lemma SubsequenceIsShorter<V>(a: seq<V>, b: seq<V>)
    requires Subsequence(a, b)
    ensures |a| <= |b| && (|a| == |b| ==> a == b)
  {
    var e: seq<nat> :| Embeds(a, b, e);
    if a != [] { EmbedsAtMost(a, b, e, 0); }
    if |a| == |b| { EmbedsWhole(a, b, e); }
  }

  lemma EmbedsWhole<V>(a: seq<V>, b: seq<V>, e: seq<nat>)
    requires Embeds(a, b, e) && |a| == |b|
    ensures a == b
  {
    forall i | 0 <= i < |a| ensures a[i] == b[i] {
      EmbedsAtLeast(a, b, e, i);
      EmbedsAtMost(a, b, e, i);
      assert e[i] == i;
    }
  }

  /** Allowing more is an order whose equality is the strict comparison: for every
      datatype but sets of dictionaries, None included, what matches in both
      directions when more is allowed matches strictly, and the other way round. */
  lemma StrictIsBothWays<V>(a: Arg<V>, b: Arg<V>, t: Datatype)
    requires Fits(a, t) && Fits(b, t) && t != SetOfDictType
    ensures Matches(a, b, Strict, t) <==>
            Matches(a, b, AllowMorePresent, t) && Matches(b, a, AllowMorePresent, t)
  {
    if Matches(a, b, Strict, t) {
      StrictSymmetric(a, b, t);
      StrictImpliesAllowMore(a, b, t);
      StrictImpliesAllowMore(b, a, t);
    }
    if Matches(a, b, AllowMorePresent, t) && Matches(b, a, AllowMorePresent, t) { BothWaysIsStrict(a, b, t); }
  }

  lemma BothWaysIsStrict<V>(a: Arg<V>, b: Arg<V>, t: Datatype)
    requires Fits(a, t) && Fits(b, t) && t != SetOfDictType
    requires Matches(a, b, AllowMorePresent, t) && Matches(b, a, AllowMorePresent, t)
    ensures Matches(a, b, Strict, t)
  {
    if a.Nothing? {
      ComparesNone(b, t);
    } else if b.Nothing? {
      ComparesNone(a, t);
    } else if t == ListType {
      SubsequenceIsShorter(a.items, b.items);
      SubsequenceIsShorter(b.items, a.items);
    } else if t == DictType {
      assert a.entries.Keys == b.entries.Keys;
    }
  }

  // ----- sets of dictionaries, strictly

  predicate IsMaximal<V(==)>(d: map<string, V>, ds: seq<map<string, V>>) {
    d in ds && forall e :: e in ds && EntriesIn(d, e) ==> e == d
  }

  predicate IsMinimal<V(==)>(d: map<string, V>, ds: seq<map<string, V>>) {
    d in ds && forall e :: e in ds && EntriesIn(e, d) ==> e == d
  }

  /** The dictionaries of `a` that no other contains are such in `b` too. */
  predicate MaximalIn<V(==)>(a: seq<map<string, V>>, b: seq<map<string, V>>) {
    forall d :: d in a && IsMaximal(d, a) ==> IsMaximal(d, b)
  }

  predicate MinimalIn<V(==)>(a: seq<map<string, V>>, b: seq<map<string, V>>) {
    forall d :: d in a && IsMinimal(d, a) ==> IsMinimal(d, b)
  }

  lemma ContainmentOrders<V>(a: map<string, V>, b: map<string, V>, c: map<string, V>)
    ensures EntriesIn(a, b) && EntriesIn(b, a) ==> a == b
    ensures EntriesIn(a, b) && EntriesIn(b, c) ==> EntriesIn(a, c)
    ensures EntriesIn(a, b) && a != b ==> |a| < |b|
  {
    if EntriesIn(a, b) && EntriesIn(b, a) { assert a.Keys == b.Keys; }
    if EntriesIn(a, b) && a != b {
      assert a.Keys <= b.Keys && (a.Keys == b.Keys ==> a == b);
      SmallerSet(a.Keys, b.Keys);
    }
  }

  lemma {:induction false} SmallerSet<T>(a: set<T>, b: set<T>)
    requires a < b
    ensures |a| < |b|
  {
    if a != {} {
      var x :| x in a;
      SmallerSet(a - {x}, b - {x});
    }
  }

  /** The largest size among some dictionaries. */
  function LargestSize<V>(ds: seq<map<string, V>>): (n: nat)
    ensures forall d :: d in ds ==> |d| <= n
  {
    if ds == [] then 0 else if |ds[0]| > LargestSize(ds[1..]) then |ds[0]| else LargestSize(ds[1..])
  }

  lemma {:induction false} BelowMaximal<V>(d: map<string, V>, ds: seq<map<string, V>>) returns (m: map<string, V>)
    requires d in ds
    ensures IsMaximal(m, ds) && EntriesIn(d, m)
    decreases LargestSize(ds) - |d|
  {
    if IsMaximal(d, ds) { return d; }
    var e :| e in ds && EntriesIn(d, e) && e != d;
    ContainmentOrders(d, e, e);
    m := BelowMaximal(e, ds);
    ContainmentOrders(d, e, m);
  }

  lemma {:induction false} AboveMinimal<V>(d: map<string, V>, ds: seq<map<string, V>>) returns (m: map<string, V>)
    requires d in ds
    ensures IsMinimal(m, ds) && EntriesIn(m, d)
    decreases |d|
  {
    if IsMinimal(d, ds) { return d; }
    var e :| e in ds && EntriesIn(e, d) && e != d;
    ContainmentOrders(e, d, d);
    m := AboveMinimal(e, ds);
    ContainmentOrders(m, e, d);
  }

  lemma MaximalKept<V>(d: map<string, V>, a: seq<map<string, V>>, b: seq<map<string, V>>)
    requires Covered(a, b) && Covered(b, a) && IsMaximal(d, a)
    ensures IsMaximal(d, b)
  {
    assert HasAbove(d, b);
    var e :| e in b && EntriesIn(d, e);
    forall f | f in b && EntriesIn(e, f) ensures f == d {
      assert HasAbove(f, a);
      var g :| g in a && EntriesIn(f, g);
      ContainmentOrders(d, e, f);
      ContainmentOrders(d, f, g);
    }
    assert EntriesIn(e, e);
  }

  lemma MinimalKept<V>(d: map<string, V>, a: seq<map<string, V>>, b: seq<map<string, V>>)
    requires AllCovering(a, b) && AllCovering(b, a) && IsMinimal(d, a)
    ensures IsMinimal(d, b)
  {
    assert HasBelow(d, b);
    var e :| e in b && EntriesIn(e, d);
    forall f | f in b && EntriesIn(f, e) ensures f == d {
      assert HasBelow(f, a);
      var g :| g in a && EntriesIn(g, f);
      ContainmentOrders(f, e, d);
      ContainmentOrders(g, f, d);
    }
    assert EntriesIn(e, e);
  }

  lemma MaximalInKept<V>(a: seq<map<string, V>>, b: seq<map<string, V>>)
    requires Covered(a, b) && Covered(b, a)
    ensures MaximalIn(a, b)
  {
    forall d | d in a && IsMaximal(d, a) ensures IsMaximal(d, b) { MaximalKept(d, a, b); }
  }

  lemma MinimalInKept<V>(a: seq<map<string, V>>, b: seq<map<string, V>>)
    requires AllCovering(a, b) && AllCovering(b, a)
    ensures MinimalIn(a, b)
  {
    forall d | d in a && IsMinimal(d, a) ensures IsMinimal(d, b) { MinimalKept(d, a, b); }
  }

  lemma MaximalCovers<V>(a: seq<map<string, V>>, b: seq<map<string, V>>)
    requires MaximalIn(a, b)
    ensures Covered(a, b)
  {
    forall d | d in a ensures HasAbove(d, b) {
      var m := BelowMaximal(d, a);
      assert m in b;
    }
  }

  lemma MinimalCovers<V>(a: seq<map<string, V>>, b: seq<map<string, V>>)
    requires MinimalIn(b, a)
    ensures AllCovering(a, b)
  {
    forall d | d in b ensures HasBelow(d, a) {
      var m := AboveMinimal(d, b);
      assert m in a;
    }
  }

  /** The same dictionaries that no other contains, and the same that contain no other. */
  predicate SameEnds<V(==)>(a: seq<map<string, V>>, b: seq<map<string, V>>) {
    MaximalIn(a, b) && MaximalIn(b, a) && MinimalIn(a, b) && MinimalIn(b, a)
  }

  predicate CoveredBothWays<V(==)>(a: seq<map<string, V>>, b: seq<map<string, V>>) {
    Covered(a, b) && AllCovering(a, b) && Covered(b, a) && AllCovering(b, a)
  }

  lemma CoveredHaveSameEnds<V>(a: seq<map<string, V>>, b: seq<map<string, V>>)
    requires CoveredBothWays(a, b)
    ensures SameEnds(a, b)
  {
    MaximalInKept(a, b);
    MaximalInKept(b, a);
    MinimalInKept(a, b);
    MinimalInKept(b, a);
  }

  lemma SameEndsCovered<V>(a: seq<map<string, V>>, b: seq<map<string, V>>)
    requires SameEnds(a, b)
    ensures CoveredBothWays(a, b)
  {
    MaximalCovers(a, b);
    MaximalCovers(b, a);
    MinimalCovers(a, b);
    MinimalCovers(b, a);
  }

  lemma CoveredExactlySameEnds<V>(a: seq<map<string, V>>, b: seq<map<string, V>>)
    ensures CoveredBothWays(a, b) <==> SameEnds(a, b)
  {
    if CoveredBothWays(a, b) {
      CoveredHaveSameEnds(a, b);
    } else if SameEnds(a, b) {
      SameEndsCovered(a, b);
    }
  }

  /** The strict comparison of two sets of dictionaries holds in both directions
      exactly when they have the same ends. */
  lemma StrictBothWays<V>(a: Arg<V>, b: Arg<V>)
    requires a.Dicts? && b.Dicts?
    ensures Matches(a, b, Strict, SetOfDictType) && Matches(b, a, Strict, SetOfDictType) <==> SameEnds(a.dicts, b.dicts)
  {
    CoveredExactlySameEnds(a.dicts, b.dicts);
  }

  lemma StrictSetOfDictNotSymmetric()
    ensures Matches(Dicts([map[]]), Dicts([map["x" := 1]]), Strict, SetOfDictType)
    ensures !Matches(Dicts([map["x" := 1]]), Dicts([map[]]), Strict, SetOfDictType)
  {
    var e: map<string, int>, d: map<string, int> := map[], map["x" := 1];
    assert EntriesIn(e, d);
    assert d in [d] && "x" in d && "x" !in e;
    assert forall bv :: bv in [e] ==> !EntriesIn(d, bv);
  }
}
