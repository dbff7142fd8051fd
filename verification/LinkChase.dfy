/** Following symbolic links inside a container. */
module LinkChase {
  import opened Common

  type Path = string

  /** What asking for a path answers. */
  datatype Node = Missing | Plain | Link(target: string)

  type Container = Path -> Node

  // ----- path arithmetic

  /** The index after the last slash. */
  function Cut(p: Path, n: nat): (k: nat)
    requires n <= |p|
    ensures k <= n
  {
    if n == 0 || p[n - 1] == '/' then n else Cut(p, n - 1)
  }

  /** The directory part: trailing slashes are dropped unless it is all slashes. */
  function Directory(p: Path): Path {
    var head := p[..Cut(p, |p|)];
    if TrimRight(head, '/') == "" then head else TrimRight(head, '/')
  }

  function JoinPath(dir: Path, name: string): Path {
    if name != "" && name[0] == '/' then name
    else if dir == "" || dir[|dir| - 1] == '/' then dir + name
    else dir + "/" + name
  }

  // ----- the chase

  function Next(c: Container, p: Path): Path
    requires c(p).Link?
  {
    JoinPath(Directory(p), c(p).target)
  }

  /** The path after following `n` links, stopping at anything else. */
  function Hop(c: Container, p: Path, n: nat): Path
    decreases n
  {
    if n == 0 || !c(p).Link? then p else Hop(c, Next(c, p), n - 1)
  }

  /** `q` is not a link and is reached from `p`. */
  predicate EndsAt(c: Container, p: Path, n: nat, q: Path) {
    Hop(c, p, n) == q && !c(q).Link?
  }

  ghost predicate Reaches(c: Container, p: Path, q: Path) {
    exists n: nat :: EndsAt(c, p, n, q)
  }

  predicate Closed(c: Container, paths: set<Path>) {
    forall p :: p in paths && c(p).Link? ==> Next(c, p) in paths
  }

  lemma {:induction false} HopStep(c: Container, p: Path, n: nat)
    requires c(Hop(c, p, n)).Link?
    ensures Hop(c, p, n + 1) == Next(c, Hop(c, p, n))
    decreases n
  {
    if n > 0 && c(p).Link? { HopStep(c, Next(c, p), n - 1); }
  }

  /** Once at its end, the chase stays there; so the end is unique. */
  lemma {:induction false} EndIsUnique(c: Container, p: Path, q: Path, r: Path)
    requires Reaches(c, p, q) && Reaches(c, p, r)
    ensures q == r
  {
    var m: nat :| EndsAt(c, p, m, q);
    var n: nat :| EndsAt(c, p, n, r);
    if m <= n { Rests(c, p, m, n); } else { Rests(c, p, n, m); }
  }

  lemma {:induction false} Rests(c: Container, p: Path, m: nat, n: nat)
    requires m <= n && !c(Hop(c, p, m)).Link?
    ensures Hop(c, p, n) == Hop(c, p, m)
    decreases m
  {
    if m > 0 && c(p).Link? { Rests(c, Next(c, p), m - 1, n - 1); }
  }

  lemma {:induction false} HopStays(c: Container, links: set<Path>, p: Path, n: nat)
    requires p in links && forall x :: x in links ==> c(x).Link? && Next(c, x) in links
    ensures Hop(c, p, n) in links
    decreases n
  {
    if n > 0 { HopStays(c, links, Next(c, p), n - 1); }
  }

  /** A set of links that resolve into the set has no way out. */
  lemma NoWayOut(c: Container, links: set<Path>, p: Path)
    requires p in links && forall x :: x in links ==> c(x).Link? && Next(c, x) in links
    ensures forall q :: !Reaches(c, p, q)
  {
    forall q | Reaches(c, p, q) ensures false {
      var n: nat :| EndsAt(c, p, n, q);
      HopStays(c, links, p, n);
    }
  }

  /** The paths already considered are links that resolve among themselves or
      to the current path, which is `n` links away from the first one. */
  ghost predicate Trail(c: Container, first: Path, n: nat, path: Path, considered: set<Path>) {
    && Hop(c, first, n) == path
    && (first == path || first in considered)
    && forall x :: x in considered ==> c(x).Link? && (Next(c, x) in considered || Next(c, x) == path)
  }

  lemma TrailGrows(c: Container, first: Path, n: nat, path: Path, considered: set<Path>)
    requires Trail(c, first, n, path, considered) && c(path).Link?
    ensures Trail(c, first, n + 1, Next(c, path), considered + {path})
  {
    HopStep(c, first, n);
  }

  lemma TrailCloses(c: Container, first: Path, n: nat, path: Path, considered: set<Path>)
    requires Trail(c, first, n, path, considered) && path in considered
    ensures Answers(c, first, Loop)
  {
    NoWayOut(c, considered, first);
  }

  lemma TrailEnds(c: Container, first: Path, n: nat, path: Path, considered: set<Path>)
    requires Trail(c, first, n, path, considered) && !c(path).Link?
    ensures Answers(c, first, At(path))
  {
    assert EndsAt(c, first, n, path);
  }

  /** The answer of a chase: where it ended, or a loop. */
  datatype Chased = At(path: Path) | Loop

  /** What a chase from `p` must answer. */
  ghost predicate Answers(c: Container, p: Path, r: Chased) {
    match r
    case At(q) => Reaches(c, p, q)
    case Loop => forall q :: !Reaches(c, p, q)
  }

  /** The answer is determined. */
  lemma AnswerIsUnique(c: Container, p: Path, r: Chased, s: Chased)
    requires Answers(c, p, r) && Answers(c, p, s)
    ensures r == s
  {
    if r.At? && s.At? { EndIsUnique(c, p, r.path, s.path); }
  }

  // ----- when a finite closed set of paths exists

  /** The first `n` paths of a chase. */
  function Hops(c: Container, p: Path, n: nat): set<Path>
    decreases n
  {
    if n == 0 then {} else Hops(c, p, n - 1) + {Hop(c, p, n - 1)}
  }

  lemma {:induction false} IsHop(c: Container, p: Path, i: nat, n: nat)
    requires i < n
    ensures Hop(c, p, i) in Hops(c, p, n)
    decreases n
  {
    if i < n - 1 { IsHop(c, p, i, n - 1); }
  }

  lemma {:induction false} HopIndex(c: Container, p: Path, n: nat, x: Path) returns (i: nat)
    requires x in Hops(c, p, n)
    ensures i < n && Hop(c, p, i) == x
    decreases n
  {
    if x == Hop(c, p, n - 1) { return n - 1; }
    i := HopIndex(c, p, n - 1, x);
  }

  /** The chase ends, or comes back to a path it has met. */
  ghost predicate Settles(c: Container, p: Path) {
    (exists n: nat :: !c(Hop(c, p, n)).Link?) || (exists m: nat, n: nat :: m < n && Hop(c, p, m) == Hop(c, p, n))
  }

  lemma {:induction false} HopInside(c: Container, paths: set<Path>, p: Path, n: nat)
    requires p in paths && Closed(c, paths)
    ensures Hop(c, p, n) in paths
    decreases n
  {
    if n > 0 && c(p).Link? { HopInside(c, paths, Next(c, p), n - 1); }
  }

  lemma {:induction false} DistinctHops(c: Container, p: Path, n: nat)
    requires forall i: nat, j: nat :: i < j < n ==> Hop(c, p, i) != Hop(c, p, j)
    ensures |Hops(c, p, n)| == n
  {
    if n > 0 {
      DistinctHops(c, p, n - 1);
      if Hop(c, p, n - 1) in Hops(c, p, n - 1) {
        var i := HopIndex(c, p, n - 1, Hop(c, p, n - 1));
      }
    }
  }

  lemma {:induction false} FewerInside(a: set<Path>, b: set<Path>)
    requires a <= b
    ensures |a| <= |b|
  {
    if a != {} {
      var x :| x in a;
      FewerInside(a - {x}, b - {x});
    }
  }

  lemma ClosedSettles(c: Container, p: Path, paths: set<Path>)
    requires p in paths && Closed(c, paths)
    ensures Settles(c, p)
  {
    var n := |paths| + 1;
    if forall i: nat, j: nat :: i < j < n ==> Hop(c, p, i) != Hop(c, p, j) {
      DistinctHops(c, p, n);
      forall x | x in Hops(c, p, n) ensures x in paths {
        var i := HopIndex(c, p, n, x);
        HopInside(c, paths, p, i);
      }
      FewerInside(Hops(c, p, n), paths);
    }
  }

  /** What a link met in the chase resolves to is met next. */
  lemma {:induction false} NextIsMet(c: Container, p: Path, n: nat, x: Path) returns (i: nat)
    requires x in Hops(c, p, n) && c(x).Link?
    ensures i < n && c(Hop(c, p, i)).Link? && Hop(c, p, i + 1) == Next(c, x)
  {
    i := HopIndex(c, p, n, x);
    HopStep(c, p, i);
  }

  lemma {:induction false} EndStaysInside(c: Container, p: Path, n: nat, x: Path)
    requires !c(Hop(c, p, n)).Link? && x in Hops(c, p, n + 1) && c(x).Link?
    ensures Next(c, x) in Hops(c, p, n + 1)
  {
    var i := NextIsMet(c, p, n + 1, x);
    IsHop(c, p, i + 1, n + 1);
  }

  lemma EndCloses(c: Container, p: Path, n: nat)
    requires !c(Hop(c, p, n)).Link?
    ensures Closed(c, Hops(c, p, n + 1))
  {
    forall x | x in Hops(c, p, n + 1) && c(x).Link? ensures Next(c, x) in Hops(c, p, n + 1) {
      EndStaysInside(c, p, n, x);
    }
  }

  lemma {:induction false} MetAgain(c: Container, p: Path, m: nat, n: nat, i: nat, y: Path)
    requires m < n && i < n && Hop(c, p, m) == Hop(c, p, n) && Hop(c, p, i + 1) == y
    ensures y in Hops(c, p, n)
  {
    if i + 1 < n {
      IsHop(c, p, i + 1, n);
    } else {
      assert i + 1 == n;
      IsHop(c, p, m, n);
    }
  }

  lemma {:induction false} RepeatStaysInside(c: Container, p: Path, m: nat, n: nat, x: Path)
    requires m < n && Hop(c, p, m) == Hop(c, p, n) && x in Hops(c, p, n) && c(x).Link?
    ensures Next(c, x) in Hops(c, p, n)
  {
    var i := NextIsMet(c, p, n, x);
    MetAgain(c, p, m, n, i, Next(c, x));
  }

  lemma RepeatCloses(c: Container, p: Path, m: nat, n: nat)
    requires m < n && Hop(c, p, m) == Hop(c, p, n)
    ensures Closed(c, Hops(c, p, n))
  {
    forall x | x in Hops(c, p, n) && c(x).Link? ensures Next(c, x) in Hops(c, p, n) {
      RepeatStaysInside(c, p, m, n, x);
    }
  }

  /** A finite set of paths closed under resolution, as stating and fetching need
      it, exists exactly when the chase ends or comes back to a path: exactly then
      the loop of the code ends. */
  lemma ClosedExactlyWhenSettles(c: Container, p: Path)
    ensures (exists paths: set<Path> :: p in paths && Closed(c, paths)) <==> Settles(c, p)
  {
    if paths: set<Path> :| p in paths && Closed(c, paths) { ClosedSettles(c, p, paths); }
    if n: nat :| !c(Hop(c, p, n)).Link? {
      EndCloses(c, p, n);
      IsHop(c, p, 0, n + 1);
    } else if Settles(c, p) {
      var m: nat, n: nat :| m < n && Hop(c, p, m) == Hop(c, p, n);
      RepeatCloses(c, p, m, n);
      IsHop(c, p, 0, n);
    }
  }

  // ----- where links lead, in terms of paths

  predicate Slashes(s: string) {
    forall i :: 0 <= i < |s| ==> s[i] == '/'
  }

  lemma {:induction false} CutAfter(head: string, a: string)
    requires '/' !in a && (head == "" || head[|head| - 1] == '/')
    ensures Cut(head + a, |head + a|) == |head|
  {
    CutWithin(head + a, |head|, |head + a|);
  }

  lemma {:induction false} CutWithin(p: Path, k: nat, n: nat)
    requires k <= n <= |p| && (k == 0 || p[k - 1] == '/') && forall i :: k <= i < n ==> p[i] != '/'
    ensures Cut(p, n) == k
    decreases n
  {
    if n > k { CutWithin(p, k, n - 1); }
  }

  lemma {:induction false} TrimSlashes(d: string, slashes: string)
    requires Slashes(slashes) && (d == "" || d[|d| - 1] != '/')
    ensures TrimRight(d + slashes, '/') == d
    decreases |slashes|
  {
    if slashes == "" {
      assert d + slashes == d;
    } else {
      var s := d + slashes;
      assert s[|s| - 1] == '/' && s[..|s| - 1] == d + slashes[..|slashes| - 1];
      TrimSlashes(d, slashes[..|slashes| - 1]);
    }
  }

  lemma DirectoryOf(d: string, slashes: string, a: string)
    requires '/' !in a && Slashes(slashes) && (d == "" || (d[|d| - 1] != '/' && slashes != ""))
    ensures Directory(d + slashes + a) == if d == "" then slashes else d
  {
    var head := d + slashes;
    CutAfter(head, a);
    TrimSlashes(d, slashes);
    assert (head + a)[..|head|] == head;
    assert d == "" ==> head == slashes;
  }

  lemma {:induction false} HopOn(c: Container, p: Path, q: Path, n: nat)
    requires c(p).Link? && Next(c, p) == q
    ensures Hop(c, p, n + 1) == Hop(c, q, n)
  {
  }

  lemma ReachesOn(c: Container, p: Path, q: Path, r: Path)
    requires c(p).Link? && Next(c, p) == q
    ensures Reaches(c, p, r) <==> Reaches(c, q, r)
  {
    if n: nat :| EndsAt(c, p, n, r) {
      HopOn(c, p, q, n - 1);
      assert EndsAt(c, q, n - 1, r);
    }
    if n: nat :| EndsAt(c, q, n, r) {
      HopOn(c, p, q, n);
      assert EndsAt(c, p, n + 1, r);
    }
  }

  lemma SettlesAfter(c: Container, p: Path, q: Path)
    requires c(p).Link? && Next(c, p) == q && Settles(c, q)
    ensures Settles(c, p)
  {
    if n: nat :| !c(Hop(c, q, n)).Link? {
      HopOn(c, p, q, n);
    } else {
      var m: nat, n: nat :| m < n && Hop(c, q, m) == Hop(c, q, n);
      HopOn(c, p, q, m);
      HopOn(c, p, q, n);
      assert Hop(c, p, m + 1) == Hop(c, p, n + 1);
    }
  }

  lemma SettlesBefore(c: Container, p: Path, q: Path)
    requires c(p).Link? && Next(c, p) == q && Settles(c, p)
    ensures Settles(c, q)
  {
    if n: nat :| !c(Hop(c, p, n)).Link? {
      HopOn(c, p, q, n - 1);
    } else {
      var m: nat, n: nat :| m < n && Hop(c, p, m) == Hop(c, p, n);
      HopOn(c, p, q, n - 1);
      if m > 0 {
        HopOn(c, p, q, m - 1);
        assert Hop(c, q, m - 1) == Hop(c, q, n - 1);
      } else {
        HopStep(c, q, n - 1);
        assert Hop(c, q, 0) == Hop(c, q, n);
      }
    }
  }

  lemma AnswersOn(c: Container, p: Path, q: Path, r: Chased)
    requires c(p).Link? && Next(c, p) == q
    ensures (Answers(c, p, r) <==> Answers(c, q, r)) && (Settles(c, p) <==> Settles(c, q))
  {
    if Settles(c, p) { SettlesBefore(c, p, q); }
    if Settles(c, q) { SettlesAfter(c, p, q); }
    forall x ensures Reaches(c, p, x) <==> Reaches(c, q, x) { ReachesOn(c, p, q, x); }
  }

  /** A link to an absolute path is followed to that path: from the link the chase
      has exactly the answers it has from there, and settles exactly if it does. */
  lemma AbsoluteTarget(c: Container, p: Path, q: Path, r: Chased)
    requires c(p) == Link(q) && q != "" && q[0] == '/'
    ensures (Answers(c, p, r) <==> Answers(c, q, r)) && (Settles(c, p) <==> Settles(c, q))
  {
    AnswersOn(c, p, q, r);
  }

  predicate IsRelative(t: string) {
    t == "" || t[0] != '/'
  }

  /** A link to a relative path is followed beside itself: in its directory. */
  lemma RelativeTarget(c: Container, d: Path, slashes: string, a: string, t: string, r: Chased)
    requires d != "" && d[|d| - 1] != '/' && slashes != "" && Slashes(slashes) && '/' !in a
    requires c(d + slashes + a) == Link(t) && IsRelative(t)
    ensures Answers(c, d + slashes + a, r) <==> Answers(c, d + "/" + t, r)
    ensures Settles(c, d + slashes + a) <==> Settles(c, d + "/" + t)
  {
    DirectoryOf(d, slashes, a);
    AnswersOn(c, d + slashes + a, d + "/" + t, r);
  }

  /** In the root directory, or for a path without a directory, likewise. */
  lemma RelativeToRoot(c: Container, slashes: string, a: string, t: string, r: Chased)
    requires Slashes(slashes) && '/' !in a && c(slashes + a) == Link(t) && IsRelative(t)
    ensures Answers(c, slashes + a, r) <==> Answers(c, slashes + t, r)
    ensures Settles(c, slashes + a) <==> Settles(c, slashes + t)
  {
    DirectoryOf("", slashes, a);
    assert "" + slashes + a == slashes + a;
    AnswersOn(c, slashes + a, slashes + t, r);
  }

  /** So stating or fetching a link to an absolute path ends as it does from there. */
  lemma SameEnd(c: Container, p: Path, q: Path, r: Chased, s: Chased)
    requires c(p) == Link(q) && q != "" && q[0] == '/' && Answers(c, p, r) && Answers(c, q, s)
    ensures r == s
  {
    AbsoluteTarget(c, p, q, r);
    AnswerIsUnique(c, q, r, s);
  }

  /** Every path is of one of the two forms, so the three laws cover every link. */
  lemma {:induction false} PathForms(p: Path) returns (d: string, slashes: string, a: string)
    ensures p == d + slashes + a && '/' !in a && Slashes(slashes)
    ensures d != "" ==> d[|d| - 1] != '/' && slashes != ""
  {
    var k := LastSlash(p);
    var head := p[..k];
    a := p[k..];
    d, slashes := SplitSlashes(head);
    assert head + a == p;
  }

  lemma {:induction false} LastSlash(p: Path) returns (k: nat)
    ensures k <= |p| && '/' !in p[k..] && (k > 0 ==> p[k - 1] == '/')
  {
    if p == "" || p[|p| - 1] == '/' { return |p|; }
    k := LastSlash(p[..|p| - 1]);
    assert p[k..] == p[..|p| - 1][k..] + [p[|p| - 1]];
  }

  lemma {:induction false} SplitSlashes(head: string) returns (d: string, slashes: string)
    ensures head == d + slashes && Slashes(slashes) && (d != "" ==> d[|d| - 1] != '/')
    ensures head != "" && head[|head| - 1] == '/' ==> slashes != ""
  {
    if head == "" || head[|head| - 1] != '/' { return head, ""; }
    d, slashes := SplitSlashes(head[..|head| - 1]);
    slashes := slashes + "/";
    assert head == head[..|head| - 1] + "/";
  }

  // ----- stating

  datatype Stat = Stat(path: Path, node: Node) | StatLoop(path: Path)

  /** The finite set that bounds the loop. */
  lemma Bound(c: Container, p: Path, followLinks: bool) returns (paths: set<Path>)
    requires followLinks ==> Settles(c, p)
    ensures p in paths && (followLinks ==> Closed(c, paths))
  {
    paths := {p};
    if followLinks {
      ClosedExactlyWhenSettles(c, p);
      paths :| p in paths && Closed(c, paths);
    }
  }

  /** Stating a path. Following links the loop ends exactly when the chase settles;
      it need not (`SelfLinkNeverSettles`). */
  method StatFile(c: Container, inPath: Path, followLinks: bool) returns (r: Stat)
    requires followLinks ==> Settles(c, inPath)
    ensures !followLinks ==> r == Stat(inPath, c(inPath))
    ensures followLinks ==> Answers(c, inPath, if r.Stat? then At(r.path) else Loop)
    ensures followLinks && r.Stat? ==> r.node == c(r.path) && !r.node.Link?
  {
    var considered: set<Path> := {};
    var path := inPath;
    ghost var n: nat := 0;
    ghost var paths := Bound(c, inPath, followLinks);
    while true
      invariant path in paths && considered <= paths
      invariant Trail(c, inPath, n, path, considered)
      invariant !followLinks ==> path == inPath && considered == {}
      decreases paths - considered
    {
      if path in considered {
        TrailCloses(c, inPath, n, path, considered);
        return StatLoop(path);
      }
      ghost var seen := considered;
      considered := considered + {path};
      var node := c(path);
      if node.Missing? {
        TrailEnds(c, inPath, n, path, seen);
        return Stat(path, Missing);
      }
      if node.Link? {
        if !followLinks { return Stat(path, node); }
        TrailGrows(c, inPath, n, path, seen);
        path := JoinPath(Directory(path), node.target);
        n := n + 1;
        continue;
      }
      TrailEnds(c, inPath, n, path, seen);
      return Stat(path, node);
    }
  }

  // ----- fetching

  /** A member of the archive that a fetch answers with. */
  datatype Member = Symlink(linkname: string) | File | Other

  datatype Archive = NotFound | Members(members: seq<Member>)

  /** How a fetch comes out. (The path of the last two is not in the exceptions.) */
  datatype Fetch = ProcessNone(path: Path) | ProcessRegular(path: Path) | ProcessSymlink(path: Path, linkname: string)
                 | ProcessOther(path: Path) | FetchLoop(path: Path)
                 | EmptyArchive(path: Path) | SeveralFiles(path: Path)

  /** Asking for an archive and asking for the status agree on what is a link
      and on what is missing. */
  predicate Consistent(archive: Path -> Archive, c: Container, p: Path) {
    match archive(p)
    case NotFound => c(p) == Missing
    case Members(ms) => if |ms| == 1 && ms[0].Symlink? then c(p) == Link(ms[0].linkname) else c(p) == Plain
  }

  /** The answer for one archive. */
  function Processed(p: Path, a: Archive): Fetch {
    match a
    case NotFound => ProcessNone(p)
    case Members(ms) =>
      if ms == [] then EmptyArchive(p)
      else if |ms| > 1 then SeveralFiles(p)
      else match ms[0]
        case Symlink(linkname) => ProcessSymlink(p, linkname)
        case File => ProcessRegular(p)
        case Other => ProcessOther(p)
  }

  /** The loop over the members of one archive. */
  method ReadArchive(path: Path, members: seq<Member>) returns (r: Fetch)
    ensures r == Processed(path, Members(members))
  {
    var found := false;
    r := EmptyArchive(path);
    for i := 0 to |members|
      invariant found <==> i > 0
      invariant i <= 1
      invariant r == Processed(path, Members(members[..i]))
    {
      if found { return SeveralFiles(path); }
      found := true;
      match members[i] {
        case Symlink(linkname) => r := ProcessSymlink(path, linkname);
        case File => r := ProcessRegular(path);
        case Other => r := ProcessOther(path);
      }
    }
    assert members[..|members|] == members;
  }

  /** Fetching a path ends where stating it ends. */
  method FetchFile(archive: Path -> Archive, inPath: Path, followLinks: bool, ghost c: Container) returns (r: Fetch)
    requires followLinks ==> Settles(c, inPath)
    requires forall n: nat :: Consistent(archive, c, Hop(c, inPath, n))
    ensures !followLinks ==> r == Processed(inPath, archive(inPath))
    ensures followLinks ==> Answers(c, inPath, if r.FetchLoop? then Loop else At(r.path))
    ensures followLinks && !r.FetchLoop? ==> r == Processed(r.path, archive(r.path)) && !r.ProcessSymlink?
  {
    var considered: set<Path> := {};
    var path := inPath;
    ghost var n: nat := 0;
    ghost var paths := Bound(c, inPath, followLinks);
    while true
      invariant path in paths && considered <= paths
      invariant Trail(c, inPath, n, path, considered)
      invariant !followLinks ==> path == inPath && considered == {}
      decreases paths - considered
    {
      if path in considered {
        TrailCloses(c, inPath, n, path, considered);
        return FetchLoop(path);
      }
      ghost var seen := considered;
      considered := considered + {path};
      assert Consistent(archive, c, path);
      var answer := archive(path);
      if !c(path).Link? { TrailEnds(c, inPath, n, path, seen); }
      if answer.NotFound? { return ProcessNone(path); }
      r := ReadArchive(path, answer.members);
      if !r.ProcessSymlink? || !followLinks { return r; }
      TrailGrows(c, inPath, n, path, seen);
      path := JoinPath(Directory(path), r.linkname);
      n := n + 1;
    }
  }

  // ----- a loop that is not found

  /** Every path that ends in the letter l is a link to itself, named "./l"; there
      is nothing else. */
  function SelfLinks(): Container {
    (p: Path) => if |p| >= 1 && p[|p| - 1] == 'l' then Link("./l") else Missing
  }

  predicate DotName(p: Path) {
    |p| >= 2 && p[|p| - 1] == 'l' && p[|p| - 2] == '/' && (|p| > 2 ==> p[|p| - 3] == '.')
  }

  lemma SelfLinkNext(p: Path)
    requires DotName(p)
    ensures SelfLinks()(p) == Link("./l")
    ensures DotName(Next(SelfLinks(), p)) && |Next(SelfLinks(), p)| == |p| + 2
  {
    assert Cut(p, |p|) == |p| - 1;
    var head := p[..|p| - 1];
    assert head[..|head| - 1] == p[..|p| - 2];
    if |p| > 2 {
      assert TrimRight(head, '/') == p[..|p| - 2];
      assert Next(SelfLinks(), p) == p[..|p| - 2] + "/" + "./l";
    } else {
      assert head == "/" && head[..0] == "" && TrimRight(head, '/') == "";
      assert Next(SelfLinks(), p) == "/" + "./l";
    }
  }

  lemma {:induction false} SelfLinkGrows(p: Path, n: nat)
    requires DotName(p)
    ensures DotName(Hop(SelfLinks(), p, n)) && |Hop(SelfLinks(), p, n)| == |p| + 2 * n
    decreases n
  {
    if n > 0 {
      SelfLinkNext(p);
      SelfLinkGrows(Next(SelfLinks(), p), n - 1);
    }
  }

  /** A container in which the loop goes on for ever: a link to "./l" beside itself
      is met under ever longer names, so no path is ever seen twice. */
  lemma SelfLinkNeverSettles()
    ensures !Settles(SelfLinks(), "/l")
    ensures !exists paths: set<Path> :: "/l" in paths && Closed(SelfLinks(), paths)
  {
    var c := SelfLinks();
    forall n: nat ensures c(Hop(c, "/l", n)).Link? { SelfLinkGrows("/l", n); SelfLinkNext(Hop(c, "/l", n)); }
    forall m: nat, n: nat | m < n ensures Hop(c, "/l", m) != Hop(c, "/l", n) {
      SelfLinkGrows("/l", m);
      SelfLinkGrows("/l", n);
    }
    ClosedExactlyWhenSettles(c, "/l");
  }
}
