/** Reading the Kubernetes request out of a URL path. */
module RequestInfo {
  import opened Common

  // ----- splitting paths

  /** The pieces between slashes; there is always at least one. */
  function Split(s: string): (parts: seq<string>)
    ensures parts != []
  {
    if s == "" then [""]
    else
      var rest := Split(s[1..]);
      if s[0] == '/' then [""] + rest else [[s[0]] + rest[0]] + rest[1..]
  }

  function SplitPath(path: string): seq<string> {
    var trimmed := TrimRight(TrimLeft(path, '/'), '/');
    if trimmed == "" then [] else Split(trimmed)
  }

  predicate Piece(s: string) {
    s != "" && '/' !in s
  }

  lemma {:induction false} SplitPiece(s: string, rest: string)
    requires '/' !in s
    ensures Split(s + "/" + rest) == [s] + Split(rest) && Split(s) == [s]
  {
    if s == "" {
      assert s + "/" + rest == "/" + rest && ("/" + rest)[1..] == rest;
    } else {
      assert (s + "/" + rest)[1..] == s[1..] + "/" + rest;
      SplitPiece(s[1..], rest);
      assert [s[0]] + s[1..] == s;
      assert ([s[1..]] + Split(rest))[1..] == Split(rest);
    }
  }

  lemma {:induction false} SplitJoin(parts: seq<string>)
    requires parts != [] && forall p :: p in parts ==> '/' !in p
    ensures Split(Join(parts, "/")) == parts
  {
    assert parts[0] in parts;
    SplitPiece(parts[0], Join(parts[1..], "/"));
    if |parts| > 1 {
      assert forall p :: p in parts[1..] ==> p in parts;
      SplitJoin(parts[1..]);
      assert parts == [parts[0]] + parts[1..];
    } else {
      assert parts == [parts[0]];
    }
  }

  lemma {:induction false} JoinEnds(parts: seq<string>)
    requires parts != [] && forall p :: p in parts ==> Piece(p)
    ensures var s := Join(parts, "/"); s != "" && s[0] != '/' && s[|s| - 1] != '/'
  {
    assert parts[0] in parts;
    assert parts[0][0] in parts[0] && parts[0][|parts[0]| - 1] in parts[0];
    if |parts| > 1 {
      assert forall p :: p in parts[1..] ==> p in parts;
      JoinEnds(parts[1..]);
    }
  }

  /** A path made of pieces is taken apart into those pieces. */
  lemma SplitPathOfPieces(parts: seq<string>)
    requires parts != [] && forall p :: p in parts ==> Piece(p)
    ensures SplitPath("/" + Join(parts, "/")) == parts
  {
    JoinEnds(parts);
    SplitJoin(parts);
    assert ("/" + Join(parts, "/"))[1..] == Join(parts, "/");
    assert TrimLeft(Join(parts, "/"), '/') == Join(parts, "/");
  }

  predicate Slashes(s: string) {
    forall i :: 0 <= i < |s| ==> s[i] == '/'
  }

  lemma {:induction false} TrimLeftSlashes(slashes: string, s: string)
    requires Slashes(slashes) && (s == "" || s[0] != '/')
    ensures TrimLeft(slashes + s, '/') == s
  {
    if slashes == "" {
      assert slashes + s == s;
    } else {
      assert (slashes + s)[1..] == slashes[1..] + s;
      TrimLeftSlashes(slashes[1..], s);
    }
  }

  lemma {:induction false} TrimRightSlashes(s: string, slashes: string)
    requires Slashes(slashes) && (s == "" || s[|s| - 1] != '/')
    ensures TrimRight(s + slashes, '/') == s
    decreases |slashes|
  {
    if slashes == "" {
      assert s + slashes == s;
    } else {
      var t := s + slashes;
      assert t[|t| - 1] == '/' && t[..|t| - 1] == s + slashes[..|slashes| - 1];
      TrimRightSlashes(s, slashes[..|slashes| - 1]);
    }
  }

  /** However many slashes are before and after it. */
  lemma SplitPathBetweenSlashes(leading: string, parts: seq<string>, trailing: string)
    requires Slashes(leading) && Slashes(trailing) && forall p :: p in parts ==> Piece(p)
    requires parts == [] ==> trailing == ""
    ensures SplitPath(leading + (Join(parts, "/") + trailing)) == parts
  {
    var s := Join(parts, "/");
    if parts == [] {
      assert s + trailing == "";
      TrimLeftSlashes(leading, "");
    } else {
      JoinEnds(parts);
      SplitJoin(parts);
      TrimLeftSlashes(leading, s + trailing);
      TrimRightSlashes(s, trailing);
    }
  }

  // ----- requests

  const SPECIAL_VERBS := {"proxy", "watch"}
  const VERBS_WITHOUT_SUBRESOURCES := {"proxy"}
  const NAMESPACE_SUBRESOURCES := {"status", "finalize"}

  datatype Factory = Factory(apiPrefixes: set<string>, grouplessApiPrefixes: set<string>)

  /** A request: its list options are reduced to the watch flag and the name a
      field selector asks for. */
  datatype Request = Request(verb: string, path: string, watch: bool, selectedName: Option<string>)

  datatype Info = Info(isResourceRequest: bool, path: string, verb: string, apiPrefix: string, apiGroup: string,
                       apiVersion: string, namespace: string, resource: string, subresource: string, name: string,
                       parts: seq<string>)

  function NonResource(req: Request): Info {
    Info(false, req.path, ToLower(req.verb), "", "", "", "", "", "", "", [])
  }

  function KubeVerb(httpVerb: string): string {
    if httpVerb == "POST" then "create"
    else if httpVerb == "GET" || httpVerb == "HEAD" then "get"
    else if httpVerb == "PUT" then "update"
    else if httpVerb == "PATCH" then "patch"
    else if httpVerb == "DELETE" then "delete"
    else ""
  }

  /** Without a name a get is a list or a watch, and a delete is for the collection. */
  function Adjusted(info: Info, req: Request): Info {
    var listed := if info.name == "" && info.verb == "get"
                  then info.(verb := if req.watch then "watch" else "list", name := req.selectedName.GetOr(""))
                  else info;
    if listed.name == "" && listed.verb == "delete" then listed.(verb := "deletecollection") else listed
  }

  /** What a resource path names, piece by piece. */
  datatype Target = Target(prefix: string, group: Option<string>, version: string, special: Option<string>,
                           namespace: Option<string>, resource: string, name: Option<string>,
                           subresource: Option<string>, tail: seq<string>)

  function Piecewise(o: Option<string>): seq<string> {
    match o case None => [] case Some(s) => [s]
  }

  /** The parts from the resource on. */
  function OwnParts(t: Target): seq<string> {
    [t.resource] + Piecewise(t.name) + Piecewise(t.subresource) + t.tail
  }

  function Scope(t: Target): seq<string> {
    match t.namespace case None => [] case Some(ns) => ["namespaces", ns]
  }

  function PathParts(t: Target): seq<string> {
    [t.prefix] + Piecewise(t.group) + [t.version] + Piecewise(t.special) + Scope(t) + OwnParts(t)
  }

  /** The targets that paths can name unambiguously. */
  predicate WellFormed(f: Factory, t: Target) {
    && (forall p :: p in PathParts(t) ==> Piece(p))
    && t.prefix in f.apiPrefixes
    && (t.group.None? <==> t.prefix in f.grouplessApiPrefixes)
    && (t.special.Some? ==> t.special.value == "proxy" || t.special.value == "watch")
    && (t.special.None? && t.namespace.None? ==> t.resource != "proxy" && t.resource != "watch")
    && (t.namespace.None? ==> t.resource != "namespaces")
    && (t.namespace.Some? ==> t.resource != "status" && t.resource != "finalize")
    && (t.subresource.Some? ==> t.name.Some?)
    && (t.tail != [] ==> t.subresource.Some?)
  }

  /** The request a target stands for. */
  function Described(t: Target, req: Request): Info {
    var verb := match t.special case Some(v) => v case None => KubeVerb(req.verb);
    Adjusted(
      Info(true, req.path, verb, t.prefix, t.group.GetOr(""), t.version, t.namespace.GetOr(""), t.resource,
           if verb == "proxy" then "" else t.subresource.GetOr(""), t.name.GetOr(""), OwnParts(t)),
      req)
  }

  datatype Parsed = Parsed(info: Info, failed: bool)

  /** Parsing, on the parts of the path. */
  function ParseParts(f: Factory, req: Request, all: seq<string>): Parsed {
    if |all| < 3 || all[0] !in f.apiPrefixes then Parsed(NonResource(req), false) else
    var groupless := all[0] in f.grouplessApiPrefixes;
    var prefixed := NonResource(req).(apiPrefix := all[0]);
    if !groupless && |all| < 4 then Parsed(prefixed, false) else
    var info := prefixed.(isResourceRequest := true, apiGroup := if groupless then "" else all[1],
                          apiVersion := if groupless then all[1] else all[2]);
    ParseTail(info, req, if groupless then all[2..] else all[3..])
  }

  /** What follows the version. */
  function ParseTail(info: Info, req: Request, tail: seq<string>): (r: Parsed)
    requires tail != []
    ensures r.info.isResourceRequest == info.isResourceRequest
    ensures r.failed <==> |tail| == 1 && tail[0] in SPECIAL_VERBS
  {
    if tail[0] !in SPECIAL_VERBS then Parsed(Adjusted(OnScope(info.(verb := KubeVerb(req.verb)), tail), req), false)
    else if |tail| < 2 then Parsed(info, true)
    else Parsed(Adjusted(OnScope(info.(verb := tail[0]), tail[1..]), req), false)
  }

  /** The namespace and what follows it. */
  function OnScope(info: Info, parts: seq<string>): (r: Info)
    requires parts != []
    ensures r.isResourceRequest == info.isResourceRequest
  {
    if parts[0] == "namespaces" && |parts| > 1 then
      OnParts(info.(namespace := parts[1]),
              if |parts| > 2 && parts[2] !in NAMESPACE_SUBRESOURCES then parts[2..] else parts)
    else
      OnParts(info, parts)
  }

  function OnParts(info: Info, parts: seq<string>): Info
    requires parts != []
  {
    info.(parts := parts, resource := parts[0], name := if |parts| >= 2 then parts[1] else "",
          subresource := if |parts| >= 3 && info.verb !in VERBS_WITHOUT_SUBRESOURCES then parts[2] else "")
  }

  function Parse(f: Factory, req: Request): Parsed {
    ParseParts(f, req, SplitPath(req.path))
  }

  method NewRequestInfo(f: Factory, req: Request) returns (info: Info, failed: bool)
    ensures Parsed(info, failed) == Parse(f, req)
  {
    info := NonResource(req);
    failed := false;
    var currentParts := SplitPath(req.path);
    if |currentParts| < 3 { return; }
    if currentParts[0] !in f.apiPrefixes { return; }
    info := info.(apiPrefix := currentParts[0]);
    currentParts := currentParts[1..];
    if info.apiPrefix !in f.grouplessApiPrefixes {
      if |currentParts| < 3 { return; }
      info := info.(apiGroup := currentParts[0]);
      currentParts := currentParts[1..];
    }
    info := info.(isResourceRequest := true, apiVersion := currentParts[0]);
    currentParts := currentParts[1..];
    if currentParts[0] in SPECIAL_VERBS {
      if |currentParts| < 2 { return info, true; }
      info := info.(verb := currentParts[0]);
      currentParts := currentParts[1..];
    } else {
      info := info.(verb := KubeVerb(req.verb));
    }
    info := ReadScope(info, currentParts);
    info := AdjustVerb(info, req);
  }

  /** Namespace, resource, name and subresource. */
  method ReadScope(start: Info, all: seq<string>) returns (info: Info)
    requires all != [] && start.namespace == "" && start.resource == start.name == start.subresource == ""
    ensures info == OnScope(start, all)
  {
    info := start;
    var currentParts := all;
    if currentParts[0] == "namespaces" {
      if |currentParts| > 1 {
        info := info.(namespace := currentParts[1]);
        if |currentParts| > 2 && currentParts[2] !in NAMESPACE_SUBRESOURCES {
          currentParts := currentParts[2..];
        }
      }
    } else {
      info := info.(namespace := "");
    }
    info := info.(parts := currentParts);
    if |info.parts| >= 3 && info.verb !in VERBS_WITHOUT_SUBRESOURCES {
      info := info.(subresource := info.parts[2]);
    }
    if |info.parts| >= 2 {
      info := info.(name := info.parts[1]);
    }
    if |info.parts| >= 1 {
      info := info.(resource := info.parts[0]);
    }
  }

  method AdjustVerb(start: Info, req: Request) returns (info: Info)
    ensures info == Adjusted(start, req)
  {
    info := start;
    if |info.name| == 0 && info.verb == "get" {
      if req.watch {
        info := info.(verb := "watch");
      } else {
        info := info.(verb := "list");
      }
      if req.selectedName.Some? {
        info := info.(name := req.selectedName.value);
      }
    }
    if |info.name| == 0 && info.verb == "delete" {
      info := info.(verb := "deletecollection");
    }
  }

  // ----- laws

  /** The parts before and after the version. */
  lemma LeadAndTail(f: Factory, req: Request, prefix: string, group: Option<string>, version: string, tail: seq<string>)
    requires prefix in f.apiPrefixes && (group.None? <==> prefix in f.grouplessApiPrefixes) && tail != []
    ensures ParseParts(f, req, Lead(prefix, group, version) + tail) ==
            ParseTail(Start(req, prefix, group, version), req, tail)
  {
    var all := Lead(prefix, group, version) + tail;
    assert all[if group.None? then 2 else 3..] == tail;
    assert group.Some? ==> all[1] == group.value && all[2] == version;
  }

  lemma ScopeOfTarget(info: Info, t: Target)
    requires t.namespace.None? ==> t.resource != "namespaces"
    requires t.namespace.Some? ==> t.resource !in NAMESPACE_SUBRESOURCES
    requires info.namespace == ""
    ensures OnScope(info, Scope(t) + OwnParts(t)) == OnParts(info.(namespace := t.namespace.GetOr("")), OwnParts(t))
  {
    var parts := Scope(t) + OwnParts(t);
    if t.namespace.Some? {
      assert parts[2..] == OwnParts(t) && parts[2] == t.resource;
    } else {
      assert parts == OwnParts(t);
    }
  }

  lemma OwnPartsRead(info: Info, t: Target)
    requires (t.subresource.Some? ==> t.name.Some?) && (t.tail != [] ==> t.subresource.Some?)
    ensures OnParts(info, OwnParts(t)) == info.(parts := OwnParts(t), resource := t.resource, name := t.name.GetOr(""),
              subresource := if info.verb in VERBS_WITHOUT_SUBRESOURCES then "" else t.subresource.GetOr(""))
  {
  }

  function Lead(prefix: string, group: Option<string>, version: string): seq<string> {
    [prefix] + Piecewise(group) + [version]
  }

  /** What is known of a resource request once its version is read. */
  function Start(req: Request, prefix: string, group: Option<string>, version: string): Info {
    NonResource(req).(apiPrefix := prefix, isResourceRequest := true, apiGroup := group.GetOr(""),
                      apiVersion := version)
  }

  lemma PathPartsSplit(t: Target)
    ensures PathParts(t) == Lead(t.prefix, t.group, t.version) + (Piecewise(t.special) + (Scope(t) + OwnParts(t)))
  {
    var lead := Lead(t.prefix, t.group, t.version);
    Reassociate(lead, Piecewise(t.special), Scope(t) + OwnParts(t));
    Reassociate(lead + Piecewise(t.special), Scope(t), OwnParts(t));
  }

  lemma PathParsed(f: Factory, req: Request, prefix: string, group: Option<string>, version: string, tail: seq<string>)
    requires prefix in f.apiPrefixes && (group.None? <==> prefix in f.grouplessApiPrefixes) && tail != []
    requires forall p :: p in Lead(prefix, group, version) + tail ==> Piece(p)
    requires req.path == "/" + Join(Lead(prefix, group, version) + tail, "/")
    ensures Parse(f, req) == ParseTail(Start(req, prefix, group, version), req, tail)
  {
    SplitPathOfPieces(Lead(prefix, group, version) + tail);
    LeadAndTail(f, req, prefix, group, version, tail);
  }

  /** Round trip: the path rendered for a target is parsed as that target. */
  lemma RenderParse(f: Factory, t: Target, req: Request)
    requires WellFormed(f, t) && req.path == "/" + Join(PathParts(t), "/")
    ensures Parse(f, req) == Parsed(Described(t, req), false)
  {
    PathPartsSplit(t);
    PathParsed(f, req, t.prefix, t.group, t.version, Piecewise(t.special) + (Scope(t) + OwnParts(t)));
    TargetRead(Start(req, t.prefix, t.group, t.version), t, req);
  }

  lemma BodyRead(info: Info, t: Target)
    requires info.namespace == "" && (t.namespace.None? ==> t.resource != "namespaces")
    requires t.namespace.Some? ==> t.resource != "status" && t.resource != "finalize"
    requires (t.subresource.Some? ==> t.name.Some?) && (t.tail != [] ==> t.subresource.Some?)
    ensures OnScope(info, Scope(t) + OwnParts(t)) ==
            info.(namespace := t.namespace.GetOr(""), parts := OwnParts(t), resource := t.resource,
                  name := t.name.GetOr(""),
                  subresource := if info.verb == "proxy" then "" else t.subresource.GetOr(""))
  {
    ScopeOfTarget(info, t);
    OwnPartsRead(info.(namespace := t.namespace.GetOr("")), t);
  }

  /** What follows the version of a target's path. */
  lemma TargetRead(start: Info, t: Target, req: Request)
    requires start.namespace == "" && (t.special.Some? ==> t.special.value == "proxy" || t.special.value == "watch")
    requires t.special.None? && t.namespace.None? ==> t.resource != "proxy" && t.resource != "watch"
    requires t.namespace.None? ==> t.resource != "namespaces"
    requires t.namespace.Some? ==> t.resource != "status" && t.resource != "finalize"
    requires (t.subresource.Some? ==> t.name.Some?) && (t.tail != [] ==> t.subresource.Some?)
    ensures var verb := match t.special case Some(v) => v case None => KubeVerb(req.verb);
            ParseTail(start, req, Piecewise(t.special) + (Scope(t) + OwnParts(t))) ==
            Parsed(Adjusted(start.(verb := verb, namespace := t.namespace.GetOr(""), parts := OwnParts(t),
                                   resource := t.resource, name := t.name.GetOr(""),
                                   subresource := if verb == "proxy" then "" else t.subresource.GetOr("")), req), false)
  {
    var verb := match t.special case Some(v) => v case None => KubeVerb(req.verb);
    TailRead(start, req, t.special, Scope(t) + OwnParts(t));
    BodyRead(start.(verb := verb), t);
  }

  lemma TailRead(info: Info, req: Request, special: Option<string>, body: seq<string>)
    requires body != [] && (special.Some? ==> special.value in SPECIAL_VERBS)
    requires special.None? ==> body[0] !in SPECIAL_VERBS
    ensures ParseTail(info, req, Piecewise(special) + body) ==
            var verb := match special case Some(v) => v case None => KubeVerb(req.verb);
            Parsed(Adjusted(OnScope(info.(verb := verb), body), req), false)
  {
    var tail := Piecewise(special) + body;
    assert special.Some? ==> tail[1..] == body;
    assert special.None? ==> tail == body;
  }

  /** Whether the parts after the version (and special verb) name a namespace first. */
  predicate Scoped(parts: seq<string>) {
    |parts| > 2 && parts[0] == "namespaces" && parts[2] !in NAMESPACE_SUBRESOURCES
  }

  /** The target read from what follows the version; `base` gives the rest. */
  function TailTarget(base: Target, tail: seq<string>): Target
    requires tail != [] && (tail[0] in SPECIAL_VERBS ==> |tail| > 1)
  {
    var special := if tail[0] in SPECIAL_VERBS then Some(tail[0]) else None;
    var parts := if tail[0] in SPECIAL_VERBS then tail[1..] else tail;
    var own := if Scoped(parts) then parts[2..] else parts;
    base.(special := special, namespace := if Scoped(parts) then Some(parts[1]) else None,
          resource := own[0], name := if |own| > 1 then Some(own[1]) else None,
          subresource := if |own| > 2 then Some(own[2]) else None, tail := if |own| > 3 then own[3..] else [])
  }

  lemma TailTargetRenders(base: Target, tail: seq<string>)
    requires tail != [] && (tail[0] in SPECIAL_VERBS ==> |tail| > 1)
    ensures var t := TailTarget(base, tail);
            Piecewise(t.special) + (Scope(t) + OwnParts(t)) == tail
  {
    var t := TailTarget(base, tail);
    var parts := if tail[0] in SPECIAL_VERBS then tail[1..] else tail;
    assert OwnParts(t) == if Scoped(parts) then parts[2..] else parts;
    assert Scope(t) + OwnParts(t) == parts;
  }

  function LeadLength(f: Factory, all: seq<string>): nat {
    if all != [] && all[0] in f.grouplessApiPrefixes then 2 else 3
  }

  /** A path is a resource request exactly when it has a known prefix and parts
      for a group (unless the prefix has none), a version and a resource; it
      fails exactly when a special verb is then all that is left. */
  lemma ResourceRequests(f: Factory, req: Request)
    ensures var all := SplitPath(req.path);
            var lead := LeadLength(f, all);
            && (Parse(f, req).info.isResourceRequest <==> |all| > lead && all[0] in f.apiPrefixes)
            && (Parse(f, req).failed <==>
                  |all| == lead + 1 && all[0] in f.apiPrefixes && (all[lead] == "proxy" || all[lead] == "watch"))
  {
  }

  function TargetOf(f: Factory, all: seq<string>): Target
    requires |all| > LeadLength(f, all)
    requires |all| == LeadLength(f, all) + 1 ==> all[LeadLength(f, all)] !in SPECIAL_VERBS
  {
    TailTarget(BaseTarget(f, all), all[LeadLength(f, all)..])
  }

  /** Prefix, group and version. */
  function BaseTarget(f: Factory, all: seq<string>): Target
    requires |all| > LeadLength(f, all)
  {
    var groupless := all[0] in f.grouplessApiPrefixes;
    Target(all[0], if groupless then None else Some(all[1]),
        if groupless then all[1] else all[2], None, None, "", None, None, [])
  }

  lemma LeadRenders(f: Factory, all: seq<string>)
    requires |all| > LeadLength(f, all)
    ensures var t := BaseTarget(f, all); Lead(t.prefix, t.group, t.version) == all[..LeadLength(f, all)]
  {
  }

  lemma TailRenders(base: Target, tail: seq<string>)
    requires tail != [] && (tail[0] in SPECIAL_VERBS ==> |tail| > 1)
    ensures PathParts(TailTarget(base, tail)) == Lead(base.prefix, base.group, base.version) + tail
  {
    PathPartsSplit(TailTarget(base, tail));
    TailTargetRenders(base, tail);
  }

  lemma PartsRender(f: Factory, all: seq<string>)
    requires |all| > LeadLength(f, all)
    requires |all| == LeadLength(f, all) + 1 ==> all[LeadLength(f, all)] !in SPECIAL_VERBS
    ensures PathParts(TargetOf(f, all)) == all
  {
    var n := LeadLength(f, all);
    LeadRenders(f, all);
    TailRenders(BaseTarget(f, all), all[n..]);
    assert all[..n] + all[n..] == all;
  }

  lemma TargetWellFormed(f: Factory, all: seq<string>)
    requires |all| > LeadLength(f, all) && all[0] in f.apiPrefixes
    requires |all| == LeadLength(f, all) + 1 ==> all[LeadLength(f, all)] !in SPECIAL_VERBS
    requires forall p :: p in all ==> Piece(p)
    ensures var t := TargetOf(f, all); WellFormed(f, t) || (t.namespace.None? && t.resource == "namespaces")
  {
    PartsRender(f, all);
  }

  /** The other direction: the parts of every resource path are those of a
      target, which is well formed unless it is the namespace itself. */
  lemma ParseRender(f: Factory, req: Request) returns (t: Target)
    requires Parse(f, req).info.isResourceRequest && !Parse(f, req).failed
    ensures PathParts(t) == SplitPath(req.path)
    ensures (forall p :: p in SplitPath(req.path) ==> Piece(p)) ==>
              WellFormed(f, t) || (t.namespace.None? && t.resource == "namespaces")
  {
    ResourceRequests(f, req);
    var all := SplitPath(req.path);
    t := TargetOf(f, all);
    PartsRender(f, all);
    if forall p :: p in all ==> Piece(p) { TargetWellFormed(f, all); }
  }

  function NamespaceParts(ns: string, sub: Option<string>): seq<string> {
    ["namespaces", ns] + Piecewise(sub)
  }

  lemma NamespaceScope(info: Info, ns: string, sub: Option<string>)
    requires sub.Some? ==> sub.value in NAMESPACE_SUBRESOURCES
    ensures OnScope(info, NamespaceParts(ns, sub)) ==
            info.(namespace := ns, resource := "namespaces", name := ns, parts := NamespaceParts(ns, sub),
                  subresource := if info.verb in VERBS_WITHOUT_SUBRESOURCES then "" else sub.GetOr(""))
  {
    var own := NamespaceParts(ns, sub);
    assert own[0] == "namespaces" && own[1] == ns;
    assert sub.Some? ==> own[2] == sub.value;
  }

  /** The path of a namespace, or of one of its subresources. */
  function NamespacePath(prefix: string, group: Option<string>, version: string, special: Option<string>, ns: string,
      sub: Option<string>): seq<string>
  {
    Lead(prefix, group, version) + (Piecewise(special) + NamespaceParts(ns, sub))
  }

  lemma NamespaceTail(start: Info, req: Request, special: Option<string>, ns: string, sub: Option<string>)
    requires ns != "" && (special.Some? ==> special.value in SPECIAL_VERBS)
    requires sub.Some? ==> sub.value in NAMESPACE_SUBRESOURCES
    ensures var verb := special.GetOr(KubeVerb(req.verb));
            ParseTail(start, req, Piecewise(special) + NamespaceParts(ns, sub)) ==
            Parsed(start.(verb := verb, namespace := ns, resource := "namespaces", name := ns,
                          parts := NamespaceParts(ns, sub),
                          subresource := if verb in VERBS_WITHOUT_SUBRESOURCES then "" else sub.GetOr("")), false)
  {
    var own, info := NamespaceParts(ns, sub), start.(verb := special.GetOr(KubeVerb(req.verb)));
    assert own[0] == "namespaces" && own[0] !in SPECIAL_VERBS && own[1] == ns;
    TailRead(start, req, special, own);
    NamespaceScope(info, ns, sub);
    NamedUnchanged(OnScope(info, own), req);
  }

  /** The namespace itself and its subresources: the name is the namespace. */
  lemma NamespaceItself(f: Factory, req: Request, prefix: string, group: Option<string>, version: string,
      special: Option<string>, ns: string, sub: Option<string>)
    requires prefix in f.apiPrefixes && (group.None? <==> prefix in f.grouplessApiPrefixes)
    requires forall p :: p in NamespacePath(prefix, group, version, special, ns, sub) ==> Piece(p)
    requires special.Some? ==> special.value == "proxy" || special.value == "watch"
    requires sub.Some? ==> sub.value == "status" || sub.value == "finalize"
    requires req.path == "/" + Join(NamespacePath(prefix, group, version, special, ns, sub), "/")
    ensures var verb := special.GetOr(KubeVerb(req.verb));
            Parse(f, req) ==
              Parsed(Info(true, req.path, verb, prefix, group.GetOr(""), version, ns, "namespaces",
                          if verb == "proxy" then "" else sub.GetOr(""), ns,
                          NamespaceParts(ns, sub)), false)
  {
    PathParsed(f, req, prefix, group, version, Piecewise(special) + NamespaceParts(ns, sub));
    NamespaceIsPiece(Lead(prefix, group, version), special, ns, sub);
    NamespaceTail(Start(req, prefix, group, version), req, special, ns, sub);
  }

  lemma NamespaceIsPiece(lead: seq<string>, special: Option<string>, ns: string, sub: Option<string>)
    requires forall p :: p in lead + (Piecewise(special) + NamespaceParts(ns, sub)) ==> Piece(p)
    ensures ns != ""
  {
    var before := lead + Piecewise(special);
    Reassociate(lead, Piecewise(special), NamespaceParts(ns, sub));
    assert (before + NamespaceParts(ns, sub))[|before| + 1] == ns;
    assert Piece(ns);
  }

  /** A request that names an object keeps its verb. */
  lemma NamedUnchanged(info: Info, req: Request)
    requires info.name != ""
    ensures Adjusted(info, req) == info
  {
  }

  // ----- verbs

  predicate IsRead(httpVerb: string) {
    httpVerb == "GET" || httpVerb == "HEAD"
  }

  lemma KubeVerbs(v: string)
    ensures KubeVerb(v) == "get" <==> IsRead(v)
    ensures KubeVerb(v) == "delete" <==> v == "DELETE"
    ensures (KubeVerb(v) == "create" <==> v == "POST") && (KubeVerb(v) == "update" <==> v == "PUT")
    ensures KubeVerb(v) == "patch" <==> v == "PATCH"
    ensures KubeVerb(v) !in {"watch", "list", "deletecollection"}
  {
  }

  /** What the adjustment makes of a verb that is not yet one of its results. */
  lemma AdjustedVerb(info: Info, req: Request)
    requires info.verb !in {"list", "deletecollection"}
    ensures var r := Adjusted(info, req);
            && (r.verb == "get" <==> info.verb == "get" && info.name != "")
            && (r.verb == "list" <==> info.verb == "get" && info.name == "" && !req.watch)
            && (r.verb == "watch" <==> info.verb == "watch" || (info.verb == "get" && info.name == "" && req.watch))
            && (r.verb == "delete" <==> info.verb == "delete" && info.name != "")
            && (r.verb == "deletecollection" <==> info.verb == "delete" && info.name == "")
            && (info.verb !in {"get", "delete"} ==> r.verb == info.verb)
            && (r.verb == info.verb || r.verb in {"list", "watch", "deletecollection"})
  {
  }

  lemma AdjustedName(info: Info, req: Request)
    ensures Adjusted(info, req).name ==
            if info.verb == "get" && info.name == "" then req.selectedName.GetOr("") else info.name
  {
  }

  /** A resource request is the adjustment of what its path says. */
  lemma ParsedIsAdjusted(f: Factory, req: Request) returns (info: Info)
    requires Parse(f, req).info.isResourceRequest && !Parse(f, req).failed
    ensures Parse(f, req).info == Adjusted(info, req) && info.verb !in {"list", "deletecollection"}
  {
    var all := SplitPath(req.path);
    var lead := LeadLength(f, all);
    ResourceRequests(f, req);
    var start := NonResource(req).(apiPrefix := all[0], isResourceRequest := true,
                                   apiGroup := if all[0] in f.grouplessApiPrefixes then "" else all[1],
                                   apiVersion := all[lead - 1]);
    assert Parse(f, req) == ParseTail(start, req, all[lead..]);
    info := TailInfo(start, req, all[lead..]);
  }

  lemma TailInfo(start: Info, req: Request, tail: seq<string>) returns (info: Info)
    requires tail != [] && !ParseTail(start, req, tail).failed
    ensures ParseTail(start, req, tail).info == Adjusted(info, req) && info.verb !in {"list", "deletecollection"}
  {
    KubeVerbs(req.verb);
    info := if tail[0] !in SPECIAL_VERBS then OnScope(start.(verb := KubeVerb(req.verb)), tail)
            else OnScope(start.(verb := tail[0]), tail[1..]);
  }

  /** After parsing, a single object is only read or deleted by name, and a
      collection only deleted without one. */
  lemma SinglesAreNamed(f: Factory, req: Request)
    requires Parse(f, req).info.isResourceRequest && !Parse(f, req).failed
    ensures var info := Parse(f, req).info;
            && (info.verb == "get" || info.verb == "delete" ==> info.name != "")
            && (info.verb == "deletecollection" ==> info.name == "")
            && (info.verb == "list" ==> !req.watch)
  {
    var info := ParsedIsAdjusted(f, req);
    AdjustedVerb(info, req);
    AdjustedName(info, req);
  }

  lemma NameIsPiece(t: Target)
    requires forall p :: p in PathParts(t) ==> Piece(p)
    ensures t.name.Some? ==> t.name.value != ""
  {
    if t.name.Some? {
      var before := [t.prefix] + Piecewise(t.group) + [t.version] + Piecewise(t.special) + Scope(t);
      assert PathParts(t)[|before| + 1] == t.name.value;
      assert Piece(t.name.value);
    }
  }

  /** What the verb says about the HTTP method, the path and the options, for a
      target without a special verb. */
  lemma VerbOfTarget(f: Factory, t: Target, req: Request)
    requires WellFormed(f, t) && t.special.None? && req.path == "/" + Join(PathParts(t), "/")
    ensures var info := Parse(f, req).info;
            && (info.verb == "get" <==> IsRead(req.verb) && t.name.Some?)
            && (info.verb == "watch" <==> IsRead(req.verb) && t.name.None? && req.watch)
            && (info.verb == "list" <==> IsRead(req.verb) && t.name.None? && !req.watch)
            && (info.verb == "delete" <==> req.verb == "DELETE" && t.name.Some?)
            && (info.verb == "deletecollection" <==> req.verb == "DELETE" && t.name.None?)
            && (info.verb == "create" <==> req.verb == "POST")
            && (info.verb == "update" <==> req.verb == "PUT")
            && (info.verb == "patch" <==> req.verb == "PATCH")
            && info.name == t.name.GetOr(if IsRead(req.verb) then req.selectedName.GetOr("") else "")
  {
    RenderParse(f, t, req);
    NameIsPiece(t);
    DescribedVerb(t, req);
  }

  lemma DescribedVerb(t: Target, req: Request)
    requires t.special.None? && (t.name.Some? ==> t.name.value != "")
    ensures var info := Described(t, req);
            && (info.verb == "get" <==> IsRead(req.verb) && t.name.Some?)
            && (info.verb == "watch" <==> IsRead(req.verb) && t.name.None? && req.watch)
            && (info.verb == "list" <==> IsRead(req.verb) && t.name.None? && !req.watch)
            && (info.verb == "delete" <==> req.verb == "DELETE" && t.name.Some?)
            && (info.verb == "deletecollection" <==> req.verb == "DELETE" && t.name.None?)
            && (info.verb == "create" <==> req.verb == "POST")
            && (info.verb == "update" <==> req.verb == "PUT")
            && (info.verb == "patch" <==> req.verb == "PATCH")
            && info.name == t.name.GetOr(if IsRead(req.verb) then req.selectedName.GetOr("") else "")
  {
    var verb := KubeVerb(req.verb);
    var info := Info(true, req.path, verb, t.prefix, t.group.GetOr(""), t.version, t.namespace.GetOr(""), t.resource,
                     if verb == "proxy" then "" else t.subresource.GetOr(""), t.name.GetOr(""), OwnParts(t));
    KubeVerbs(req.verb);
    AdjustedVerb(info, req);
    AdjustedName(info, req);
  }

  /** The collection of all namespaces: no namespace and no name, except one that a
      field selector asks for. */
  lemma NamespaceCollection(f: Factory, req: Request, prefix: string, group: Option<string>, version: string)
    requires prefix in f.apiPrefixes && (group.None? <==> prefix in f.grouplessApiPrefixes)
    requires forall p :: p in Lead(prefix, group, version) + ["namespaces"] ==> Piece(p)
    requires req.path == "/" + Join(Lead(prefix, group, version) + ["namespaces"], "/")
    ensures var info := Parse(f, req).info;
            && !Parse(f, req).failed && info.isResourceRequest && info.apiPrefix == prefix
            && info.apiGroup == group.GetOr("") && info.apiVersion == version
            && info.namespace == "" && info.resource == "namespaces" && info.subresource == ""
            && info.name == (if IsRead(req.verb) then req.selectedName.GetOr("") else "")
            && (info.verb == "list" <==> IsRead(req.verb) && !req.watch)
            && (info.verb == "watch" <==> IsRead(req.verb) && req.watch)
            && (info.verb == "deletecollection" <==> req.verb == "DELETE")
  {
    var start := Start(req, prefix, group, version);
    PathParsed(f, req, prefix, group, version, ["namespaces"]);
    TailRead(start, req, None, ["namespaces"]);
    assert Piecewise(None) + ["namespaces"] == ["namespaces"];
    var info := OnScope(start.(verb := KubeVerb(req.verb)), ["namespaces"]);
    KubeVerbs(req.verb);
    AdjustedVerb(info, req);
    AdjustedName(info, req);
  }
}
