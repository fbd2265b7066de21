/** Reading the scope, verb and object of a request off its path. */
module RequestPath {
  import opened Iam
  import opened Strings

  datatype Factory = Factory(apiPrefixes: set<string>, grouplessAPIPrefixes: set<string>)

  /** The decoded query parameters that matter: watch, a field selector for one name, and the raw
      label selector. */
  datatype Query = Query(watch: bool, fieldName: Option<string>, labelSelector: string)

  datatype RequestInfo = RequestInfo(
    path: string, verb: string, isResourceRequest: bool, isKubernetesRequest: bool,
    apiPrefix: string, apiGroup: string, apiVersion: string, workspace: string, namespace: string,
    resource: string, subresource: string, name: string, parts: seq<string>, scope: string)

  const WORKSPACES := "workspaces"
  const NAMESPACES := "namespaces"
  const WORKSPACE_SELECTOR_PREFIX := "ai.io/workspace="

  const KUBERNETES_API_PREFIXES := {"api", "apis"}
  const NAMESPACE_SUBRESOURCES := {"status", "finalize"}
  const SPECIAL_VERBS := {"proxy", "watch"}
  const SPECIAL_VERBS_NO_SUBRESOURCES := {"proxy"}

  function SplitPath(path: string): seq<string> {
    var p := TrimRight(TrimLeft(path, '/'), '/');
    if p == "" then [] else Split(p, '/')
  }

  function MethodVerb(verb: string): string {
    match verb
    case "POST" => "create"
    case "GET" => "get"
    case "HEAD" => "get"
    case "PUT" => "update"
    case "PATCH" => "patch"
    case "DELETE" => "delete"
    case _ => ""
  }

  function ResolveResourceScope(workspace: string, namespace: string): string {
    if namespace != "" then NAMESPACE_SCOPE else if workspace != "" then WORKSPACE_SCOPE else GLOBAL_SCOPE
  }

  function WithKubernetes(info: RequestInfo): RequestInfo {
    var parts := SplitPath(info.path);
    var prefix := if info.apiPrefix == "" && 0 < |parts| < 3 then parts[0] else info.apiPrefix;
    info.(isKubernetesRequest := prefix in KUBERNETES_API_PREFIXES)
  }

  function Unparsed(path: string, verb: string): RequestInfo {
    RequestInfo(path, verb, false, false, "", "", "", "", "", "", "", "", [], "")
  }

  /** "workspaces/w" in front of more is consumed. */
  function TakeWorkspace(parts: seq<string>): (r: (string, seq<string>))
    requires parts != []
    ensures r.1 != []
  {
    (if parts[0] == WORKSPACES && |parts| > 1 then parts[1] else "",
     if parts[0] == WORKSPACES && |parts| > 2 then parts[2..] else parts)
  }

  /** "namespaces/n" in front of more is consumed, unless what follows is a part of the namespace. */
  function TakeNamespace(parts: seq<string>): (r: (string, seq<string>))
    requires parts != []
    ensures r.1 != []
  {
    (if parts[0] == NAMESPACES && |parts| > 1 then parts[1] else "",
     if parts[0] == NAMESPACES && |parts| > 2 && parts[2] !in NAMESPACE_SUBRESOURCES then parts[2..] else parts)
  }

  /** Resource, name and subresource are the first three parts. */
  function Named(info: RequestInfo, parts: seq<string>): RequestInfo
    requires parts != []
  {
    info.(parts := parts,
          resource := parts[0],
          name := if |parts| >= 2 then parts[1] else "",
          subresource := if |parts| >= 3 && info.verb !in SPECIAL_VERBS_NO_SUBRESOURCES then parts[2] else "",
          scope := ResolveResourceScope(info.workspace, info.namespace))
  }

  /** The final verb, and what selectors in the query add. */
  function Selected(info: RequestInfo, q: Query): RequestInfo {
    var listed :=
      if info.name == "" && info.verb == "get" then
        info.(verb := if q.watch then "watch" else "list", name := q.fieldName.GetOr(""))
      else info;
    var watched :=
      if listed.verb == "watch" && HasPrefix(q.labelSelector, WORKSPACE_SELECTOR_PREFIX) then
        listed.(workspace := q.labelSelector[|WORKSPACE_SELECTOR_PREFIX|..], scope := WORKSPACE_SCOPE)
      else listed;
    if watched.name == "" && watched.verb == "delete" then watched.(verb := "deletecollection") else watched
  }

  /** Reading what follows the version; false is the error "unable to determine kind". */
  function ParseTail(info: RequestInfo, parts: seq<string>, q: Query): (RequestInfo, bool)
    requires parts != []
  {
    var special := parts[0] in SPECIAL_VERBS;
    if special && |parts| < 2 then (info, false)
    else
      var (workspace, inWorkspace) := TakeWorkspace(if special then parts[1..] else parts);
      var (namespace, objectParts) := TakeNamespace(inWorkspace);
      var verb := if special then parts[0] else MethodVerb(info.verb);
      (Selected(Named(info.(verb := verb, workspace := workspace, namespace := namespace), objectParts), q), true)
  }

  function ParseParts(f: Factory, info: RequestInfo, parts: seq<string>, q: Query): (RequestInfo, bool) {
    if |parts| < 3 || parts[0] !in f.apiPrefixes then (info, true)
    else if parts[0] in f.grouplessAPIPrefixes then
      ParseTail(info.(apiPrefix := parts[0], isResourceRequest := true, apiVersion := parts[1]), parts[2..], q)
    else if |parts| < 4 then (info.(apiPrefix := parts[0]), true)
    else
      ParseTail(info.(apiPrefix := parts[0], apiGroup := parts[1], isResourceRequest := true, apiVersion := parts[2]),
                parts[3..], q)
  }

  function Parse(f: Factory, path: string, verb: string, q: Query): (RequestInfo, bool) {
    var (info, ok) := ParseParts(f, Unparsed(path, verb), SplitPath(path), q);
    (WithKubernetes(info), ok)
  }

  /** No path makes this index out of range: every access below is checked. */
  method NewRequestInfo(f: Factory, path: string, httpMethod: string, q: Query) returns (info: RequestInfo, ok: bool)
    ensures (info, ok) == Parse(f, path, httpMethod, q)
  {
    info, ok := ReadParts(f, path, httpMethod, q);
    info := WithKubernetes(info);
  }

  method ReadParts(f: Factory, path: string, httpMethod: string, q: Query) returns (info: RequestInfo, ok: bool)
    ensures (info, ok) == ParseParts(f, Unparsed(path, httpMethod), SplitPath(path), q)
  {
    ok := true;
    info := Unparsed(path, httpMethod);
    var currentParts := SplitPath(path);
    if |currentParts| < 3 {
      return;
    }
    if currentParts[0] !in f.apiPrefixes {
      return;
    }
    info := info.(apiPrefix := currentParts[0]);
    currentParts := currentParts[1..];
    if info.apiPrefix !in f.grouplessAPIPrefixes {
      if |currentParts| < 3 {
        return;
      }
      info := info.(apiGroup := currentParts[0]);
      currentParts := currentParts[1..];
    }
    info := info.(isResourceRequest := true, apiVersion := currentParts[0]);
    currentParts := currentParts[1..];
    info, ok := ReadTail(info, currentParts, q);
  }

  method ReadTail(info0: RequestInfo, parts: seq<string>, q: Query) returns (info: RequestInfo, ok: bool)
    requires parts != []
    ensures (info, ok) == ParseTail(info0, parts, q)
  {
    info, ok := info0, true;
    var currentParts := parts;
    if currentParts[0] in SPECIAL_VERBS {
      if |currentParts| < 2 {
        return info, false;
      }
      info := info.(verb := currentParts[0]);
      currentParts := currentParts[1..];
    } else {
      info := info.(verb := MethodVerb(info.verb));
    }
    var workspace, namespace;
    workspace, namespace, currentParts := ReadScope(currentParts);
    info := ReadObject(info.(workspace := workspace, namespace := namespace), currentParts);
    info := ReadSelectors(info, q);
  }

  method ReadScope(parts: seq<string>) returns (workspace: string, namespace: string, currentParts: seq<string>)
    requires parts != []
    ensures currentParts != []
    ensures var (w, rest) := TakeWorkspace(parts); workspace == w && (namespace, currentParts) == TakeNamespace(rest)
  {
    workspace, namespace, currentParts := "", "", parts;
    if currentParts[0] == WORKSPACES {
      if |currentParts| > 1 {
        workspace := currentParts[1];
      }
      if |currentParts| > 2 {
        currentParts := currentParts[2..];
      }
    }
    if currentParts[0] == NAMESPACES {
      if |currentParts| > 1 {
        namespace := currentParts[1];
        if |currentParts| > 2 && currentParts[2] !in NAMESPACE_SUBRESOURCES {
          currentParts := currentParts[2..];
        }
      }
    }
  }

  method ReadObject(info0: RequestInfo, parts: seq<string>) returns (info: RequestInfo)
    requires parts != []
    ensures info == Named(info0, parts)
  {
    info := info0.(parts := parts, resource := parts[0], name := "", subresource := "");
    if |parts| >= 3 && info.verb !in SPECIAL_VERBS_NO_SUBRESOURCES {
      info := info.(subresource := parts[2]);
    }
    if |parts| >= 2 {
      info := info.(name := parts[1]);
    }
    info := info.(scope := ResolveResourceScope(info.workspace, info.namespace));
  }

  method ReadSelectors(info0: RequestInfo, q: Query) returns (info: RequestInfo)
    ensures info == Selected(info0, q)
  {
    info := info0;
    if |info.name| == 0 && info.verb == "get" {
      info := info.(verb := if q.watch then "watch" else "list");
      if q.fieldName.Some? {
        info := info.(name := q.fieldName.value);
      }
    }
    if info.verb == "watch" {
      if HasPrefix(q.labelSelector, WORKSPACE_SELECTOR_PREFIX) {
        info := info.(workspace := q.labelSelector[|WORKSPACE_SELECTOR_PREFIX|..], scope := WORKSPACE_SCOPE);
      }
    }
    if |info.name| == 0 && info.verb == "delete" {
      info := info.(verb := "deletecollection");
    }
  }

  // ---- rendering ----

  /** The address of an object or a collection. */
  datatype Locator = Locator(
    prefix: string, group: Option<string>, version: string, workspace: Option<string>, namespace: Option<string>,
    resource: string, name: Option<string>, subresource: Option<string>)

  function OptionalPart(p: Option<string>): seq<string> {
    if p.Some? then [p.value] else []
  }

  function OptionalPair(key: string, p: Option<string>): seq<string> {
    if p.Some? then [key, p.value] else []
  }

  function ObjectParts(l: Locator): seq<string> {
    [l.resource] + OptionalPart(l.name) + OptionalPart(l.subresource)
  }

  function NamespaceParts(l: Locator): seq<string> {
    OptionalPair("namespaces", l.namespace) + ObjectParts(l)
  }

  function TailParts(l: Locator): seq<string> {
    OptionalPair("workspaces", l.workspace) + NamespaceParts(l)
  }

  function HeadParts(l: Locator): seq<string> {
    [l.prefix] + OptionalPart(l.group) + [l.version]
  }

  function Parts(l: Locator): seq<string> {
    HeadParts(l) + TailParts(l)
  }

  function Render(l: Locator): string {
    "/" + Join(Parts(l), '/')
  }

  /** The address with a special verb in front of what follows the version. */
  function RenderSpecial(l: Locator, verb: string): string {
    "/" + Join(HeadParts(l) + [verb] + TailParts(l), '/')
  }

  predicate Segment(s: string) {
    s != "" && '/' !in s
  }

  /** An address the server's prefixes admit, made of proper path segments. */
  ghost predicate Proper(l: Locator, f: Factory) {
    && l.prefix in f.apiPrefixes && (l.group.Some? <==> l.prefix !in f.grouplessAPIPrefixes)
    && (l.subresource.Some? ==> l.name.Some?)
    && forall p :: p in Parts(l) ==> Segment(p)
  }

  function ScopeOf(l: Locator): string {
    if l.namespace.Some? then NAMESPACE_SCOPE else if l.workspace.Some? then WORKSPACE_SCOPE else GLOBAL_SCOPE
  }

  /** What a request asks for whose path is an address: to watch or list what it addresses, and which
      workspace a watch is restricted to. */
  function VerbFor(httpMethod: string, named: bool, watch: bool): string {
    match httpMethod
    case "GET" => if named then "get" else if watch then "watch" else "list"
    case "HEAD" => if named then "get" else if watch then "watch" else "list"
    case "POST" => "create"
    case "PUT" => "update"
    case "PATCH" => "patch"
    case "DELETE" => if named then "delete" else "deletecollection"
    case _ => ""
  }

  /** The name a collection is narrowed to by its field selector, if it is read. */
  function SelectedName(httpMethod: string, q: Query): string {
    if httpMethod in {"GET", "HEAD"} then q.fieldName.GetOr("") else ""
  }

  predicate RestrictedWatch(verb: string, q: Query) {
    verb == "watch" && HasPrefix(q.labelSelector, "ai.io/workspace=")
  }

  /** Parsing an address yields its fields, what it asks for, and the scope. */
  predicate Describes(info: RequestInfo, l: Locator, httpMethod: string, q: Query) {
    && DescribesObject(info, l)
    && info.name == l.name.GetOr(SelectedName(httpMethod, q))
    && info.subresource == l.subresource.GetOr("")
    && info.verb == VerbFor(httpMethod, l.name.Some?, q.watch)
    && DescribesScope(info, l, q)
  }

  predicate DescribesObject(info: RequestInfo, l: Locator) {
    && info.isResourceRequest
    && info.apiPrefix == l.prefix && info.apiGroup == l.group.GetOr("") && info.apiVersion == l.version
    && info.namespace == l.namespace.GetOr("") && info.resource == l.resource && info.parts == ObjectParts(l)
  }

  predicate DescribesScope(info: RequestInfo, l: Locator, q: Query) {
    if RestrictedWatch(info.verb, q) then
      q.labelSelector == "ai.io/workspace=" + info.workspace && info.scope == WORKSPACE_SCOPE
    else info.workspace == l.workspace.GetOr("") && info.scope == ScopeOf(l)
  }

  /** Which resource names the path grammar leaves free: after a namespace those that are not parts
      of the namespace itself; otherwise "namespaces" only as a collection, and right after the
      version "workspaces" only as a collection and no special verb. */
  predicate Unreserved(l: Locator) {
    && NamespaceFree(l) && WorkspaceFree(l)
    && (l.namespace == None && l.workspace == None ==> l.resource !in {"proxy", "watch"})
  }

  predicate NamespaceFree(l: Locator) {
    if l.namespace.Some? then l.resource !in {"status", "finalize"} else l.resource == "namespaces" ==> l.name == None
  }

  predicate WorkspaceFree(l: Locator) {
    l.workspace == None && l.namespace == None && l.resource == "workspaces" ==> l.name == None
  }

  const NO_SELECTORS := Query(false, None, "")

  lemma {:induction false} JoinEnds(parts: seq<string>)
    requires parts != [] && forall p :: p in parts ==> Segment(p)
    ensures var s := Join(parts, '/'); s != "" && s[0] != '/' && s[|s| - 1] != '/'
  {
    assert Segment(parts[0]) && parts[0][0] in parts[0] && parts[0][|parts[0]| - 1] in parts[0];
    if |parts| > 1 {
      JoinEnds(parts[1..]);
    }
  }

  /** A path made of proper segments splits into them. */
  lemma SplitSegments(parts: seq<string>)
    requires parts != [] && forall p :: p in parts ==> Segment(p)
    ensures SplitPath("/" + Join(parts, '/')) == parts
  {
    var s := Join(parts, '/');
    var path := "/" + s;
    JoinEnds(parts);
    assert path[1..] == s;
    assert TrimLeft(path, '/') == TrimLeft(s, '/') == s;
    assert TrimRight(s, '/') == s;
    SplitJoin(parts, '/');
  }

  /** The rendered path splits into the parts it was made of. */
  lemma SplitRender(l: Locator, f: Factory)
    requires Proper(l, f)
    ensures SplitPath(Render(l)) == Parts(l)
  {
    SplitSegments(Parts(l));
  }

  /** Taking the namespace off leaves the object exactly when the resource name is free there. */
  lemma NamespaceTaken(l: Locator)
    requires l.subresource.Some? ==> l.name.Some?
    requires forall p :: p in NamespaceParts(l) ==> p != ""
    ensures var free := NamespaceFree(l);
            var (namespace, rest) := TakeNamespace(NamespaceParts(l));
            && (free ==> namespace == l.namespace.GetOr("") && rest == ObjectParts(l))
            && (!free ==> namespace != l.namespace.GetOr("") || rest[0] != l.resource)
  {
    var parts := NamespaceParts(l);
    if l.namespace.Some? {
      assert parts[0] == NAMESPACES && parts[1] == l.namespace.value && parts[2] == l.resource &&
          parts[2..] == ObjectParts(l);
    } else {
      assert parts == ObjectParts(l);
      if l.name.Some? {
        assert parts[1] in parts;
      }
    }
  }

  lemma WorkspaceTaken(l: Locator)
    requires l.subresource.Some? ==> l.name.Some?
    requires forall p :: p in TailParts(l) ==> p != ""
    ensures var free := WorkspaceFree(l);
            var (workspace, rest) := TakeWorkspace(TailParts(l));
            && (free ==> workspace == l.workspace.GetOr("") && rest == NamespaceParts(l))
            && (!free ==> workspace != l.workspace.GetOr(""))
  {
    var parts := TailParts(l);
    if l.workspace.Some? {
      assert parts[0] == WORKSPACES && parts[1] == l.workspace.value && parts[2..] == NamespaceParts(l);
    } else {
      assert parts == NamespaceParts(l);
      if l.namespace == None && l.name.Some? {
        assert parts[1] == l.name.value && parts[1] in parts;
      }
    }
  }

  /** With everything in front of it taken off, the object part gives resource, name and subresource. */
  lemma ObjectNamed(info: RequestInfo, l: Locator)
    requires l.subresource.Some? ==> l.name.Some?
    requires info.verb !in SPECIAL_VERBS_NO_SUBRESOURCES
    ensures var r := Named(info, ObjectParts(l));
            r.resource == l.resource && r.name == l.name.GetOr("") && r.subresource == l.subresource.GetOr("")
  {}

  lemma TailHead(l: Locator)
    ensures TailParts(l)[0] in SPECIAL_VERBS <==>
        l.workspace == None && l.namespace == None && l.resource in SPECIAL_VERBS
  {}

  lemma VerbsApart(httpMethod: string, named: bool, watch: bool)
    ensures MethodVerb(httpMethod) !in SPECIAL_VERBS
    ensures VerbFor(httpMethod, named, watch) == "watch" ==> !named
    ensures VerbFor(httpMethod, named, watch) != "proxy"
  {}

  /** What the query adds to a request with the verb of its HTTP method, and to one with a special verb. */
  lemma SelectedMeans(info: RequestInfo, httpMethod: string, q: Query)
    ensures var r := Selected(info, q);
            && r == info.(verb := r.verb, name := r.name, workspace := r.workspace, scope := r.scope)
            && (if RestrictedWatch(r.verb, q) then
                  q.labelSelector == "ai.io/workspace=" + r.workspace && r.scope == WORKSPACE_SCOPE
                else r.workspace == info.workspace && r.scope == info.scope)
            && (info.verb == MethodVerb(httpMethod) ==>
                  && r.verb == VerbFor(httpMethod, info.name != "", q.watch)
                  && r.name == if info.name != "" then info.name else SelectedName(httpMethod, q))
            && (info.verb in SPECIAL_VERBS ==> r.verb == info.verb && r.name == info.name)
  {}

  /** A tail that starts with a special verb describes no address, if anything follows it only for
      named objects: its verb stays. */
  lemma SpecialTail(info: RequestInfo, parts: seq<string>, l: Locator, httpMethod: string, q: Query)
    requires parts != [] && parts[0] in SPECIAL_VERBS && (|parts| >= 2 ==> l.name.Some?)
    ensures var (r, ok) := ParseTail(info, parts, q);
            !(ok && Describes(r, l, httpMethod, q))
  {
    VerbsApart(httpMethod, l.name.Some?, q.watch);
    hide TakeWorkspace, TakeNamespace, MethodVerb, VerbFor, Selected;
    if |parts| >= 2 {
      var (workspace, rest) := TakeWorkspace(parts[1..]);
      var (namespace, objectParts) := TakeNamespace(rest);
      SelectedMeans(Named(info.(verb := parts[0], workspace := workspace, namespace := namespace), objectParts),
                    httpMethod, q);
    }
  }

  lemma TailOfOne(l: Locator)
    requires TailParts(l)[0] in SPECIAL_VERBS && |TailParts(l)| >= 2 && (l.subresource.Some? ==> l.name.Some?)
    ensures l.name.Some?
  {}

  /** The parsed tail describes the address exactly when its resource name is not reserved. */
  lemma TailParsed(info: RequestInfo, l: Locator, httpMethod: string, q: Query)
    requires l.subresource.Some? ==> l.name.Some?
    requires forall p :: p in TailParts(l) ==> p != ""
    requires info.isResourceRequest && info.verb == httpMethod
    requires info.apiPrefix == l.prefix && info.apiGroup == l.group.GetOr("") && info.apiVersion == l.version
    ensures var (r, ok) := ParseTail(info, TailParts(l), q);
            (ok && Describes(r, l, httpMethod, q)) <==> Unreserved(l)
  {
    TailHead(l);
    var parts := TailParts(l);
    if parts[0] in SPECIAL_VERBS {
      if |parts| >= 2 {
        TailOfOne(l);
      }
      SpecialTail(info, parts, l, httpMethod, q);
      hide ParseTail, Describes, TailParts, WorkspaceFree, NamespaceFree;
    } else {
      PlainTail(info, l, httpMethod, q);
    }
  }

  lemma TailPath(info: RequestInfo, parts: seq<string>, q: Query)
    requires parts != []
    ensures var r := ParseTail(info, parts, q).0; r.path == info.path && r.apiPrefix == info.apiPrefix
  {
    hide TakeWorkspace, TakeNamespace, MethodVerb;
  }

  /** What is taken off in front of the object: the workspace and the namespace of the address exactly
      if the resource name is free. */
  lemma ScopeTaken(l: Locator)
    requires l.subresource.Some? ==> l.name.Some?
    requires forall p :: p in TailParts(l) ==> p != ""
    ensures var (w, rest) := TakeWorkspace(TailParts(l));
            var (n, parts) := TakeNamespace(rest);
            && (NamespaceFree(l) && WorkspaceFree(l) ==>
                  w == l.workspace.GetOr("") && n == l.namespace.GetOr("") && parts == ObjectParts(l))
            && (!WorkspaceFree(l) ==> l.workspace == None && l.name.Some? && w != "")
            && (!NamespaceFree(l) && WorkspaceFree(l) ==> n != l.namespace.GetOr("") || parts[0] != l.resource)
  {
    WorkspaceTaken(l);
    ValuesInTail(l);
    NamespaceTaken(l);
    hide TailParts, NamespaceParts, TakeWorkspace, TakeNamespace, ObjectParts, NamespaceFree;
  }

  /** The object of the address in the scope of the address. */
  lemma ObjectDescribed(info: RequestInfo, l: Locator, httpMethod: string, q: Query)
    requires (l.subresource.Some? ==> l.name.Some?) && l.name != Some("")
    requires info.isResourceRequest && info.verb == MethodVerb(httpMethod)
    requires info.apiPrefix == l.prefix && info.apiGroup == l.group.GetOr("") && info.apiVersion == l.version
    requires info.workspace == l.workspace.GetOr("") && info.namespace == l.namespace.GetOr("")
    requires l.workspace != Some("") && l.namespace != Some("")
    ensures Describes(Selected(Named(info, ObjectParts(l)), q), l, httpMethod, q)
  {
    VerbsApart(httpMethod, l.name.Some?, q.watch);
    ObjectNamed(info, l);
    SelectedMeans(Named(info, ObjectParts(l)), httpMethod, q);
    hide ObjectParts, MethodVerb, VerbFor, Selected, HasPrefix, SelectedName;
  }

  lemma PlainTail(info: RequestInfo, l: Locator, httpMethod: string, q: Query)
    requires l.subresource.Some? ==> l.name.Some?
    requires forall p :: p in TailParts(l) ==> p != ""
    requires info.isResourceRequest && info.verb == httpMethod && TailParts(l)[0] !in SPECIAL_VERBS
    requires info.apiPrefix == l.prefix && info.apiGroup == l.group.GetOr("") && info.apiVersion == l.version
    ensures var (r, ok) := ParseTail(info, TailParts(l), q);
            (ok && Describes(r, l, httpMethod, q)) <==> NamespaceFree(l) && WorkspaceFree(l)
  {
    ScopeTaken(l);
    ValuesInTail(l);
    var (workspace, rest) := TakeWorkspace(TailParts(l));
    var (namespace, parts) := TakeNamespace(rest);
    var scoped := info.(verb := MethodVerb(httpMethod), workspace := workspace, namespace := namespace);
    hide TailParts, NamespaceParts, TakeWorkspace, TakeNamespace, MethodVerb, VerbFor, Selected, ObjectParts, HasPrefix,
         SelectedName, WorkspaceFree, NamespaceFree;
    if NamespaceFree(l) && WorkspaceFree(l) {
      ObjectDescribed(scoped, l, httpMethod, q);
    } else {
      VerbsApart(httpMethod, l.name.Some?, q.watch);
      SelectedMeans(Named(scoped, parts), httpMethod, q);
    }
  }

  lemma ValuesInTail(l: Locator)
    requires forall p :: p in TailParts(l) ==> p != ""
    ensures forall p :: p in NamespaceParts(l) ==> p != ""
    ensures l.workspace != Some("") && l.namespace != Some("") && l.name != Some("") && l.resource != ""
  {
    assert forall p :: p in NamespaceParts(l) ==> p in TailParts(l);
    assert l.resource in NamespaceParts(l);
    assert l.name.Some? ==> l.name.value in NamespaceParts(l);
    assert l.namespace.Some? ==> l.namespace.value in NamespaceParts(l);
    assert l.workspace.Some? ==> l.workspace.value in TailParts(l);
  }

  /** What is known when the version has been read. */
  function Headed(l: Locator, path: string, httpMethod: string): RequestInfo {
    Unparsed(path, httpMethod).(apiPrefix := l.prefix, apiGroup := l.group.GetOr(""), isResourceRequest := true,
                                apiVersion := l.version)
  }

  /** The tail starts behind the version, with or without an API group. */
  lemma HeadTaken(l: Locator, f: Factory, tail: seq<string>, path: string, httpMethod: string, q: Query)
    requires l.prefix in f.apiPrefixes && (l.group.Some? <==> l.prefix !in f.grouplessAPIPrefixes) && tail != []
    ensures ParseParts(f, Unparsed(path, httpMethod), HeadParts(l) + tail, q)
         == ParseTail(Headed(l, path, httpMethod), tail, q)
  {
    hide ParseTail;
    var parts := HeadParts(l) + tail;
    if l.group.Some? {
      assert parts == [l.prefix, l.group.value, l.version] + tail;
      assert parts[3..] == tail && parts[0] == l.prefix && parts[1] == l.group.value && parts[2] == l.version;
    } else {
      assert parts == [l.prefix, l.version] + tail;
      assert parts[2..] == tail && parts[0] == l.prefix && parts[1] == l.version;
    }
  }

  lemma TailInParts(l: Locator, f: Factory)
    requires Proper(l, f)
    ensures forall p :: p in TailParts(l) ==> p != ""
    ensures l.subresource.Some? ==> l.name.Some?
  {
    hide TailParts;
    forall p | p in TailParts(l)
      ensures p != ""
    {
      assert p in Parts(l) && Segment(p);
    }
  }

  /** Rendering an address and parsing the path gives the address back, whatever the query, with what
      is asked for and the scope, exactly when the resource name is not reserved in its place. */
  lemma RoundTrip(l: Locator, f: Factory, httpMethod: string, q: Query)
    requires Proper(l, f)
    ensures var (info, ok) := Parse(f, Render(l), httpMethod, q);
            && ((ok && Describes(info, l, httpMethod, q)) <==> Unreserved(l))
            && info.path == Render(l)
            && (info.isKubernetesRequest <==> l.prefix in {"api", "apis"})
  {
    SplitRender(l, f);
    TailInParts(l, f);
    TailNotEmpty(l);
    PrefixNotEmpty(l, f);
    hide HeadParts, TailParts, ParseTail, ParseParts, Render, SplitPath, Unreserved, Proper;
    HeadTaken(l, f, TailParts(l), Render(l), httpMethod, q);
    TailParsed(Headed(l, Render(l), httpMethod), l, httpMethod, q);
    TailPath(Headed(l, Render(l), httpMethod), TailParts(l), q);
    var info := ParseTail(Headed(l, Render(l), httpMethod), TailParts(l), q).0;
    hide DescribesScope, DescribesObject, VerbFor, SelectedName;
    KubernetesAside(info, l, httpMethod, "", q);
  }

  /** Whether a request is for Kubernetes is written down beside what it asks for. */
  lemma KubernetesAside(info: RequestInfo, l: Locator, httpMethod: string, verb: string, q: Query)
    ensures Describes(WithKubernetes(info), l, httpMethod, q) <==> Describes(info, l, httpMethod, q)
    ensures DescribesSpecial(WithKubernetes(info), l, verb, q) <==> DescribesSpecial(info, l, verb, q)
    ensures WithKubernetes(info).path == info.path
    ensures info.apiPrefix != "" ==> (WithKubernetes(info).isKubernetesRequest <==> info.apiPrefix in {"api", "apis"})
  {
    hide SplitPath, ObjectParts, VerbFor, SelectedName, HasPrefix;
  }

  lemma TailNotEmpty(l: Locator)
    ensures TailParts(l) != []
  {}

  lemma PrefixNotEmpty(l: Locator, f: Factory)
    requires Proper(l, f)
    ensures l.prefix != ""
  {
    assert HeadParts(l)[0] == l.prefix && Parts(l)[0] == l.prefix;
    assert Segment(Parts(l)[0]);
  }

  /** What a path with a special verb in front of an address means. */
  predicate DescribesSpecial(info: RequestInfo, l: Locator, verb: string, q: Query) {
    && DescribesObject(info, l)
    && info.name == l.name.GetOr("")
    && info.subresource == (if verb == "proxy" then "" else l.subresource.GetOr(""))
    && info.verb == verb
    && DescribesScope(info, l, q)
  }

  /** With a special verb in front the address is read off as without, whatever the HTTP method; the
      verb stays, a proxy request has no subresource, and a watch can be restricted to a workspace. */
  lemma SpecialRoundTrip(l: Locator, f: Factory, verb: string, httpMethod: string, q: Query)
    requires Proper(l, f) && verb in {"proxy", "watch"} && NamespaceFree(l) && WorkspaceFree(l)
    ensures var (info, ok) := Parse(f, RenderSpecial(l, verb), httpMethod, q);
            && ok && DescribesSpecial(info, l, verb, q)
            && info.path == RenderSpecial(l, verb)
            && (info.isKubernetesRequest <==> l.prefix in {"api", "apis"})
  {
    TailInParts(l, f);
    PrefixNotEmpty(l, f);
    var tail := [verb] + TailParts(l);
    assert HeadParts(l) + [verb] + TailParts(l) == HeadParts(l) + tail;
    forall p | p in HeadParts(l) + tail
      ensures Segment(p)
    {
      assert p == verb || p in Parts(l);
    }
    SplitSegments(HeadParts(l) + tail);
    hide HeadParts, TailParts, ParseTail, ParseParts, SplitPath, RenderSpecial, DescribesSpecial, Proper;
    var path := RenderSpecial(l, verb);
    HeadTaken(l, f, tail, path, httpMethod, q);
    SpecialTailParsed(Headed(l, path, httpMethod), l, verb, httpMethod, q);
    TailPath(Headed(l, path, httpMethod), tail, q);
    KubernetesAside(ParseTail(Headed(l, path, httpMethod), tail, q).0, l, httpMethod, verb, q);
  }

  lemma ObjectDescribedSpecial(info: RequestInfo, l: Locator, verb: string, httpMethod: string, q: Query)
    requires (l.subresource.Some? ==> l.name.Some?) && verb in {"proxy", "watch"}
    requires info.isResourceRequest && info.verb == verb
    requires info.apiPrefix == l.prefix && info.apiGroup == l.group.GetOr("") && info.apiVersion == l.version
    requires info.workspace == l.workspace.GetOr("") && info.namespace == l.namespace.GetOr("")
    requires l.workspace != Some("") && l.namespace != Some("")
    ensures DescribesSpecial(Selected(Named(info, ObjectParts(l)), q), l, verb, q)
  {
    ObjectNamedSpecial(info, l);
    SelectedMeans(Named(info, ObjectParts(l)), httpMethod, q);
    hide ObjectParts, MethodVerb, Selected, HasPrefix;
  }

  lemma ObjectNamedSpecial(info: RequestInfo, l: Locator)
    requires l.subresource.Some? ==> l.name.Some?
    ensures var r := Named(info, ObjectParts(l));
            && r == info.(parts := ObjectParts(l), resource := l.resource, name := l.name.GetOr(""),
                          subresource := r.subresource, scope := r.scope)
            && r.subresource == (if info.verb == "proxy" then "" else l.subresource.GetOr(""))
            && r.scope == ResolveResourceScope(info.workspace, info.namespace)
  {}

  lemma SpecialTailParsed(info: RequestInfo, l: Locator, verb: string, httpMethod: string, q: Query)
    requires (l.subresource.Some? ==> l.name.Some?) && verb in {"proxy", "watch"}
    requires NamespaceFree(l) && WorkspaceFree(l)
    requires forall p :: p in TailParts(l) ==> p != ""
    requires info.isResourceRequest
    requires info.apiPrefix == l.prefix && info.apiGroup == l.group.GetOr("") && info.apiVersion == l.version
    ensures var (r, ok) := ParseTail(info, [verb] + TailParts(l), q);
            ok && DescribesSpecial(r, l, verb, q)
  {
    ScopeTaken(l);
    ValuesInTail(l);
    TailNotEmpty(l);
    assert ([verb] + TailParts(l))[1..] == TailParts(l);
    var (workspace, rest) := TakeWorkspace(TailParts(l));
    var (namespace, parts) := TakeNamespace(rest);
    hide TailParts, NamespaceParts, TakeWorkspace, TakeNamespace, MethodVerb, Selected, HasPrefix, ObjectParts,
         DescribesSpecial, WorkspaceFree, NamespaceFree;
    ObjectDescribedSpecial(info.(verb := verb, workspace := workspace, namespace := namespace), l, verb, httpMethod, q);
  }

  /** Every path, whatever it means, is kept; it is a resource request exactly if it has a known
      prefix and enough parts, is for Kubernetes exactly by its prefix, and fails to parse exactly if
      it ends in a special verb right behind the version. Other requests have nothing read off. */
  lemma EveryPath(f: Factory, path: string, httpMethod: string, q: Query)
    ensures var (info, ok) := Parse(f, path, httpMethod, q);
            var p := SplitPath(path);
            var head := if p != [] && p[0] in f.grouplessAPIPrefixes then 2 else 3;
            && info.path == path
            && (info.isResourceRequest <==> |p| > head && p[0] in f.apiPrefixes)
            && (info.isKubernetesRequest <==> p != [] && p[0] in {"api", "apis"} && (|p| < 3 || p[0] in f.apiPrefixes))
            && (!ok <==> info.isResourceRequest && |p| == head + 1 && p[head] in {"proxy", "watch"})
            && (!info.isResourceRequest ==>
                  && info.verb == httpMethod && info.scope == "" && info.resource == "" && info.name == ""
                  && info.namespace == "" && info.workspace == "" && info.apiGroup == "" && info.apiVersion == ""
                  && info.subresource == "" && info.parts == []
                  && info.apiPrefix == if |p| >= 3 && p[0] in f.apiPrefixes then p[0] else "")
  {
    var p := SplitPath(path);
    SplitPathParts(path);
    if |p| >= 3 && p[0] in f.apiPrefixes {
      var info := Unparsed(path, httpMethod);
      hide SplitPath, TakeWorkspace, TakeNamespace, MethodVerb, Selected;
      if p[0] in f.grouplessAPIPrefixes {
        TailPath(info.(apiPrefix := p[0], isResourceRequest := true, apiVersion := p[1]), p[2..], q);
        TailFails(info.(apiPrefix := p[0], isResourceRequest := true, apiVersion := p[1]), p[2..], q);
      } else if |p| >= 4 {
        TailPath(info.(apiPrefix := p[0], apiGroup := p[1], isResourceRequest := true, apiVersion := p[2]), p[3..], q);
        TailFails(info.(apiPrefix := p[0], apiGroup := p[1], isResourceRequest := true, apiVersion := p[2]), p[3..], q);
      }
      hide ParseTail;
    }
  }

  lemma TailFails(info: RequestInfo, parts: seq<string>, q: Query)
    requires parts != [] && info.isResourceRequest
    ensures var (r, ok) := ParseTail(info, parts, q);
            r.isResourceRequest && (!ok <==> |parts| == 1 && parts[0] in {"proxy", "watch"})
  {
    hide TakeWorkspace, TakeNamespace, MethodVerb;
  }

  lemma {:induction false} SplitHasNone(s: string, sep: char)
    ensures forall p :: p in Split(s, sep) ==> sep !in p
    ensures Join(Split(s, sep), sep) == s
  {
    if s != "" {
      SplitHasNone(s[1..], sep);
      var rest := Split(s[1..], sep);
      assert rest[0] in rest && forall p :: p in rest[1..] ==> p in rest;
      assert s == [s[0]] + s[1..];
      JoinHead(rest, s[0], sep);
    }
  }

  lemma JoinHead(rest: seq<string>, c: char, sep: char)
    requires rest != []
    ensures Join([[c] + rest[0]] + rest[1..], sep) == [c] + Join(rest, sep)
    ensures Join([""] + rest, sep) == [sep] + Join(rest, sep)
  {
    var first := [[c] + rest[0]] + rest[1..];
    assert first[1..] == rest[1..] && ([""] + rest)[1..] == rest;
    assert |rest| > 1 ==>
        [c] + (rest[0] + [sep] + Join(rest[1..], sep)) == ([c] + rest[0]) + [sep] + Join(rest[1..], sep);
  }

  /** The parts of a path contain no slash and, joined by slashes, make up the path but for slashes at
      its ends. */
  lemma SplitPathParts(path: string)
    ensures forall p :: p in SplitPath(path) ==> '/' !in p
    ensures Join(SplitPath(path), '/') == TrimRight(TrimLeft(path, '/'), '/')
    ensures SplitPath(path) != [] ==> SplitPath(path)[0] != ""
  {
    var s := TrimRight(TrimLeft(path, '/'), '/');
    SplitHasNone(s, '/');
    TrimmedStart(path);
    if s != "" {
      SplitStart(s);
    }
  }

  lemma {:induction false} TrimLeftStart(s: string)
    ensures var t := TrimLeft(s, '/'); t == "" || t[0] != '/'
  {
    if s != "" && s[0] == '/' {
      TrimLeftStart(s[1..]);
    }
  }

  lemma {:induction false} TrimRightStart(s: string)
    ensures TrimRight(s, '/') <= s
  {
    if s != "" && s[|s| - 1] == '/' {
      TrimRightStart(s[..|s| - 1]);
    }
  }

  lemma TrimmedStart(path: string)
    ensures var s := TrimRight(TrimLeft(path, '/'), '/'); s == "" || s[0] != '/'
  {
    TrimLeftStart(path);
    TrimRightStart(TrimLeft(path, '/'));
  }

  lemma SplitStart(s: string)
    requires s != "" && s[0] != '/'
    ensures Split(s, '/')[0] != ""
  {}

  /** Whatever the path, the scope is the namespace exactly when a namespace was read off and no
      workspace watch took its place. */
  lemma NamespaceScopeIff(f: Factory, path: string, httpMethod: string, q: Query)
    ensures var (info, ok) := Parse(f, path, httpMethod, q);
            info.scope == NAMESPACE_SCOPE <==>
              && ok && info.isResourceRequest && info.namespace != ""
              && !(info.verb == "watch" && HasPrefix(q.labelSelector, WORKSPACE_SELECTOR_PREFIX))
  {
    var parts := SplitPath(path);
    if |parts| >= 3 && parts[0] in f.apiPrefixes {
      var info := Unparsed(path, httpMethod);
      hide SplitPath, TakeWorkspace, TakeNamespace, MethodVerb;
      if parts[0] in f.grouplessAPIPrefixes {
        TailScope(info.(apiPrefix := parts[0], isResourceRequest := true, apiVersion := parts[1]), parts[2..], q);
      } else if |parts| >= 4 {
        TailScope(info.(apiPrefix := parts[0], apiGroup := parts[1], isResourceRequest := true,
                        apiVersion := parts[2]), parts[3..], q);
      }
    }
  }

  lemma TailScope(info: RequestInfo, parts: seq<string>, q: Query)
    requires parts != [] && info.scope == "" && info.isResourceRequest
    ensures var (r, ok) := ParseTail(info, parts, q);
            && r.isResourceRequest
            && (r.scope == NAMESPACE_SCOPE <==>
                  && ok && r.namespace != ""
                  && !(r.verb == "watch" && HasPrefix(q.labelSelector, WORKSPACE_SELECTOR_PREFIX)))
  {
    hide TakeWorkspace, TakeNamespace, MethodVerb, HasPrefix;
  }
}
