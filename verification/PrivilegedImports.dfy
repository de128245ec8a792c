/**
 The privileged-import lint (scripts/verify-privileged-imports.ts): configuration checks, the
 server-only boundary, the direct-import restriction, browser reachability and the exception ledger.
 */
module PrivilegedImports {
  import opened Common
  import opened ModuleGraph

  datatype Code = ClientReachability | UnapprovedOwner

  datatype Exception = Exception(code: Code, from: string, to: string, owner: string, reason: string)

  datatype Boundary = NextRoute | ServerOnlyImport | WorkerRuntime

  /** An absent or empty prefix or suffix is the empty string: the source tests all three for truth. */
  datatype OwnerRule = OwnerRule(id: string, description: string, boundary: Boundary,
                                 exactPaths: Option<seq<string>>, pathPrefix: string, pathSuffix: string)

  datatype Privileged = Privileged(path: string, approvedOwnerIds: seq<string>, requiresServerOnlyImport: bool)

  datatype Config = Config(browserEntryPoints: seq<string>, exceptions: seq<Exception>,
                           ownerRules: seq<OwnerRule>, privilegedModules: seq<Privileged>)

  /** An `invalid-config` diagnostic, by the position of the declaration it complains about. */
  datatype ConfigProblem =
    | BlankRule(rule: nat)
    | RuleOwnsNothing(rule: nat)
    | DuplicateOwner(rule: nat)
    | DuplicatePrivileged(mod: nat)
    | MissingPrivileged(mod: nat)
    | UnknownOwner(mod: nat, owner: nat)
    | MissingEntryPoint(entry: nat)
    | BlankException(index: nat)
    | DuplicateException(index: nat)

  /** The diagnostics, one list for each stage of the check, in the order in which they are pushed. */
  datatype Diagnostics = Diagnostics(
    config: seq<ConfigProblem>,
    missingBoundary: seq<string>,
    unapproved: seq<Edge>,
    reachable: seq<(string, seq<Edge>)>,
    unused: seq<nat>)

  // ----- Owners -----

  /** Nothing but white space. */
  ghost predicate OnlySpace(s: string) {
    forall i :: 0 <= i < |s| ==> IsSpace(s[i])
  }

  /** `!s.trim()`. */
  predicate Blank(s: string)
    ensures Blank(s) <==> OnlySpace(s)
  {
    forall c :: c in s ==> IsSpace(c)
  }

  predicate EndsWith(s: string, suffix: string) {
    |suffix| <= |s| && s[|s| - |suffix|..] == suffix
  }

  /** The module is one that the rule speaks of, by each of the criteria that the rule gives, if it gives any. */
  ghost predicate Owns(rule: OwnerRule, m: Module) {
    && (rule.exactPaths != None || rule.pathPrefix != "" || rule.pathSuffix != "" || rule.boundary == ServerOnlyImport)
    && (rule.exactPaths == None || exists i :: 0 <= i < |rule.exactPaths.value| && rule.exactPaths.value[i] == m.path)
    && (exists rest :: m.path == rule.pathPrefix + rest)
    && (exists front :: m.path == front + rule.pathSuffix)
    && (rule.boundary == ServerOnlyImport ==> m.importsServerOnly)
  }

  lemma AffixesAre(rule: OwnerRule, m: Module)
    ensures rule.pathPrefix <= m.path <==> exists rest :: m.path == rule.pathPrefix + rest
    ensures EndsWith(m.path, rule.pathSuffix) <==> exists front :: m.path == front + rule.pathSuffix
  {
    if rule.pathPrefix <= m.path {
      assert m.path == rule.pathPrefix + m.path[|rule.pathPrefix|..];
    }
    if EndsWith(m.path, rule.pathSuffix) {
      assert m.path == m.path[..|m.path| - |rule.pathSuffix|] + rule.pathSuffix;
    }
  }

  /** `ownerRuleMatches`. */
  method OwnerRuleMatches(rule: OwnerRule, m: Module) returns (matches: bool)
    ensures matches <==> Owns(rule, m)
  {
    AffixesAre(rule, m);
    if rule.exactPaths.Some? && m.path !in rule.exactPaths.value {
      return false;
    }
    if rule.pathPrefix != "" && !(rule.pathPrefix <= m.path) {
      return false;
    }
    if rule.pathSuffix != "" && !EndsWith(m.path, rule.pathSuffix) {
      return false;
    }
    if rule.boundary == ServerOnlyImport && !m.importsServerOnly {
      return false;
    }
    return rule.exactPaths.Some? || rule.pathPrefix != "" || rule.pathSuffix != "" || rule.boundary == ServerOnlyImport;
  }

  /** The ids of the rules that own the module. */
  method MatchingOwnerIds(config: Config, m: Module) returns (ids: set<string>)
    ensures forall id :: id in ids <==> exists rule :: rule in config.ownerRules && rule.id == id && Owns(rule, m)
  {
    ids := {};
    for i := 0 to |config.ownerRules|
      invariant forall id :: id in ids <==>
                  exists j :: 0 <= j < i && config.ownerRules[j].id == id && Owns(config.ownerRules[j], m)
    {
      var matches := OwnerRuleMatches(config.ownerRules[i], m);
      if matches {
        ids := ids + {config.ownerRules[i].id};
      }
    }
  }

  function PrivilegedPaths(config: Config): set<string> {
    set p | p in config.privilegedModules :: p.path
  }

  /** `p` is the last declaration of its path. */
  ghost predicate DeclaredLast(privileged: seq<Privileged>, p: Privileged) {
    exists i :: 0 <= i < |privileged| && privileged[i] == p
      && forall j :: i < j < |privileged| ==> privileged[j].path != p.path
  }

  /** `privilegedModuleByPath.get(path)`: the last declaration of a path wins. */
  function PrivilegedAt(privileged: seq<Privileged>, path: string): (r: Option<Privileged>)
    ensures forall p :: r == Some(p) <==> p.path == path && DeclaredLast(privileged, p)
    ensures r.None? <==> forall p :: p in privileged ==> p.path != path
  {
    if privileged == [] then None
    else
      LastDeclaration(privileged, path);
      if privileged[|privileged| - 1].path == path then Some(privileged[|privileged| - 1])
      else PrivilegedAt(privileged[..|privileged| - 1], path)
  }

  lemma LastDeclaration(privileged: seq<Privileged>, path: string)
    requires privileged != []
    ensures var init, last := privileged[..|privileged| - 1], privileged[|privileged| - 1];
      && (forall p :: p in privileged <==> p in init || p == last)
      && forall p: Privileged :: p.path == path ==>
           (DeclaredLast(privileged, p) <==> if last.path == path then p == last else DeclaredLast(init, p))
  {
    var init, last := privileged[..|privileged| - 1], privileged[|privileged| - 1];
    assert privileged == init + [last];
    forall p: Privileged | p.path == path
      ensures DeclaredLast(privileged, p) <==> if last.path == path then p == last else DeclaredLast(init, p)
    {
      if DeclaredLast(privileged, p) {
        var i :| 0 <= i < |privileged| && privileged[i] == p
                 && forall j :: i < j < |privileged| ==> privileged[j].path != p.path;
        if i < |init| {
          assert init[i] == p && privileged[|privileged| - 1].path != p.path;
        }
      }
      if last.path != path && DeclaredLast(init, p) {
        var i :| 0 <= i < |init| && init[i] == p && forall j :: i < j < |init| ==> init[j].path != p.path;
        assert privileged[i] == p;
      }
      if p == last {
        assert privileged[|privileged| - 1] == p;
      }
    }
  }

  /** One of the module's approved owners owns the importing module. */
  ghost predicate Approved(config: Config, m: Module, p: Privileged) {
    exists id :: id in p.approvedOwnerIds
      && exists rule :: rule in config.ownerRules && rule.id == id && Owns(rule, m)
  }

  /** A run-time import of a privileged module by a module that none of its owner rules approves. */
  ghost predicate IsUnapproved(config: Config, m: Module, e: Edge) {
    !e.typeOnly
    && exists p :: DeclaredLast(config.privilegedModules, p) && p.path == e.to && !Approved(config, m, p)
  }

  /** The tests of the direct-import check on one edge. */
  method TestEdge(config: Config, m: Module, ids: set<string>, e: Edge) returns (unapproved: bool)
    requires forall id :: id in ids <==> exists rule :: rule in config.ownerRules && rule.id == id && Owns(rule, m)
    ensures unapproved <==> IsUnapproved(config, m, e)
  {
    if e.typeOnly {
      return false;
    }
    var p := PrivilegedAt(config.privilegedModules, e.to);
    if p.None? {
      return false;
    }
    assert DeclaredLast(config.privilegedModules, p.value);
    unapproved := !exists id :: id in p.value.approvedOwnerIds && id in ids;
  }

  // ----- What has to be excepted, and what is -----

  /** The browser roots of the graph: declared entry points, and modules marked "use client". */
  ghost predicate BrowserRoot(config: Config, g: Graph, root: string) {
    root in g.modules && (root in config.browserEntryPoints || g.modules[root].useClient)
  }

  /** The lint needs an exception for this edge. */
  ghost predicate Needed(config: Config, g: Graph, code: Code, from: string, to: string) {
    match code
    case UnapprovedOwner =>
      from in g.modules
      && exists e :: e in g.modules[from].edges && e.to == to && IsUnapproved(config, g.modules[from], e)
    case ClientReachability =>
      exists root :: BrowserRoot(config, g, root) && Forbidden(g, PrivilegedPaths(config), root, from, to)
  }

  ghost predicate Matches(x: Exception, code: Code, from: string, to: string) {
    x.code == code && x.from == from && x.to == to
  }

  ghost predicate Excepted(config: Config, code: Code, from: string, to: string) {
    exists x :: x in config.exceptions && Matches(x, code, from, to)
  }

  /** `findIndex`: the first exception for the edge. */
  ghost predicate IsFirstMatch(config: Config, code: Code, from: string, to: string, i: nat) {
    && i < |config.exceptions| && Matches(config.exceptions[i], code, from, to)
    && forall j :: 0 <= j < i ==> !Matches(config.exceptions[j], code, from, to)
  }

  /** Some needed edge consumes exception `i`. */
  ghost predicate Consumed(config: Config, g: Graph, i: nat) {
    exists code, from, to :: Needed(config, g, code, from, to) && IsFirstMatch(config, code, from, to, i)
  }

  // ----- Valid configurations -----

  /** What each `invalid-config` diagnostic complains about. */
  ghost predicate Holds(config: Config, g: Graph, p: ConfigProblem) {
    match p
    case BlankRule(i) =>
      i < |config.ownerRules| && (OnlySpace(config.ownerRules[i].id) || OnlySpace(config.ownerRules[i].description))
    case RuleOwnsNothing(i) =>
      && i < |config.ownerRules| && config.ownerRules[i].boundary != ServerOnlyImport
      && config.ownerRules[i].exactPaths.None?
      && config.ownerRules[i].pathPrefix == "" && config.ownerRules[i].pathSuffix == ""
    case DuplicateOwner(i) =>
      i < |config.ownerRules| && exists j :: 0 <= j < i && config.ownerRules[j].id == config.ownerRules[i].id
    case DuplicatePrivileged(i) =>
      i < |config.privilegedModules|
      && exists j :: 0 <= j < i && config.privilegedModules[j].path == config.privilegedModules[i].path
    case MissingPrivileged(i) =>
      i < |config.privilegedModules| && config.privilegedModules[i].path !in g.modules
    case UnknownOwner(i, k) =>
      && i < |config.privilegedModules| && k < |config.privilegedModules[i].approvedOwnerIds|
      && forall rule :: rule in config.ownerRules ==> rule.id != config.privilegedModules[i].approvedOwnerIds[k]
    case MissingEntryPoint(i) =>
      i < |config.browserEntryPoints| && config.browserEntryPoints[i] !in g.modules
    case BlankException(i) =>
      i < |config.exceptions| && (OnlySpace(config.exceptions[i].owner) || OnlySpace(config.exceptions[i].reason))
    case DuplicateException(i) =>
      && i < |config.exceptions|
      && exists j ::
           0 <= j < i
           && Matches(config.exceptions[j],
                      config.exceptions[i].code, config.exceptions[i].from, config.exceptions[i].to)
  }

  ghost predicate ValidConfig(config: Config, g: Graph) {
    forall p :: !Holds(config, g, p)
  }

  /** With a valid configuration, a clean graph: nothing is missing and no exception is stale. */
  ghost predicate Clean(config: Config, g: Graph) {
    && ValidConfig(config, g)
    && (forall p :: p in config.privilegedModules && p.requiresServerOnlyImport
          ==> p.path in g.modules && g.modules[p.path].importsServerOnly)
    && (forall code, from, to :: Excepted(config, code, from, to) <==> Needed(config, g, code, from, to))
  }

  // ----- invalidConfigDiagnostics -----

  function Stage(p: ConfigProblem): nat {
    match p
    case BlankRule(_) => 0 case RuleOwnsNothing(_) => 0 case DuplicateOwner(_) => 0
    case DuplicatePrivileged(_) => 1 case MissingPrivileged(_) => 1 case UnknownOwner(_, _) => 1
    case MissingEntryPoint(_) => 2
    case BlankException(_) => 3 case DuplicateException(_) => 3
  }

  function Index(p: ConfigProblem): nat {
    match p
    case BlankRule(i) => i case RuleOwnsNothing(i) => i case DuplicateOwner(i) => i
    case DuplicatePrivileged(i) => i case MissingPrivileged(i) => i case UnknownOwner(i, _) => i
    case MissingEntryPoint(i) => i
    case BlankException(i) => i case DuplicateException(i) => i
  }

  /** `problems` are exactly the problems of one stage with a declaration before position `n`. */
  ghost predicate Lists(config: Config, g: Graph, problems: seq<ConfigProblem>, stage: nat, n: nat) {
    forall p :: p in problems <==> Stage(p) == stage && Index(p) < n && Holds(config, g, p)
  }

  method RuleProblems(config: Config, g: Graph) returns (problems: seq<ConfigProblem>, ownerIds: set<string>)
    ensures Lists(config, g, problems, 0, |config.ownerRules|)
    ensures forall id :: id in ownerIds <==> exists rule :: rule in config.ownerRules && rule.id == id
  {
    problems, ownerIds := [], {};
    for i := 0 to |config.ownerRules|
      invariant forall id :: id in ownerIds <==> exists j :: 0 <= j < i && config.ownerRules[j].id == id
      invariant Lists(config, g, problems, 0, i)
    {
      var rule := config.ownerRules[i];
      var added: seq<ConfigProblem> := [];
      if Blank(rule.id) || Blank(rule.description) {
        added := added + [BlankRule(i)];
      }
      if rule.boundary != ServerOnlyImport && rule.exactPaths.None? && rule.pathPrefix == "" && rule.pathSuffix == "" {
        added := added + [RuleOwnsNothing(i)];
      }
      if rule.id in ownerIds {
        added := added + [DuplicateOwner(i)];
      }
      ownerIds := ownerIds + {rule.id};
      problems := problems + added;
    }
  }

  method PrivilegedProblems(config: Config, g: Graph, ownerIds: set<string>) returns (problems: seq<ConfigProblem>)
    requires forall id :: id in ownerIds <==> exists rule :: rule in config.ownerRules && rule.id == id
    ensures Lists(config, g, problems, 1, |config.privilegedModules|)
  {
    problems := [];
    var privilegedPaths: set<string> := {};
    for i := 0 to |config.privilegedModules|
      invariant forall p :: p in privilegedPaths <==> exists j :: 0 <= j < i && config.privilegedModules[j].path == p
      invariant Lists(config, g, problems, 1, i)
    {
      var m := config.privilegedModules[i];
      var added: seq<ConfigProblem> := [];
      if m.path in privilegedPaths {
        added := added + [DuplicatePrivileged(i)];
      }
      privilegedPaths := privilegedPaths + {m.path};
      if m.path !in g.modules {
        added := added + [MissingPrivileged(i)];
      }
      var unknown := UnknownOwners(config, g, i, ownerIds);
      problems := problems + added + unknown;
    }
  }

  method UnknownOwners(config: Config, g: Graph, i: nat, ownerIds: set<string>) returns (problems: seq<ConfigProblem>)
    requires i < |config.privilegedModules|
    requires forall id :: id in ownerIds <==> exists rule :: rule in config.ownerRules && rule.id == id
    ensures forall p :: p in problems <==> p.UnknownOwner? && p.mod == i && Holds(config, g, p)
  {
    var ids := config.privilegedModules[i].approvedOwnerIds;
    problems := [];
    for k := 0 to |ids|
      invariant forall p :: p in problems <==> p.UnknownOwner? && p.mod == i && p.owner < k && Holds(config, g, p)
    {
      if ids[k] !in ownerIds {
        problems := problems + [UnknownOwner(i, k)];
      }
    }
  }

  method EntryPointProblems(config: Config, g: Graph) returns (problems: seq<ConfigProblem>)
    ensures Lists(config, g, problems, 2, |config.browserEntryPoints|)
  {
    problems := [];
    for i := 0 to |config.browserEntryPoints|
      invariant Lists(config, g, problems, 2, i)
    {
      if config.browserEntryPoints[i] !in g.modules {
        problems := problems + [MissingEntryPoint(i)];
      }
    }
  }

  method ExceptionProblems(config: Config, g: Graph) returns (problems: seq<ConfigProblem>)
    ensures Lists(config, g, problems, 3, |config.exceptions|)
  {
    problems := [];
    var keys: set<(Code, string, string)> := {};
    for i := 0 to |config.exceptions|
      invariant forall code, from, to ::
                  (code, from, to) in keys <==> exists j :: 0 <= j < i && Matches(config.exceptions[j], code, from, to)
      invariant Lists(config, g, problems, 3, i)
    {
      var x := config.exceptions[i];
      var added: seq<ConfigProblem> := [];
      if Blank(x.owner) || Blank(x.reason) {
        added := added + [BlankException(i)];
      }
      if (x.code, x.from, x.to) in keys {
        added := added + [DuplicateException(i)];
      }
      keys := keys + {(x.code, x.from, x.to)};
      problems := problems + added;
    }
  }

  /** `invalidConfigDiagnostics`: exactly the problems that the configuration has. */
  method InvalidConfig(config: Config, g: Graph) returns (problems: seq<ConfigProblem>)
    ensures forall p :: p in problems <==> Holds(config, g, p)
    ensures problems == [] <==> ValidConfig(config, g)
  {
    var rules, ownerIds := RuleProblems(config, g);
    var privileged := PrivilegedProblems(config, g, ownerIds);
    var entries := EntryPointProblems(config, g);
    var exceptions := ExceptionProblems(config, g);
    problems := rules + privileged + entries + exceptions;
    forall p
      ensures p in problems <==> Holds(config, g, p)
    {
      assert p in problems <==> p in rules || p in privileged || p in entries || p in exceptions;
    }
    if problems != [] {
      assert problems[0] in problems;
    }
  }

  // ----- verifyPrivilegedImports -----

  method MissingBoundaries(config: Config, g: Graph) returns (missing: seq<string>)
    ensures forall p :: p in missing <==> exists m :: m in config.privilegedModules && m.path == p && Unprotected(g, m)
  {
    missing := [];
    for i := 0 to |config.privilegedModules|
      invariant forall p :: p in missing
                  <==> exists j ::
                         0 <= j < i && config.privilegedModules[j].path == p
                         && Unprotected(g, config.privilegedModules[j])
    {
      var m := config.privilegedModules[i];
      if m.path in g.modules && m.requiresServerOnlyImport && !g.modules[m.path].importsServerOnly {
        missing := missing + [m.path];
      }
    }
  }

  ghost predicate Unprotected(g: Graph, m: Privileged) {
    m.path in g.modules && m.requiresServerOnlyImport && !g.modules[m.path].importsServerOnly
  }

  /** The lookup of `consumeException`. */
  method FindException(config: Config, code: Code, from: string, to: string) returns (index: Option<nat>)
    ensures index.Some? ==> IsFirstMatch(config, code, from, to, index.value)
    ensures index.None? <==> !Excepted(config, code, from, to)
  {
    for i := 0 to |config.exceptions|
      invariant forall j :: 0 <= j < i ==> !Matches(config.exceptions[j], code, from, to)
    {
      var x := config.exceptions[i];
      if x.code == code && x.from == from && x.to == to {
        return Some(i);
      }
    }
    return None;
  }

  /** The unapproved imports of one module that no exception covers, in source order. */
  ghost function Flagged(config: Config, m: Module, edges: seq<Edge>): seq<Edge> {
    if edges == [] then []
    else
      var e := edges[|edges| - 1];
      Flagged(config, m, edges[..|edges| - 1])
      + (if IsUnapproved(config, m, e) && !Excepted(config, UnapprovedOwner, e.from, e.to) then [e] else [])
  }

  ghost function FlaggedIn(config: Config, g: Graph, order: seq<string>): seq<Edge>
    requires forall p :: p in order ==> p in g.modules
  {
    if order == [] then []
    else
      var m := g.modules[order[|order| - 1]];
      FlaggedIn(config, g, order[..|order| - 1]) + Flagged(config, m, m.edges)
  }

  lemma {:induction false} FlaggedMembers(config: Config, m: Module, edges: seq<Edge>, e: Edge)
    ensures e in Flagged(config, m, edges)
       <==> e in edges && IsUnapproved(config, m, e) && !Excepted(config, UnapprovedOwner, e.from, e.to)
  {
    if edges != [] {
      FlaggedMembers(config, m, edges[..|edges| - 1], e);
      assert edges == edges[..|edges| - 1] + [edges[|edges| - 1]];
    }
  }

  lemma {:induction false} FlaggedInMembers(config: Config, g: Graph, order: seq<string>, e: Edge)
    requires forall p :: p in order ==> p in g.modules
    ensures e in FlaggedIn(config, g, order)
       <==> exists p :: p in order && e in Flagged(config, g.modules[p], g.modules[p].edges)
  {
    if order != [] {
      FlaggedInMembers(config, g, order[..|order| - 1], e);
      assert order == order[..|order| - 1] + [order[|order| - 1]];
    }
  }

  /** `consumed` holds the exceptions consumed by the needed edges that `seen` accepts. */
  ghost predicate Ledger(config: Config, code: Code, seen: iset<(string, string)>, consumed: set<nat>) {
    forall i :: i in consumed <==> exists k :: k in seen && IsFirstMatch(config, code, k.0, k.1, i)
  }

  /** The (from, to) keys of the unapproved imports among `edges`. */
  ghost function UnapprovedKeys(config: Config, m: Module, edges: seq<Edge>): iset<(string, string)> {
    iset e | e in edges && IsUnapproved(config, m, e) :: (e.from, e.to)
  }

  lemma ScanStep(config: Config, m: Module, edges: seq<Edge>, i: nat)
    requires i < |edges|
    ensures var e := edges[i];
            && UnapprovedKeys(config, m, edges[..i + 1])
               == UnapprovedKeys(config, m, edges[..i])
                 + (if IsUnapproved(config, m, e) then iset{(e.from, e.to)} else iset{})
            && Flagged(config, m, edges[..i + 1])
               == Flagged(config, m, edges[..i])
                  + (if IsUnapproved(config, m, e) && !Excepted(config, UnapprovedOwner, e.from, e.to) then [e] else [])
  {
    PrefixStep(edges, i);
    var longer := edges[..i + 1];
    assert longer[..|longer| - 1] == edges[..i] && longer[|longer| - 1] == edges[i];
  }

  /** The direct-import check of one module. */
  method CheckModule(config: Config, m: Module) returns (flagged: seq<Edge>, consumed: set<nat>)
    ensures flagged == Flagged(config, m, m.edges)
    ensures Ledger(config, UnapprovedOwner, UnapprovedKeys(config, m, m.edges), consumed)
  {
    flagged, consumed := [], {};
    var ids := MatchingOwnerIds(config, m);
    ghost var keys: iset<(string, string)> := iset{};
    for i := 0 to |m.edges|
      invariant keys == UnapprovedKeys(config, m, m.edges[..i])
      invariant flagged == Flagged(config, m, m.edges[..i])
      invariant Ledger(config, UnapprovedOwner, keys, consumed)
    {
      var e := m.edges[i];
      ScanStep(config, m, m.edges, i);
      var unapproved := TestEdge(config, m, ids, e);
      if unapproved {
        var index := FindException(config, UnapprovedOwner, e.from, e.to);
        Consume(config, UnapprovedOwner, keys, consumed, e.from, e.to, index);
        keys := keys + iset{(e.from, e.to)};
        if index.Some? {
          consumed := consumed + {index.value};
        } else {
          flagged := flagged + [e];
        }
      }
    }
    FullPrefix(m.edges);
  }

  lemma Consume(config: Config, code: Code, seen: iset<(string, string)>, consumed: set<nat>, from: string, to: string,
                index: Option<nat>)
    requires Ledger(config, code, seen, consumed)
    requires index.Some? ==> IsFirstMatch(config, code, from, to, index.value)
    requires index.None? ==> !Excepted(config, code, from, to)
    ensures Ledger(config, code, seen + iset{(from, to)}, if index.Some? then consumed + {index.value} else consumed)
  {
    var seen' := seen + iset{(from, to)};
    forall i: nat
      ensures (i in consumed || index == Some(i)) <==> exists k :: k in seen' && IsFirstMatch(config, code, k.0, k.1, i)
    {
      if index == Some(i) {
        assert (from, to) in seen';
      }
      if exists k :: k in seen' && IsFirstMatch(config, code, k.0, k.1, i) {
        var k :| k in seen' && IsFirstMatch(config, code, k.0, k.1, i);
        if k !in seen {
          assert index.Some? by {
            assert config.exceptions[i] in config.exceptions;
          }
        }
      }
    }
  }

  /** The keys for which the direct check needs an exception. */
  ghost function DirectKeys(config: Config, g: Graph, order: seq<string>): iset<(string, string)> {
    iset p, e | p in order && p in g.modules && e in g.modules[p].edges && IsUnapproved(config, g.modules[p], e)
      :: (e.from, e.to)
  }

  lemma DirectStep(config: Config, g: Graph, order: seq<string>, i: nat)
    requires i < |order| && forall p :: p in order ==> p in g.modules
    ensures var m := g.modules[order[i]];
            && DirectKeys(config, g, order[..i + 1])
               == DirectKeys(config, g, order[..i]) + UnapprovedKeys(config, m, m.edges)
            && FlaggedIn(config, g, order[..i + 1]) == FlaggedIn(config, g, order[..i]) + Flagged(config, m, m.edges)
  {
    PrefixStep(order, i);
    var longer := order[..i + 1];
    assert longer[..|longer| - 1] == order[..i] && longer[|longer| - 1] == order[i];
  }

  /** Two ledgers of the same kind add up. */
  lemma MergeLedgers(config: Config, code: Code, seen1: iset<(string, string)>, consumed1: set<nat>,
                     seen2: iset<(string, string)>, consumed2: set<nat>)
    requires Ledger(config, code, seen1, consumed1) && Ledger(config, code, seen2, consumed2)
    ensures Ledger(config, code, seen1 + seen2, consumed1 + consumed2)
  {
    forall i: nat
      ensures i in consumed1 + consumed2 <==> exists k :: k in seen1 + seen2 && IsFirstMatch(config, code, k.0, k.1, i)
    {
      if i in consumed1 {
        var k :| k in seen1 && IsFirstMatch(config, code, k.0, k.1, i);
        assert k in seen1 + seen2;
      } else if i in consumed2 {
        var k :| k in seen2 && IsFirstMatch(config, code, k.0, k.1, i);
        assert k in seen1 + seen2;
      }
    }
  }

  /** The direct-import check of all modules. */
  method CheckModules(config: Config, g: Graph) returns (flagged: seq<Edge>, consumed: set<nat>)
    requires g.Valid()
    ensures flagged == FlaggedIn(config, g, g.order)
    ensures Ledger(config, UnapprovedOwner, DirectKeys(config, g, g.order), consumed)
  {
    flagged, consumed := [], {};
    ghost var keys: iset<(string, string)> := iset{};
    for i := 0 to |g.order|
      invariant keys == DirectKeys(config, g, g.order[..i])
      invariant flagged == FlaggedIn(config, g, g.order[..i])
      invariant Ledger(config, UnapprovedOwner, keys, consumed)
    {
      var m := g.modules[g.order[i]];
      DirectStep(config, g, g.order, i);
      var more, used := CheckModule(config, m);
      MergeLedgers(config, UnapprovedOwner, keys, consumed, UnapprovedKeys(config, m, m.edges), used);
      keys := keys + UnapprovedKeys(config, m, m.edges);
      flagged := flagged + more;
      consumed := consumed + used;
    }
    FullPrefix(g.order);
  }

  /** `browserRoots`, without the declared entry points that do not exist, each once. */
  method BrowserRoots(config: Config, g: Graph) returns (roots: seq<string>)
    requires g.Valid()
    ensures Distinct(roots)
    ensures forall r :: r in roots <==> BrowserRoot(config, g, r)
  {
    roots := [];
    for i := 0 to |config.browserEntryPoints|
      invariant Distinct(roots)
      invariant forall r :: r in roots <==> r in g.modules && r in config.browserEntryPoints[..i]
    {
      var r := config.browserEntryPoints[i];
      PrefixStep(config.browserEntryPoints, i);
      if r !in roots && r in g.modules {
        roots := roots + [r];
      }
    }
    FullPrefix(config.browserEntryPoints);
    for i := 0 to |g.order|
      invariant Distinct(roots)
      invariant forall r :: r in roots <==>
                  r in g.modules && (r in config.browserEntryPoints || (r in g.order[..i] && g.modules[r].useClient))
    {
      var r := g.order[i];
      PrefixStep(g.order, i);
      if g.modules[r].useClient && r !in roots {
        roots := roots + [r];
      }
    }
    FullPrefix(g.order);
  }

  ghost predicate ReachKey(config: Config, g: Graph, roots: seq<string>, from: string, to: string) {
    exists r :: r in roots && Forbidden(g, PrivilegedPaths(config), r, from, to)
  }

  /** The reports of the roots searched so far that no exception covers. */
  ghost predicate Reported(config: Config, g: Graph, roots: seq<string>, reachable: seq<(string, seq<Edge>)>) {
    ReportsHold(config, g, roots, reachable) && ReportsCover(config, g, roots, reachable) && ReportsApart(reachable)
  }

  ghost predicate ReportsHold(config: Config, g: Graph, roots: seq<string>, reachable: seq<(string, seq<Edge>)>) {
    forall x :: x in reachable ==>
      && x.0 in roots && Witness(g, PrivilegedPaths(config), x.0, x.1)
      && !Excepted(config, ClientReachability, Key(x.1).0, Key(x.1).1)
  }

  ghost predicate ReportsCover(config: Config, g: Graph, roots: seq<string>, reachable: seq<(string, seq<Edge>)>) {
    forall r, from, to :: r in roots && Forbidden(g, PrivilegedPaths(config), r, from, to)
                          && !Excepted(config, ClientReachability, from, to)
      ==> exists x :: x in reachable && x.0 == r && Key(x.1) == (from, to)
  }

  ghost predicate ReportsApart(reachable: seq<(string, seq<Edge>)>) {
    forall i, j :: 0 <= i < j < |reachable| ==>
      reachable[i].0 != reachable[j].0 || Key(reachable[i].1) != Key(reachable[j].1)
  }

  /** The exception lookups for what one root reaches. */
  method ExceptRoot(config: Config, found: seq<seq<Edge>>) returns (kept: seq<seq<Edge>>, consumed: set<nat>)
    requires forall i, j :: 0 <= i < j < |found| ==> Key(found[i]) != Key(found[j])
    ensures forall f :: f in kept <==> f in found && !Excepted(config, ClientReachability, Key(f).0, Key(f).1)
    ensures forall i, j :: 0 <= i < j < |kept| ==> Key(kept[i]) != Key(kept[j])
    ensures Ledger(config, ClientReachability, iset f | f in found :: Key(f), consumed)
  {
    kept, consumed := [], {};
    ghost var keys: iset<(string, string)> := iset{};
    for i := 0 to |found|
      invariant forall f :: f in kept <==> f in found[..i] && !Excepted(config, ClientReachability, Key(f).0, Key(f).1)
      invariant forall i, j :: 0 <= i < j < |kept| ==> Key(kept[i]) != Key(kept[j])
      invariant forall k :: k in keys <==> exists f :: f in found[..i] && Key(f) == k
      invariant Ledger(config, ClientReachability, keys, consumed)
    {
      var key := Key(found[i]);
      PrefixStep(found, i);
      var index := FindException(config, ClientReachability, key.0, key.1);
      Consume(config, ClientReachability, keys, consumed, key.0, key.1, index);
      forall k
        ensures k in keys + iset{key} <==> exists f :: f in found[..i + 1] && Key(f) == k
      {
        if k == key {
          assert found[i] in found[..i + 1];
        }
      }
      keys := keys + iset{key};
      if index.Some? {
        consumed := consumed + {index.value};
      } else {
        kept := kept + [found[i]];
      }
    }
    FullPrefix(found);
    assert keys == iset f | f in found :: Key(f);
  }

  /** The keys that the given roots reach. */
  ghost function ReachKeys(config: Config, g: Graph, roots: seq<string>): iset<(string, string)> {
    iset from, to | ReachKey(config, g, roots, from, to) :: (from, to)
  }

  /** The reports of one root. */
  function OfRoot(root: string, kept: seq<seq<Edge>>): seq<(string, seq<Edge>)> {
    seq(|kept|, i requires 0 <= i < |kept| => (root, kept[i]))
  }

  lemma OfRootMembers(root: string, kept: seq<seq<Edge>>)
    ensures forall x: (string, seq<Edge>) :: x in OfRoot(root, kept) <==> x.0 == root && x.1 in kept
  {
    forall x: (string, seq<Edge>) | x.0 == root && x.1 in kept ensures x in OfRoot(root, kept) {
      var i :| 0 <= i < |kept| && kept[i] == x.1;
      assert OfRoot(root, kept)[i] == x;
    }
  }

  lemma RootCovers(config: Config, g: Graph, roots: seq<string>, reachable: seq<(string, seq<Edge>)>, root: string,
                   found: seq<seq<Edge>>, kept: seq<seq<Edge>>)
    requires ReportsCover(config, g, roots, reachable)
    requires forall from, to ::
               Forbidden(g, PrivilegedPaths(config), root, from, to) <==> exists f :: f in found && Key(f) == (from, to)
    requires forall f :: f in kept <==> f in found && !Excepted(config, ClientReachability, Key(f).0, Key(f).1)
    ensures ReportsCover(config, g, roots + [root], reachable + OfRoot(root, kept))
  {
    OfRootMembers(root, kept);
    forall r, from, to | r in roots + [root] && Forbidden(g, PrivilegedPaths(config), r, from, to)
                         && !Excepted(config, ClientReachability, from, to)
      ensures exists x :: x in reachable + OfRoot(root, kept) && x.0 == r && Key(x.1) == (from, to)
    {
      if r == root {
        var f :| f in found && Key(f) == (from, to);
        assert (root, f) in OfRoot(root, kept);
      } else {
        var x :| x in reachable && x.0 == r && Key(x.1) == (from, to);
        assert x in reachable + OfRoot(root, kept);
      }
    }
  }

  lemma RootApart(roots: seq<string>, reachable: seq<(string, seq<Edge>)>, root: string, kept: seq<seq<Edge>>)
    requires ReportsApart(reachable) && root !in roots && forall x :: x in reachable ==> x.0 in roots
    requires forall i, j :: 0 <= i < j < |kept| ==> Key(kept[i]) != Key(kept[j])
    ensures ReportsApart(reachable + OfRoot(root, kept))
  {
    var all := reachable + OfRoot(root, kept);
    forall i, j | 0 <= i < j < |all| ensures all[i].0 != all[j].0 || Key(all[i].1) != Key(all[j].1) {
      if i < |reachable| {
        assert reachable[i] in reachable;
      }
    }
  }

  /** One more root, already searched and looked up, joins the report. */
  lemma JoinRoot(config: Config, g: Graph, roots: seq<string>, reachable: seq<(string, seq<Edge>)>, root: string,
                 found: seq<seq<Edge>>, kept: seq<seq<Edge>>)
    requires Reported(config, g, roots, reachable) && root !in roots
    requires forall f :: f in found ==> Witness(g, PrivilegedPaths(config), root, f)
    requires forall from, to ::
               Forbidden(g, PrivilegedPaths(config), root, from, to) <==> exists f :: f in found && Key(f) == (from, to)
    requires forall f :: f in kept <==> f in found && !Excepted(config, ClientReachability, Key(f).0, Key(f).1)
    requires forall i, j :: 0 <= i < j < |kept| ==> Key(kept[i]) != Key(kept[j])
    ensures Reported(config, g, roots + [root], reachable + OfRoot(root, kept))
  {
    OfRootMembers(root, kept);
    RootCovers(config, g, roots, reachable, root, found, kept);
    RootApart(roots, reachable, root, kept);
  }

  lemma ReachKeysStep(config: Config, g: Graph, roots: seq<string>, root: string, found: seq<seq<Edge>>)
    requires forall from, to ::
               Forbidden(g, PrivilegedPaths(config), root, from, to) <==> exists f :: f in found && Key(f) == (from, to)
    ensures ReachKeys(config, g, roots + [root]) == ReachKeys(config, g, roots) + iset f | f in found :: Key(f)
  {
    var added := iset f | f in found :: Key(f);
    forall from, to
      ensures (from, to) in ReachKeys(config, g, roots + [root])
         <==> (from, to) in ReachKeys(config, g, roots) || (from, to) in added
    {
      if (from, to) in ReachKeys(config, g, roots) {
        var r :| r in roots && Forbidden(g, PrivilegedPaths(config), r, from, to);
        assert r in roots + [root];
      }
      if (from, to) in added {
        assert root in roots + [root];
      }
    }
  }

  /** The reachability check from all browser roots. */
  method CheckRoots(config: Config, g: Graph, roots: seq<string>)
    returns (reachable: seq<(string, seq<Edge>)>, consumed: set<nat>)
    requires g.Valid() && Distinct(roots)
    ensures Reported(config, g, roots, reachable)
    ensures Ledger(config, ClientReachability, ReachKeys(config, g, roots), consumed)
  {
    reachable, consumed := [], {};
    assert ReachKeys(config, g, []) == iset{};
    ghost var searched: seq<string> := [];
    for i := 0 to |roots|
      invariant searched == roots[..i]
      invariant Reported(config, g, searched, reachable)
      invariant Ledger(config, ClientReachability, ReachKeys(config, g, searched), consumed)
    {
      var root := roots[i];
      PrefixStep(roots, i);
      NotYet(roots, i);
      var found := SearchFrom(g, PrivilegedPaths(config), root);
      var kept, used := ExceptRoot(config, found);
      JoinRoot(config, g, searched, reachable, root, found, kept);
      ReachKeysStep(config, g, searched, root, found);
      MergeLedgers(config, ClientReachability, ReachKeys(config, g, searched), consumed,
                   iset f | f in found :: Key(f), used);
      searched := searched + [root];
      reachable := reachable + OfRoot(root, kept);
      consumed := consumed + used;
    }
    FullPrefix(roots);
  }

  lemma NotYet<T>(s: seq<T>, i: nat)
    requires Distinct(s) && i < |s|
    ensures s[i] !in s[..i]
  {
  }

  method UnusedExceptions(config: Config, consumed: set<nat>) returns (unused: seq<nat>)
    ensures forall i: nat :: i in unused <==> i < |config.exceptions| && i !in consumed
    ensures forall i, j :: 0 <= i < j < |unused| ==> unused[i] < unused[j]
  {
    unused := [];
    for i := 0 to |config.exceptions|
      invariant forall k: nat :: k in unused <==> k < i && k !in consumed
      invariant forall k :: 0 <= k < |unused| ==> unused[k] < i
      invariant forall k, j :: 0 <= k < j < |unused| ==> unused[k] < unused[j]
    {
      if i !in consumed {
        unused := unused + [i];
      }
    }
  }

  /** The keys of the direct check and of the reachability check are the edges that need an exception. */
  lemma KeysAreNeeded(config: Config, g: Graph, roots: seq<string>)
    requires g.Valid() && forall r :: r in roots <==> BrowserRoot(config, g, r)
    ensures forall from, to ::
              (from, to) in DirectKeys(config, g, g.order) <==> Needed(config, g, UnapprovedOwner, from, to)
    ensures forall from, to ::
              (from, to) in ReachKeys(config, g, roots) <==> Needed(config, g, ClientReachability, from, to)
  {
    forall from, to
      ensures (from, to) in DirectKeys(config, g, g.order) <==> Needed(config, g, UnapprovedOwner, from, to)
    {
      if Needed(config, g, UnapprovedOwner, from, to) {
        var e :| e in g.modules[from].edges && e.to == to && IsUnapproved(config, g.modules[from], e);
        assert from in g.order && e.from == from;
      }
    }
  }

  lemma ConsumedByBoth(config: Config, g: Graph, roots: seq<string>, direct: set<nat>, reached: set<nat>)
    requires g.Valid() && forall r :: r in roots <==> BrowserRoot(config, g, r)
    requires Ledger(config, UnapprovedOwner, DirectKeys(config, g, g.order), direct)
    requires Ledger(config, ClientReachability, ReachKeys(config, g, roots), reached)
    ensures forall i: nat :: i in direct + reached <==> Consumed(config, g, i)
  {
    KeysAreNeeded(config, g, roots);
    forall i: nat
      ensures i in direct + reached <==> Consumed(config, g, i)
    {
      if Consumed(config, g, i) {
        var code, from, to :| Needed(config, g, code, from, to) && IsFirstMatch(config, code, from, to, i);
        if code == UnapprovedOwner {
          assert (from, to) in DirectKeys(config, g, g.order);
        } else {
          assert (from, to) in ReachKeys(config, g, roots);
        }
      }
    }
  }

  /** The diagnostics are exactly what the configuration and the graph deserve. */
  ghost predicate Exact(config: Config, g: Graph, d: Diagnostics) {
    && (forall p :: p in d.config <==> Holds(config, g, p))
    && (forall p ::
          p in d.missingBoundary <==> exists m :: m in config.privilegedModules && m.path == p && Unprotected(g, m))
    && (forall p :: p in g.order ==> p in g.modules) && d.unapproved == FlaggedIn(config, g, g.order)
    && (exists roots ::
          (forall r :: r in roots <==> BrowserRoot(config, g, r)) && Reported(config, g, roots, d.reachable))
    && (forall i: nat :: i in d.unused <==> i < |config.exceptions| && !Consumed(config, g, i))
  }

  predicate Pass(d: Diagnostics) {
    d.config == [] && d.missingBoundary == [] && d.unapproved == [] && d.reachable == [] && d.unused == []
  }

  /** `verifyPrivilegedImports`, from the finished module graph. */
  method Verify(config: Config, g: Graph) returns (d: Diagnostics)
    requires g.Valid()
    ensures Exact(config, g, d)
    ensures Pass(d) <==> Clean(config, g)
  {
    var problems := InvalidConfig(config, g);
    var missing := MissingBoundaries(config, g);
    var unapproved, direct := CheckModules(config, g);
    var roots := BrowserRoots(config, g);
    var reachable, reached := CheckRoots(config, g, roots);
    ConsumedByBoth(config, g, roots, direct, reached);
    var unused := UnusedExceptions(config, direct + reached);
    d := Diagnostics(problems, missing, unapproved, reachable, unused);
    PassIffClean(config, g, d);
  }

  /** Exact diagnostics are empty exactly for a clean graph. */
  lemma PassIffClean(config: Config, g: Graph, d: Diagnostics)
    requires g.Valid() && Exact(config, g, d)
    ensures Pass(d) <==> Clean(config, g)
  {
    if Pass(d) {
      PassImpliesCovered(config, g, d);
      assert forall p :: Holds(config, g, p) ==> p in d.config;
      forall p | p in config.privilegedModules && p.requiresServerOnlyImport
        ensures p.path in g.modules && g.modules[p.path].importsServerOnly
      {
        var i :| 0 <= i < |config.privilegedModules| && config.privilegedModules[i] == p;
        assert !Holds(config, g, MissingPrivileged(i));
        assert p.path !in d.missingBoundary;
      }
      forall code, from, to | Excepted(config, code, from, to)
        ensures Needed(config, g, code, from, to)
      {
        var x :| x in config.exceptions && Matches(x, code, from, to);
        var i :| 0 <= i < |config.exceptions| && config.exceptions[i] == x;
        assert i !in d.unused;
        assert Consumed(config, g, i);
      }
    }
    if Clean(config, g) {
      CleanImpliesPass(config, g, d);
    }
  }

  /** With nothing reported, every needed edge has an exception. */
  lemma PassImpliesCovered(config: Config, g: Graph, d: Diagnostics)
    requires g.Valid() && Exact(config, g, d) && d.unapproved == [] && d.reachable == []
    ensures forall code, from, to :: Needed(config, g, code, from, to) ==> Excepted(config, code, from, to)
  {
    forall code, from, to | Needed(config, g, code, from, to)
      ensures Excepted(config, code, from, to)
    {
      if code == UnapprovedOwner {
        var e :| e in g.modules[from].edges && e.to == to && IsUnapproved(config, g.modules[from], e);
        FlaggedMembers(config, g.modules[from], g.modules[from].edges, e);
        FlaggedInMembers(config, g, g.order, e);
        assert from in g.order && e.from == from;
      } else {
        var roots :| (forall r :: r in roots <==> BrowserRoot(config, g, r)) && Reported(config, g, roots, d.reachable);
        var root :| BrowserRoot(config, g, root) && Forbidden(g, PrivilegedPaths(config), root, from, to);
        assert root in roots;
      }
    }
  }

  lemma CleanImpliesPass(config: Config, g: Graph, d: Diagnostics)
    requires g.Valid() && Exact(config, g, d) && Clean(config, g)
    ensures Pass(d)
  {
    HeadIsMember(d.config);
    HeadIsMember(d.missingBoundary);
    if d.unapproved != [] {
      var e := d.unapproved[0];
      FlaggedInMembers(config, g, g.order, e);
      var p :| p in g.order && e in Flagged(config, g.modules[p], g.modules[p].edges);
      FlaggedMembers(config, g.modules[p], g.modules[p].edges, e);
      assert Needed(config, g, UnapprovedOwner, p, e.to);
    }
    if d.reachable != [] {
      var roots :| (forall r :: r in roots <==> BrowserRoot(config, g, r)) && Reported(config, g, roots, d.reachable);
      var x := d.reachable[0];
      assert x in d.reachable;
      WitnessIsForbidden(g, PrivilegedPaths(config), x.0, x.1);
      assert Needed(config, g, ClientReachability, Key(x.1).0, Key(x.1).1);
    }
    if d.unused != [] {
      var i := d.unused[0];
      assert i in d.unused;
      var x := config.exceptions[i];
      assert x in config.exceptions && Matches(x, x.code, x.from, x.to);
      assert !Holds(config, g, DuplicateException(i));
      assert IsFirstMatch(config, x.code, x.from, x.to, i);
    }
  }

  lemma HeadIsMember<T>(s: seq<T>)
    ensures s == [] || exists x :: x in s
  {
    if s != [] {
      assert s[0] in s;
    }
  }

  lemma WitnessIsForbidden(g: Graph, priv: set<string>, root: string, f: seq<Edge>)
    requires Witness(g, priv, root, f)
    ensures Forbidden(g, priv, root, Key(f).0, Key(f).1)
  {
  }
}
