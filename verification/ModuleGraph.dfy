/**
 The module graph that the privileged-import lint searches, what it means for an import edge to be
 reachable from a browser root, and the breadth-first search (scripts/verify-privileged-imports.ts).
 */
module ModuleGraph {
  import opened Common

  datatype Edge = Edge(from: string, to: string, typeOnly: bool, line: nat)

  datatype Module = Module(path: string, edges: seq<Edge>, importsServerOnly: bool, useClient: bool)

  /** A JavaScript `Map` from paths to modules: `order` is its insertion order. */
  datatype Graph = Graph(order: seq<string>, modules: map<string, Module>) {
    ghost predicate Valid() {
      && Distinct(order)
      && (forall p :: p in order <==> p in modules)
      && (forall p :: p in modules ==> modules[p].path == p)
      && (forall p, e :: p in modules && e in modules[p].edges ==> e.from == p)
    }
  }

  function EdgesOf(g: Graph, p: string): seq<Edge> {
    if p in g.modules then g.modules[p].edges else []
  }

  /** The edge is imported at run time by its `from` module. */
  ghost predicate Imports(g: Graph, e: Edge) {
    e in EdgesOf(g, e.from) && !e.typeOnly
  }

  /** Where a path from `root` ends: `path.at(-1)?.to ?? browserRoot`. */
  function End(root: string, path: seq<Edge>): string {
    if path == [] then root else path[|path| - 1].to
  }

  /** A chain of run-time imports from `root` on which every imported module is unprivileged. */
  ghost predicate Walk(g: Graph, priv: set<string>, root: string, path: seq<Edge>) {
    path == [] ||
    (var last := path[|path| - 1];
     && Walk(g, priv, root, path[..|path| - 1])
     && last.from == End(root, path[..|path| - 1])
     && Imports(g, last) && last.to !in priv)
  }

  /** `from` -> `to` is a run-time import of a privileged module by a module that the root reaches. */
  ghost predicate Forbidden(g: Graph, priv: set<string>, root: string, from: string, to: string) {
    && to in priv
    && (exists w :: Walk(g, priv, root, w) && End(root, w) == from)
    && (exists e :: Imports(g, e) && e.from == from && e.to == to)
  }

  /** No walk to the same end is shorter. */
  ghost predicate Minimal(g: Graph, priv: set<string>, root: string, path: seq<Edge>) {
    forall w :: Walk(g, priv, root, w) && End(root, w) == End(root, path) ==> |path| <= |w|
  }

  /** `e` is the first run-time import of its target in its module: the one whose line is printed. */
  ghost predicate FirstImport(g: Graph, e: Edge) {
    exists k ::
      && 0 <= k < |EdgesOf(g, e.from)| && EdgesOf(g, e.from)[k] == e
      && forall j :: 0 <= j < k ==> EdgesOf(g, e.from)[j].typeOnly || EdgesOf(g, e.from)[j].to != e.to
  }

  /** `found` is an import chain to a forbidden edge, and no chain to that edge is shorter. */
  ghost predicate Witness(g: Graph, priv: set<string>, root: string, found: seq<Edge>) {
    && found != []
    && var before, edge := found[..|found| - 1], found[|found| - 1];
    && Walk(g, priv, root, before) && edge.from == End(root, before)
    && Imports(g, edge) && edge.to in priv && FirstImport(g, edge)
    && Minimal(g, priv, root, before)
  }

  function Key(found: seq<Edge>): (string, string) {
    if found == [] then ("", "") else (found[|found| - 1].from, found[|found| - 1].to)
  }

  // ----- The state of one search -----

  /** `done` and `dist` are bookkeeping: the expanded modules, and the length of the path that found each module. */
  datatype Search = Search(queue: seq<seq<Edge>>, visited: set<string>, done: set<string>, dist: map<string, nat>)

  /** Each queued path is a walk, of the length recorded for its end. */
  ghost predicate Queued(g: Graph, priv: set<string>, root: string, s: Search) {
    forall path :: path in s.queue ==>
      Walk(g, priv, root, path) && End(root, path) in s.dist && s.dist[End(root, path)] == |path|
  }

  /** The queue holds at most two lengths, shorter paths first; nothing finished is longer than its head. */
  ghost predicate Layered(s: Search, d: nat) {
    && (forall i :: 0 <= i < |s.queue| ==> d <= |s.queue[i]| <= d + 1)
    && (forall i, j :: 0 <= i < j < |s.queue| ==> |s.queue[i]| <= |s.queue[j]|)
    && (forall p :: p in s.done && p in s.dist ==> s.dist[p] <= d)
  }

  /** A visited module is finished, current, or the end of exactly one queued path. */
  ghost predicate Partitioned(root: string, s: Search, current: set<string>) {
    && root in s.visited && s.dist.Keys == s.visited
    && s.done + current <= s.visited && s.done !! current
    && (forall path :: path in s.queue ==> End(root, path) in s.visited && End(root, path) !in s.done + current)
    && (forall i, j :: 0 <= i < j < |s.queue| ==> End(root, s.queue[i]) != End(root, s.queue[j]))
    && (forall p :: p in s.visited && p !in s.done + current ==> exists path :: path in s.queue && End(root, path) == p)
  }

  ghost predicate Ordered(g: Graph, priv: set<string>, root: string, s: Search, current: set<string>, d: nat) {
    && Partitioned(root, s, current)
    && s.dist[root] == 0
    && Queued(g, priv, root, s)
    && Layered(s, d)
  }

  /** Every unprivileged module imported from a finished one has been visited, one step further at most. */
  ghost predicate Closed(g: Graph, priv: set<string>, s: Search) {
    forall e :: Imports(g, e) && e.from in s.done && e.to !in priv
      ==> e.from in s.dist && e.to in s.dist && s.dist[e.to] <= s.dist[e.from] + 1
  }

  /** The run-time imports among `scanned` are accounted for: visited if unprivileged, reported if privileged. */
  ghost predicate Scanned(priv: set<string>, s: Search, scanned: seq<Edge>, d: nat, reported: set<(string, string)>) {
    forall e :: e in scanned && !e.typeOnly ==>
      if e.to in priv then (e.from, e.to) in reported
      else e.to in s.dist && s.dist[e.to] <= d + 1
  }

  /** Every privileged run-time import of a finished module has been reported. */
  ghost predicate Complete(g: Graph, priv: set<string>, done: set<string>, reported: set<(string, string)>) {
    forall e :: Imports(g, e) && e.from in done && e.to in priv ==> (e.from, e.to) in reported
  }

  /** The reports are witnesses, one for each key. */
  ghost predicate Reports(g: Graph, priv: set<string>, root: string, found: seq<seq<Edge>>,
                          reported: set<(string, string)>)
  {
    && (forall f :: f in found ==> Witness(g, priv, root, f))
    && (forall i, j :: 0 <= i < j < |found| ==> Key(found[i]) != Key(found[j]))
    && (forall f :: f in found ==> Key(f) in reported)
    && (forall k :: k in reported ==> exists f :: f in found && Key(f) == k)
  }

  /** A walk either ends in a finished module or is at least as long as every queued path. */
  lemma {:induction false} WalkBound(g: Graph, priv: set<string>, root: string, s: Search, d: nat, w: seq<Edge>)
    requires Ordered(g, priv, root, s, {}, d) && Closed(g, priv, s) && Walk(g, priv, root, w)
    ensures (End(root, w) in s.done && s.dist[End(root, w)] <= |w|) || |w| >= d
  {
    if w == [] {
      Located(root, s, d, root);
    } else {
      var last := w[|w| - 1];
      WalkBound(g, priv, root, s, d, w[..|w| - 1]);
      if last.from in s.done {
        Located(root, s, d, last.to);
      }
    }
  }

  /** A visited module is finished, or queued with a path of at least the head's length. */
  lemma Located(root: string, s: Search, d: nat, p: string)
    requires Partitioned(root, s, {}) && Layered(s, d) && p in s.visited
    requires forall path :: path in s.queue ==> End(root, path) in s.dist && s.dist[End(root, path)] == |path|
    ensures p in s.done || s.dist[p] >= d
    ensures s.queue == [] ==> p in s.done
  {
  }

  /** When the queue is empty, every module that the root reaches is finished. */
  lemma {:induction false} WalkFinished(g: Graph, priv: set<string>, root: string, s: Search, w: seq<Edge>)
    requires Partitioned(root, s, {}) && Closed(g, priv, s) && s.queue == [] && Walk(g, priv, root, w)
    ensures End(root, w) in s.done
  {
    if w != [] {
      WalkFinished(g, priv, root, s, w[..|w| - 1]);
    }
  }

  /** Taking the head off the queue makes its end the current module. */
  lemma TakeHead(root: string, s: Search)
    requires s.queue != [] && Partitioned(root, s, {})
    ensures Partitioned(root, s.(queue := s.queue[1..]), {End(root, s.queue[0])})
  {
    var q, c := s.queue[1..], End(root, s.queue[0]);
    assert s.queue == [s.queue[0]] + q;
    forall p | p in s.visited && p !in s.done + {c}
      ensures exists path :: path in q && End(root, path) == p
    {
      var path :| path in s.queue && End(root, path) == p;
      assert path in q;
    }
    forall path | path in q
      ensures path in s.queue && End(root, path) != c
    {
      var i :| 0 <= i < |q| && q[i] == path;
      assert s.queue[i + 1] == path;
    }
  }

  lemma TailLayered(s: Search, d: nat)
    requires s.queue != [] && Layered(s, d)
    ensures Layered(s.(queue := s.queue[1..]), d)
  {
    var q := s.queue[1..];
    assert forall i :: 0 <= i < |q| ==> q[i] == s.queue[i + 1];
  }

  /** Appending a path to a module not visited before keeps the partition. */
  lemma PushPartition(root: string, s: Search, current: set<string>, d: nat, next: seq<Edge>)
    requires Partitioned(root, s, current) && End(root, next) !in s.visited
    ensures Partitioned(root,
                        Search(s.queue + [next], s.visited + {End(root, next)}, s.done,
                               s.dist[End(root, next) := d + 1]),
                        current)
  {
    var q, added := s.queue + [next], End(root, next);
    forall p | p in s.visited + {added} && p !in s.done + current
      ensures exists path :: path in q && End(root, path) == p
    {
      if p == added {
        assert next in q;
      } else {
        var path :| path in s.queue && End(root, path) == p;
        assert path in q;
      }
    }
  }

  /** Appending a path one longer than the current one keeps the queue in order of length. */
  lemma PushLayered(s: Search, d: nat, next: seq<Edge>, p: string)
    requires Layered(s, d) && p !in s.done && |next| == d + 1
    ensures Layered(Search(s.queue + [next], s.visited + {p}, s.done, s.dist[p := d + 1]), d)
  {
  }

  lemma PushQueued(g: Graph, priv: set<string>, root: string, s: Search, d: nat, path: seq<Edge>, e: Edge)
    requires Queued(g, priv, root, s) && e.to !in s.dist
    requires Walk(g, priv, root, path) && End(root, path) == e.from && |path| == d && Imports(g, e) && e.to !in priv
    ensures Queued(g, priv, root, Search(s.queue + [path + [e]], s.visited + {e.to}, s.done, s.dist[e.to := d + 1]))
  {
    var next := path + [e];
    assert next[..|next| - 1] == path;
    assert Walk(g, priv, root, next) && End(root, next) == e.to;
  }

  /** A fully scanned module becomes finished. */
  lemma Finish(g: Graph, priv: set<string>, s: Search, c: string, d: nat, reported: set<(string, string)>)
    requires g.Valid()
    requires Closed(g, priv, s) && Complete(g, priv, s.done, reported)
    requires Scanned(priv, s, EdgesOf(g, c), d, reported) && c in s.dist && s.dist[c] == d
    ensures Closed(g, priv, s.(done := s.done + {c})) && Complete(g, priv, s.done + {c}, reported)
  {
  }

  /** After the current module is finished the head of the queue, if any, sets the layer. */
  lemma NextLayer(root: string, s: Search, c: string, d: nat)
    requires Partitioned(root, s, {c}) && Layered(s, d) && c in s.dist && s.dist[c] == d
    ensures Partitioned(root, s.(done := s.done + {c}), {})
    ensures Layered(s.(done := s.done + {c}), if s.queue == [] then d else |s.queue[0]|)
  {
  }

  /** All modules that can ever be visited. */
  ghost function Universe(g: Graph, root: string): set<string> {
    {root} + set p, e | p in g.modules && e in g.modules[p].edges :: e.to
  }

  lemma ForbiddenIsReported(g: Graph, priv: set<string>, root: string, s: Search, reported: set<(string, string)>,
                            from: string, to: string)
    requires Partitioned(root, s, {}) && Closed(g, priv, s) && s.queue == []
    requires Complete(g, priv, s.done, reported) && Forbidden(g, priv, root, from, to)
    ensures (from, to) in reported
  {
    var w :| Walk(g, priv, root, w) && End(root, w) == from;
    WalkFinished(g, priv, root, s, w);
  }

  lemma WitnessIsForbidden(g: Graph, priv: set<string>, root: string, f: seq<Edge>)
    requires Witness(g, priv, root, f)
    ensures Forbidden(g, priv, root, Key(f).0, Key(f).1)
  {
  }

  /** The reports of an exhausted search are exactly the forbidden edges. */
  lemma ReportsAreForbidden(g: Graph, priv: set<string>, root: string, s: Search,
                            found: seq<seq<Edge>>, reported: set<(string, string)>)
    requires Partitioned(root, s, {}) && Closed(g, priv, s) && s.queue == []
    requires Complete(g, priv, s.done, reported) && Reports(g, priv, root, found, reported)
    ensures forall from, to :: Forbidden(g, priv, root, from, to) <==> exists f :: f in found && Key(f) == (from, to)
  {
    forall from, to | Forbidden(g, priv, root, from, to)
      ensures exists f :: f in found && Key(f) == (from, to)
    {
      ForbiddenIsReported(g, priv, root, s, reported, from, to);
    }
    forall f | f in found
      ensures Forbidden(g, priv, root, Key(f).0, Key(f).1)
    {
      WitnessIsForbidden(g, priv, root, f);
    }
  }

  /** A minimal path to a module and the module's first import of a privileged one. */
  lemma ExtendToWitness(g: Graph, priv: set<string>, root: string, path: seq<Edge>, e: Edge)
    requires Walk(g, priv, root, path) && End(root, path) == e.from && Imports(g, e) && e.to in priv
    requires FirstImport(g, e) && Minimal(g, priv, root, path)
    ensures Witness(g, priv, root, path + [e]) && Key(path + [e]) == (e.from, e.to)
  {
    assert (path + [e])[..|path + [e]| - 1] == path;
  }

  /** Reporting one more key. */
  lemma Report(g: Graph, priv: set<string>, root: string, f: seq<Edge>, found: seq<seq<Edge>>,
               reported: set<(string, string)>)
    requires Reports(g, priv, root, found, reported) && Key(f) !in reported && Witness(g, priv, root, f)
    ensures Reports(g, priv, root, found + [f], reported + {Key(f)})
  {
    KeysGrow(f, found, reported);
    assert forall f' :: f' in found + [f] <==> f' in found || f' == f;
  }

  lemma KeysGrow(f: seq<Edge>, found: seq<seq<Edge>>, reported: set<(string, string)>)
    requires forall i, j :: 0 <= i < j < |found| ==> Key(found[i]) != Key(found[j])
    requires forall f :: f in found ==> Key(f) in reported
    requires (forall k :: k in reported ==> exists f :: f in found && Key(f) == k) && Key(f) !in reported
    ensures forall i, j :: 0 <= i < j < |found + [f]| ==> Key((found + [f])[i]) != Key((found + [f])[j])
    ensures forall k :: k in reported + {Key(f)} ==> exists f' :: f' in found + [f] && Key(f') == k
  {
    var found' := found + [f];
    forall k | k in reported + {Key(f)}
      ensures exists f' :: f' in found' && Key(f') == k
    {
      if k == Key(f) {
        assert f in found';
      } else {
        var f' :| f' in found && Key(f') == k;
        assert f' in found';
      }
    }
  }

  /** The path at the head of the queue is a shortest walk to its end. */
  lemma Shortest(g: Graph, priv: set<string>, root: string, s: Search, path: seq<Edge>)
    requires s.queue != [] && path == s.queue[0]
    requires Ordered(g, priv, root, s, {}, |path|) && Closed(g, priv, s)
    ensures Minimal(g, priv, root, path)
  {
    forall w | Walk(g, priv, root, w) && End(root, w) == End(root, path)
      ensures |path| <= |w|
    {
      WalkBound(g, priv, root, s, |path|, w);
    }
  }

  /** Whatever is visited while the current module is scanned is at most one step further away. */
  lemma BoundedDist(g: Graph, priv: set<string>, root: string, s: Search, c: string, d: nat, p: string)
    requires Ordered(g, priv, root, s, {c}, d) && s.dist[c] == d && p in s.visited
    ensures s.dist[p] <= d + 1
  {
  }

  /** What has been found and reported so far is sound, and complete for the finished modules. */
  ghost predicate Sound(g: Graph, priv: set<string>, root: string, s: Search,
                        found: seq<seq<Edge>>, reported: set<(string, string)>)
  {
    && Closed(g, priv, s) && Complete(g, priv, s.done, reported) && Reports(g, priv, root, found, reported)
    && s.visited <= Universe(g, root)
  }

  /** Between two modules: the search is ordered and everything finished is accounted for. */
  ghost predicate Between(g: Graph, priv: set<string>, root: string, s: Search,
                          found: seq<seq<Edge>>, reported: set<(string, string)>)
  {
    && Partitioned(root, s, {}) && s.dist[root] == 0 && Queued(g, priv, root, s)
    && (s.queue != [] ==> Layered(s, |s.queue[0]|))
    && Sound(g, priv, root, s, found, reported)
  }

  /** While the end of `path` is scanned: `scanned` is the part of its imports already handled. */
  ghost predicate Scanning(g: Graph, priv: set<string>, root: string, s: Search, path: seq<Edge>, scanned: seq<Edge>,
                           found: seq<seq<Edge>>, reported: set<(string, string)>)
  {
    && End(root, path) in s.visited
    && Ordered(g, priv, root, s, {End(root, path)}, |path|) && s.dist[End(root, path)] == |path|
    && Walk(g, priv, root, path) && Minimal(g, priv, root, path)
    && Scanned(priv, s, scanned, |path|, reported)
    && Sound(g, priv, root, s, found, reported)
  }

  lemma BeginScan(g: Graph, priv: set<string>, root: string, s: Search, found: seq<seq<Edge>>,
                  reported: set<(string, string)>)
    requires Between(g, priv, root, s, found, reported) && s.queue != []
    ensures Scanning(g, priv, root, s.(queue := s.queue[1..]), s.queue[0], [], found, reported)
  {
    Shortest(g, priv, root, s, s.queue[0]);
    TakeHead(root, s);
    TailLayered(s, |s.queue[0]|);
    assert s.queue[0] in s.queue;
    assert forall path :: path in s.queue[1..] ==> path in s.queue;
  }

  lemma EndScan(g: Graph, priv: set<string>, root: string, s: Search, path: seq<Edge>,
                found: seq<seq<Edge>>, reported: set<(string, string)>)
    requires g.Valid() && Scanning(g, priv, root, s, path, EdgesOf(g, End(root, path)), found, reported)
    ensures Between(g, priv, root, s.(done := s.done + {End(root, path)}), found, reported)
  {
    Finish(g, priv, s, End(root, path), |path|, reported);
    NextLayer(root, s, End(root, path), |path|);
  }

  /** The bookkeeping after an unvisited module `p` has been found by `next`. */
  function Visited(s: Search, next: seq<Edge>, p: string): Search {
    Search(s.queue + [next], s.visited + {p}, s.done, s.dist[p := |next|])
  }

  lemma VisitOrdered(g: Graph, priv: set<string>, root: string, s: Search, path: seq<Edge>, e: Edge)
    requires Ordered(g, priv, root, s, {End(root, path)}, |path|)
    requires Walk(g, priv, root, path)
    requires Imports(g, e) && e.from == End(root, path) && e.to !in priv && e.to !in s.visited
    ensures Ordered(g, priv, root, Visited(s, path + [e], e.to), {End(root, path)}, |path|)
  {
    assert End(root, path + [e]) == e.to;
    PushPartition(root, s, {End(root, path)}, |path|, path + [e]);
    PushLayered(s, |path|, path + [e], e.to);
    PushQueued(g, priv, root, s, |path|, path, e);
  }

  lemma VisitSound(g: Graph, priv: set<string>, root: string, s: Search, next: seq<Edge>, e: Edge,
                   found: seq<seq<Edge>>, reported: set<(string, string)>)
    requires Sound(g, priv, root, s, found, reported) && s.dist.Keys == s.visited
    requires Imports(g, e) && e.to !in s.visited
    ensures Sound(g, priv, root, Visited(s, next, e.to), found, reported)
  {
    assert e in g.modules[e.from].edges;
  }

  /** Imports that change nothing: type-only ones, and run-time ones to what is reported or visited already. */
  lemma StepOver(g: Graph, priv: set<string>, root: string, s: Search, path: seq<Edge>, scanned: seq<Edge>, e: Edge,
                 found: seq<seq<Edge>>, reported: set<(string, string)>)
    requires Scanning(g, priv, root, s, path, scanned, found, reported)
    requires e.typeOnly || (if e.to in priv then (e.from, e.to) in reported else e.to in s.visited)
    ensures Scanning(g, priv, root, s, path, scanned + [e], found, reported)
  {
    if !e.typeOnly && e.to !in priv {
      BoundedDist(g, priv, root, s, End(root, path), |path|, e.to);
    }
  }

  /** An import whose key is not reported yet is the first one to its target. */
  lemma FirstUnreported(g: Graph, priv: set<string>, s: Search, scanned: seq<Edge>, e: Edge, d: nat,
                        reported: set<(string, string)>)
    requires g.Valid() && scanned + [e] <= EdgesOf(g, e.from) && e.to in priv
    requires Scanned(priv, s, scanned, d, reported) && (e.from, e.to) !in reported
    ensures FirstImport(g, e)
  {
    var edges := EdgesOf(g, e.from);
    assert edges[|scanned|] == (scanned + [e])[|scanned|] == e;
    forall j | 0 <= j < |scanned|
      ensures edges[j].typeOnly || edges[j].to != e.to
    {
      assert edges[j] == (scanned + [e])[j] == scanned[j];
      assert edges[j].from == e.from;
    }
  }

  lemma StepReport(g: Graph, priv: set<string>, root: string, s: Search, path: seq<Edge>, scanned: seq<Edge>, e: Edge,
                   found: seq<seq<Edge>>, reported: set<(string, string)>)
    requires Scanning(g, priv, root, s, path, scanned, found, reported)
    requires Imports(g, e) && e.from == End(root, path) && e.to in priv && (e.from, e.to) !in reported
    requires g.Valid() && scanned + [e] <= EdgesOf(g, End(root, path))
    ensures Scanning(g, priv, root, s, path, scanned + [e], found + [path + [e]], reported + {(e.from, e.to)})
  {
    FirstUnreported(g, priv, s, scanned, e, |path|, reported);
    ExtendToWitness(g, priv, root, path, e);
    ReportSound(g, priv, root, s, path + [e], found, reported);
    ReportScanned(priv, s, scanned, e, |path|, reported);
  }

  lemma ReportScanned(priv: set<string>, s: Search, scanned: seq<Edge>, e: Edge, d: nat,
                      reported: set<(string, string)>)
    requires Scanned(priv, s, scanned, d, reported) && e.to in priv
    ensures Scanned(priv, s, scanned + [e], d, reported + {(e.from, e.to)})
  {
  }

  lemma ReportSound(g: Graph, priv: set<string>, root: string, s: Search, f: seq<Edge>,
                    found: seq<seq<Edge>>, reported: set<(string, string)>)
    requires Sound(g, priv, root, s, found, reported) && Key(f) !in reported && Witness(g, priv, root, f)
    ensures Sound(g, priv, root, s, found + [f], reported + {Key(f)})
  {
    Report(g, priv, root, f, found, reported);
  }

  lemma StepVisit(g: Graph, priv: set<string>, root: string, s: Search, path: seq<Edge>, scanned: seq<Edge>, e: Edge,
                  found: seq<seq<Edge>>, reported: set<(string, string)>)
    requires Scanning(g, priv, root, s, path, scanned, found, reported)
    requires Imports(g, e) && e.from == End(root, path) && e.to !in priv && e.to !in s.visited
    ensures Scanning(g, priv, root, Visited(s, path + [e], e.to), path, scanned + [e], found, reported)
  {
    VisitOrdered(g, priv, root, s, path, e);
    VisitSound(g, priv, root, s, path + [e], e, found, reported);
  }

  lemma Runtime(g: Graph, c: string, e: Edge)
    requires g.Valid() && e in EdgesOf(g, c) && !e.typeOnly
    ensures Imports(g, e) && e.from == c
  {
  }

  /** The inner loop: every import of the module that `path` leads to. */
  method Scan(g: Graph, priv: set<string>, root: string, path: seq<Edge>, queue0: seq<seq<Edge>>, visited0: set<string>,
              found0: seq<seq<Edge>>, reported0: set<(string, string)>, ghost s0: Search)
    returns (queue: seq<seq<Edge>>, visited: set<string>, found: seq<seq<Edge>>, reported: set<(string, string)>,
             ghost s: Search)
    requires g.Valid() && s0.queue == queue0 && s0.visited == visited0
    requires Scanning(g, priv, root, s0, path, [], found0, reported0)
    ensures s.queue == queue && s.visited == visited && s.done == s0.done
    ensures Scanning(g, priv, root, s, path, EdgesOf(g, End(root, path)), found, reported)
  {
    queue, visited, found, reported, s := queue0, visited0, found0, reported0, s0;
    var current := EdgesOf(g, End(root, path));
    ghost var scanned: seq<Edge> := [];
    for i := 0 to |current|
      invariant scanned == current[..i]
      invariant s.queue == queue && s.visited == visited && s.done == s0.done
      invariant Scanning(g, priv, root, s, path, scanned, found, reported)
    {
      var edge := current[i];
      var nextPath := path + [edge];
      PrefixStep(current, i);
      if edge.typeOnly {
        StepOver(g, priv, root, s, path, scanned, edge, found, reported);
      } else {
        Runtime(g, End(root, path), edge);
        if edge.to in priv {
          if (edge.from, edge.to) in reported {
            StepOver(g, priv, root, s, path, scanned, edge, found, reported);
          } else {
            StepReport(g, priv, root, s, path, scanned, edge, found, reported);
            reported := reported + {(edge.from, edge.to)};
            found := found + [nextPath];
          }
        } else if edge.to !in visited {
          StepVisit(g, priv, root, s, path, scanned, edge, found, reported);
          visited := visited + {edge.to};
          queue := queue + [nextPath];
          s := Visited(s, nextPath, edge.to);
        } else {
          StepOver(g, priv, root, s, path, scanned, edge, found, reported);
        }
      }
      scanned := scanned + [edge];
    }
    FullPrefix(current);
  }

  /**
   The breadth-first search from one browser root: it reports each forbidden edge exactly once, with a
   shortest import chain, and reports nothing else. It ends on every finite graph, cycles included.
   */
  method SearchFrom(g: Graph, priv: set<string>, root: string) returns (found: seq<seq<Edge>>)
    requires g.Valid()
    ensures forall f :: f in found ==> Witness(g, priv, root, f)
    ensures forall i, j :: 0 <= i < j < |found| ==> Key(found[i]) != Key(found[j])
    ensures forall from, to :: Forbidden(g, priv, root, from, to) <==> exists f :: f in found && Key(f) == (from, to)
  {
    var queue: seq<seq<Edge>> := [[]];
    var reported: set<(string, string)> := {};
    var visited := {root};
    found := [];
    ghost var s := Search([[]], {root}, {}, map[root := 0]);
    Start(g, priv, root);
    while queue != []
      invariant s.queue == queue && s.visited == visited
      invariant Between(g, priv, root, s, found, reported)
      decreases Universe(g, root) - s.done
    {
      var path := queue[0];
      BeginScan(g, priv, root, s, found, reported);
      queue, visited, found, reported, s :=
        Scan(g, priv, root, path, queue[1..], visited, found, reported, s.(queue := queue[1..]));
      EndScan(g, priv, root, s, path, found, reported);
      s := s.(done := s.done + {End(root, path)});
    }
    ReportsAreForbidden(g, priv, root, s, found, reported);
  }

  lemma Start(g: Graph, priv: set<string>, root: string)
    ensures Between(g, priv, root, Search([[]], {root}, {}, map[root := 0]), [], {})
  {
    var q: seq<seq<Edge>> := [[]];
    assert q[0] in q && End(root, q[0]) == root;
  }

  // ----- the printed chain -----

  /** The modules along a path. */
  function Stations(path: seq<Edge>): seq<string>
    requires path != []
  {
    [path[0].from] + seq(|path|, i requires 0 <= i < |path| => path[i].to)
  }

  function Label(e: Edge): string {
    e.to + if e.typeOnly then " (type-only)" else ""
  }

  function FormatPath(path: seq<Edge>): string {
    if path == [] then ""
    else Joined([path[0].from] + seq(|path|, i requires 0 <= i < |path| => Label(path[i])), " -> ")
  }

  /** Each edge is a run-time import from where the edges before it end. */
  ghost predicate Linked(g: Graph, root: string, path: seq<Edge>) {
    forall i :: 0 <= i < |path| ==> Imports(g, path[i]) && path[i].from == End(root, path[..i])
  }

  lemma LinkOne(g: Graph, root: string, path: seq<Edge>, e: Edge)
    requires Linked(g, root, path) && Imports(g, e) && e.from == End(root, path)
    ensures Linked(g, root, path + [e])
  {
    assert forall i :: 0 <= i <= |path| ==> (path + [e])[..i] == path[..i];
    FullPrefix(path);
  }

  lemma {:induction false} WalkLinks(g: Graph, priv: set<string>, root: string, path: seq<Edge>)
    requires Walk(g, priv, root, path)
    ensures Linked(g, root, path)
  {
    if path != [] {
      var init, last := path[..|path| - 1], path[|path| - 1];
      WalkLinks(g, priv, root, init);
      LinkOne(g, root, init, last);
      assert path == init + [last];
    }
  }

  lemma WitnessLinks(g: Graph, priv: set<string>, root: string, found: seq<Edge>)
    requires Witness(g, priv, root, found)
    ensures Linked(g, root, found)
  {
    var before, edge := found[..|found| - 1], found[|found| - 1];
    WalkLinks(g, priv, root, before);
    LinkOne(g, root, before, edge);
    assert found == before + [edge];
  }

  lemma StationAt(g: Graph, root: string, path: seq<Edge>, i: nat)
    requires Linked(g, root, path) && i < |path|
    ensures path[i].from == Stations(path)[i] && path[i].to == Stations(path)[i + 1]
    ensures i == 0 ==> Stations(path)[0] == root
  {
    if i > 0 {
      assert path[..i][i - 1] == path[i - 1];
    }
  }

  lemma RuntimeLabels(path: seq<Edge>)
    requires path != [] && forall e :: e in path ==> !e.typeOnly
    ensures FormatPath(path) == Joined(Stations(path), " -> ")
  {
    var labels := seq(|path|, i requires 0 <= i < |path| => Label(path[i]));
    assert forall i :: 0 <= i < |path| ==> labels[i] == path[i].to;
    assert labels == seq(|path|, i requires 0 <= i < |path| => path[i].to);
  }

  /** What is printed for a report is a chain of run-time imports from the root to the privileged module. */
  lemma PrintedPathIsChain(g: Graph, priv: set<string>, root: string, found: seq<Edge>)
    requires Witness(g, priv, root, found)
    ensures FormatPath(found) == Joined(Stations(found), " -> ")
    ensures Stations(found)[0] == root && Stations(found)[|found|] == Key(found).1
    ensures forall i :: 0 <= i < |found| ==>
              Imports(g, found[i]) && found[i].from == Stations(found)[i] && found[i].to == Stations(found)[i + 1]
  {
    WitnessLinks(g, priv, root, found);
    forall i | 0 <= i < |found|
      ensures Imports(g, found[i]) && found[i].from == Stations(found)[i] && found[i].to == Stations(found)[i + 1]
    {
      StationAt(g, root, found, i);
    }
    StationAt(g, root, found, 0);
    RuntimeLabels(found);
  }
}
