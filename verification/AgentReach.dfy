/** What the walk visits and in which order: exactly the enabled nodes that routes
    through enabled nodes reach, nearest first. */
module AgentReach {
  import opened Prelude
  import opened AgentGraph

  // ------------------------------------------ the reference: routes and distance

  /** `u` runs and can send control to `t`: a member of a supervisor, or the target of a
      command whose source is `u`. */
  ghost predicate Edge(c: Config, u: string, t: string) {
    && u in Declared(c) && u !in c.disabled
    && ((Declared(c)[u].supervisor && t in Declared(c)[u].members) || Command(u, t) in c.graph.commands)
  }

  lemma EdgesAreTargets(c: Config, u: string)
    ensures forall t :: Edge(c, u, t) <==> Enabled(c, u) && t in Targets(c, u)
  {
    forall t ensures t in Handoffs(c.graph.commands, u) <==> Command(u, t) in c.graph.commands {
      HandoffsIff(c.graph.commands, u, t);
    }
  }

  /** `p` leads from the entrypoint to `v` along edges. */
  ghost predicate IsRoute(c: Config, p: seq<string>, v: string)
    decreases |p|
  {
    && p != [] && p[|p| - 1] == v
    && if |p| == 1 then v == c.graph.entrypoint
       else Edge(c, p[|p| - 2], v) && IsRoute(c, p[..|p| - 1], p[|p| - 2])
  }

  ghost predicate HasRoute(c: Config, v: string, edges: nat) {
    exists p :: IsRoute(c, p, v) && |p| == edges + 1
  }

  /** `d` edges lead to `v`, and no route to `v` has fewer. */
  ghost predicate Distance(c: Config, v: string, d: nat) {
    HasRoute(c, v, d) && forall n: nat :: HasRoute(c, v, n) ==> d <= n
  }

  /** The nodes the documentation promises will run. */
  ghost function Reachable(c: Config): set<string> {
    set v | v in Declared(c).Keys && v !in c.disabled && exists n: nat :: HasRoute(c, v, n)
  }

  ghost predicate Distinct<T>(s: seq<T>) {
    forall i, j :: 0 <= i < j < |s| ==> s[i] != s[j]
  }

  ghost function Elements<T>(s: seq<T>): set<T> {
    set x | x in s
  }

  lemma {:induction false} DistinctCount<T>(s: seq<T>)
    requires Distinct(s)
    ensures |Elements(s)| == |s|
  {
    if s == [] {
    } else {
      var init := s[..|s| - 1];
      DistinctCount(init);
      assert forall i :: 0 <= i < |init| ==> init[i] == s[i] && s[i] != s[|s| - 1];
      assert Elements(s) == Elements(init) + {s[|s| - 1]};
    }
  }

  // ------------------------------------------------- the invariant of the walk

  /** The queue annotated with route lengths: never decreasing, at most one apart. */
  ghost predicate QueueLevels(c: Config, queue: seq<string>, level: seq<nat>) {
    && |level| == |queue|
    && (forall i, j :: 0 <= i <= j < |level| ==> level[i] <= level[j] <= level[0] + 1)
    && (forall i :: 0 <= i < |queue| ==> HasRoute(c, queue[i], level[i]))
  }

  ghost predicate VisitedLevels(c: Config, visited: set<string>, level: seq<nat>, dist: map<string, nat>) {
    && dist.Keys == visited
    && (forall v :: v in dist ==> Distance(c, v, dist[v]))
    && (forall v :: v in dist && level != [] ==> dist[v] <= level[0])
  }

  /** `t` has been reached within `n` edges: it is marked, or it is waiting. */
  ghost predicate Within(queue: seq<string>, level: seq<nat>, dist: map<string, nat>, t: string, n: nat)
    requires |level| == |queue|
  {
    || (t in dist && dist[t] <= n)
    || (exists i :: 0 <= i < |queue| && queue[i] == t && level[i] <= n)
  }

  ghost predicate Closed(c: Config, queue: seq<string>, level: seq<nat>, dist: map<string, nat>)
    requires |level| == |queue|
  {
    && Within(queue, level, dist, c.graph.entrypoint, 0)
    && forall v, t :: v in dist && Edge(c, v, t) ==>
         Within(queue, level, dist, t, dist[v] + 1)
  }

  /** The path lists nodes that may run, none twice, by increasing distance. */
  ghost predicate PathOrdered(c: Config, path: seq<string>, dist: map<string, nat>) {
    && Distinct(path)
    && (forall i :: 0 <= i < |path| ==> Enabled(c, path[i]) && path[i] in dist && Distance(c, path[i], dist[path[i]]))
    && (forall i, j :: 0 <= i <= j < |path| ==> dist[path[i]] <= dist[path[j]])
  }

  ghost predicate Levels(c: Config, queue: seq<string>, visited: set<string>, path: seq<string>,
                         level: seq<nat>, dist: map<string, nat>)
  {
    && QueueLevels(c, queue, level)
    && VisitedLevels(c, visited, level, dist)
    && Closed(c, queue, level, dist)
    && PathOrdered(c, path, dist)
    && (forall v :: v in visited && Enabled(c, v) ==> v in path)
  }

  ghost predicate Inv(c: Config, w: Walk, level: seq<nat>, dist: map<string, nat>) {
    Levels(c, w.queue, w.visited, w.path, level, dist)
  }

  /** Every route ends at a marked node no farther away, or something nearer still waits. */
  lemma {:induction false} RouteIsCovered(c: Config, queue: seq<string>, level: seq<nat>, dist: map<string, nat>,
                                          p: seq<string>, v: string)
    requires |level| == |queue| && Closed(c, queue, level, dist) && IsRoute(c, p, v)
    ensures (v in dist && dist[v] <= |p| - 1) || (exists i :: 0 <= i < |level| && level[i] <= |p| - 1)
    decreases |p|
  {
    if |p| == 1 {
      assert Within(queue, level, dist, v, 0);
    } else {
      var u := p[|p| - 2];
      RouteIsCovered(c, queue, level, dist, p[..|p| - 1], u);
      if u in dist && dist[u] <= |p| - 2 {
        assert Within(queue, level, dist, v, dist[u] + 1);
      }
    }
  }

  /** A node marked when it is popped gets its shortest distance, although the queue
      may hold it several times. */
  lemma PoppedAtDistance(c: Config, queue: seq<string>, level: seq<nat>, dist: map<string, nat>)
    requires QueueLevels(c, queue, level) && Closed(c, queue, level, dist)
    requires queue != [] && queue[0] !in dist
    ensures Distance(c, queue[0], level[0])
  {
    forall n: nat | HasRoute(c, queue[0], n) ensures level[0] <= n {
      var p :| IsRoute(c, p, queue[0]) && |p| == n + 1;
      RouteIsCovered(c, queue, level, dist, p, queue[0]);
    }
  }

  lemma WithinPopped(queue: seq<string>, level: seq<nat>, dist: map<string, nat>, more: map<string, nat>,
                     t: string, n: nat)
    requires |level| == |queue| && queue != []
    requires Within(queue, level, dist, t, n)
    requires forall v :: v in dist ==> v in more && more[v] == dist[v]
    requires queue[0] in more && more[queue[0]] <= level[0]
    ensures Within(queue[1..], level[1..], more, t, n)
  {
    if !(t in dist && dist[t] <= n) {
      var i :| 0 <= i < |queue| && queue[i] == t && level[i] <= n;
      if i > 0 {
        assert queue[1..][i - 1] == t && level[1..][i - 1] <= n;
      }
    }
  }

  lemma PopKeepsQueue(c: Config, queue: seq<string>, level: seq<nat>)
    requires QueueLevels(c, queue, level) && queue != []
    ensures QueueLevels(c, queue[1..], level[1..])
    ensures level[1..] != [] ==> level[0] <= level[1..][0]
  {
    forall i | 0 <= i < |queue[1..]|
      ensures HasRoute(c, queue[1..][i], level[1..][i])
    {
      assert queue[1..][i] == queue[i + 1] && level[1..][i] == level[i + 1];
    }
  }

  /** Dropping a queue entry that is already marked. */
  lemma SkipKeepsInv(c: Config, w: Walk, level: seq<nat>, dist: map<string, nat>)
    requires Inv(c, w, level, dist) && w.queue != [] && w.queue[0] in w.visited
    ensures Inv(c, w.(queue := w.queue[1..], readings := w.readings + 1), level[1..], dist)
  {
    PopKeepsQueue(c, w.queue, level);
    WithinPopped(w.queue, level, dist, dist, c.graph.entrypoint, 0);
    forall v, t | v in dist && Edge(c, v, t)
      ensures Within(w.queue[1..], level[1..], dist, t, dist[v] + 1)
    {
      WithinPopped(w.queue, level, dist, dist, t, dist[v] + 1);
    }
  }

  /** The invariant once `v`, the head of the queue, is marked but its own targets are
      not yet accounted for. */
  ghost predicate Marked(c: Config, queue: seq<string>, visited: set<string>, path: seq<string>,
                         level: seq<nat>, dist: map<string, nat>, v: string)
  {
    && QueueLevels(c, queue, level)
    && VisitedLevels(c, visited, level, dist)
    && v in dist && (forall u :: u in dist ==> dist[u] <= dist[v])
    && (forall i :: 0 <= i < |level| ==> level[i] <= dist[v] + 1)
    && Within(queue, level, dist, c.graph.entrypoint, 0)
    && (forall u, t :: u in dist && u != v && Edge(c, u, t) ==> Within(queue, level, dist, t, dist[u] + 1))
    && PathOrdered(c, path, dist) && v !in path
    && (forall u :: u in visited && u != v && Enabled(c, u) ==> u in path)
  }

  /** Once the head is marked, everything `Closed` promised is still within reach. */
  lemma PopKeepsWithin(c: Config, queue: seq<string>, level: seq<nat>, dist: map<string, nat>, more: map<string, nat>)
    requires |level| == |queue| && queue != [] && Closed(c, queue, level, dist)
    requires queue[0] !in dist && more == dist[queue[0] := level[0]]
    ensures Within(queue[1..], level[1..], more, c.graph.entrypoint, 0)
    ensures forall u, t :: u in dist && Edge(c, u, t) ==> Within(queue[1..], level[1..], more, t, dist[u] + 1)
  {
    WithinPopped(queue, level, dist, more, c.graph.entrypoint, 0);
    forall u, t | u in dist && Edge(c, u, t)
      ensures Within(queue[1..], level[1..], more, t, dist[u] + 1)
    {
      WithinPopped(queue, level, dist, more, t, dist[u] + 1);
    }
  }

  lemma MoreKeepsPath(c: Config, path: seq<string>, dist: map<string, nat>, v: string, d: nat)
    requires PathOrdered(c, path, dist) && v !in dist
    ensures PathOrdered(c, path, dist[v := d]) && v !in path
  {
    assert forall i :: 0 <= i < |path| ==> path[i] in dist;
  }

  lemma MarkKeepsVisited(c: Config, queue: seq<string>, visited: set<string>, level: seq<nat>, dist: map<string, nat>)
    requires QueueLevels(c, queue, level) && VisitedLevels(c, visited, level, dist) && Closed(c, queue, level, dist)
    requires queue != [] && queue[0] !in visited
    ensures VisitedLevels(c, visited + {queue[0]}, level[1..], dist[queue[0] := level[0]])
  {
    PoppedAtDistance(c, queue, level, dist);
  }

  lemma MarkHead(c: Config, queue: seq<string>, visited: set<string>, path: seq<string>,
                 level: seq<nat>, dist: map<string, nat>)
    requires Levels(c, queue, visited, path, level, dist) && queue != [] && queue[0] !in visited
    ensures Marked(c, queue[1..], visited + {queue[0]}, path, level[1..], dist[queue[0] := level[0]], queue[0])
  {
    MarkKeepsVisited(c, queue, visited, level, dist);
    PopKeepsQueue(c, queue, level);
    PopKeepsWithin(c, queue, level, dist, dist[queue[0] := level[0]]);
    MoreKeepsPath(c, path, dist, queue[0], level[0]);
  }

  ghost function Extended(level: seq<nat>, n: nat, d: nat): (r: seq<nat>)
    ensures |r| == |level| + n
    ensures forall i :: 0 <= i < |r| ==> r[i] == if i < |level| then level[i] else d
  {
    level + seq(n, i => d)
  }

  lemma RouteExtends(c: Config, v: string, d: nat, t: string)
    requires HasRoute(c, v, d) && Edge(c, v, t)
    ensures HasRoute(c, t, d + 1)
  {
    var p :| IsRoute(c, p, v) && |p| == d + 1;
    var q := p + [t];
    assert q[..|q| - 1] == p;
    assert IsRoute(c, q, t);
  }

  /** Appending the unseen targets of the node just marked at distance `d`. */
  lemma AppendKeepsQueue(c: Config, queue: seq<string>, level: seq<nat>, added: seq<string>, v: string, d: nat)
    requires QueueLevels(c, queue, level) && HasRoute(c, v, d)
    requires forall i :: 0 <= i < |level| ==> d <= level[i] <= d + 1
    requires forall t :: t in added ==> Edge(c, v, t)
    ensures QueueLevels(c, queue + added, Extended(level, |added|, d + 1))
  {
    forall i | 0 <= i < |queue + added|
      ensures HasRoute(c, (queue + added)[i], Extended(level, |added|, d + 1)[i])
    {
      if i >= |queue| {
        assert added[i - |queue|] in added;
        RouteExtends(c, v, d, added[i - |queue|]);
      }
    }
  }

  lemma WithinAppended(queue: seq<string>, level: seq<nat>, dist: map<string, nat>, added: seq<string>, d: nat,
                       t: string, n: nat)
    requires |level| == |queue|
    requires Within(queue, level, dist, t, n) || (t in added && d <= n)
    ensures Within(queue + added, Extended(level, |added|, d), dist, t, n)
  {
    var all := queue + added;
    var ext := Extended(level, |added|, d);
    if t in dist && dist[t] <= n {
    } else if exists i :: 0 <= i < |queue| && queue[i] == t && level[i] <= n {
      var i :| 0 <= i < |queue| && queue[i] == t && level[i] <= n;
      assert all[i] == t && ext[i] <= n;
    } else {
      var i :| 0 <= i < |added| && added[i] == t;
      assert all[|queue| + i] == t && ext[|queue| + i] <= n;
    }
  }

  lemma PathExtends(c: Config, path: seq<string>, dist: map<string, nat>, v: string)
    requires PathOrdered(c, path, dist)
    requires Enabled(c, v) && v in dist && Distance(c, v, dist[v]) && v !in path
    requires forall u :: u in dist ==> dist[u] <= dist[v]
    ensures PathOrdered(c, path + [v], dist)
  {
  }

  /** Marking a node that cannot run. */
  lemma MarkKeepsInv(c: Config, w: Walk, level: seq<nat>, dist: map<string, nat>, marked: Walk)
    requires Inv(c, w, level, dist) && w.queue != [] && w.queue[0] !in w.visited && !Enabled(c, w.queue[0])
    requires marked == w.(queue := w.queue[1..], readings := w.readings + 1, visited := w.visited + {w.queue[0]})
    ensures Inv(c, marked, level[1..], dist[w.queue[0] := level[0]])
  {
    MarkHead(c, w.queue, w.visited, w.path, level, dist);
  }

  lemma AppendKeepsClosed(c: Config, queue: seq<string>, level: seq<nat>, dist: map<string, nat>, v: string,
                          visited: set<string>)
    requires |level| == |queue| && v in dist && Enabled(c, v)
    requires dist.Keys == visited && forall u :: u in dist ==> dist[u] <= dist[v]
    requires Within(queue, level, dist, c.graph.entrypoint, 0)
    requires forall u, t :: u in dist && u != v && Edge(c, u, t) ==> Within(queue, level, dist, t, dist[u] + 1)
    ensures var added := Unseen(Targets(c, v), visited);
            Closed(c, queue + added, Extended(level, |added|, dist[v] + 1), dist)
  {
    var added := Unseen(Targets(c, v), visited);
    var ext := Extended(level, |added|, dist[v] + 1);
    EdgesAreTargets(c, v);
    WithinAppended(queue, level, dist, added, dist[v] + 1, c.graph.entrypoint, 0);
    forall u, t | u in dist && Edge(c, u, t)
      ensures Within(queue + added, ext, dist, t, dist[u] + 1)
    {
      WithinAppended(queue, level, dist, added, dist[v] + 1, t, dist[u] + 1);
    }
  }

  lemma VisitKeepsLevels(c: Config, queue: seq<string>, visited: set<string>, path: seq<string>,
                         level: seq<nat>, dist: map<string, nat>, v: string)
    requires Marked(c, queue, visited, path, level, dist, v) && Enabled(c, v)
    ensures var added := Unseen(Targets(c, v), visited);
            Levels(c, queue + added, visited, path + [v], Extended(level, |added|, dist[v] + 1), dist)
  {
    var added := Unseen(Targets(c, v), visited);
    EdgesAreTargets(c, v);
    AppendKeepsClosed(c, queue, level, dist, v, visited);
    PathExtends(c, path, dist, v);
    AppendKeepsQueue(c, queue, level, added, v, dist[v]);
    forall u | u in visited && Enabled(c, u) ensures u in path + [v] {
      assert u == v || u in path;
    }
  }

  /** Marking the head of the queue. */
  lemma MarkKeepsMarked(c: Config, w: Walk, level: seq<nat>, dist: map<string, nat>, marked: Walk,
                        more: map<string, nat>)
    requires Inv(c, w, level, dist) && w.queue != [] && w.queue[0] !in w.visited
    requires marked == w.(queue := w.queue[1..], readings := w.readings + 1, visited := w.visited + {w.queue[0]})
    requires more == dist[w.queue[0] := level[0]]
    ensures Marked(c, marked.queue, marked.visited, marked.path, level[1..], more, w.queue[0])
  {
    MarkHead(c, w.queue, w.visited, w.path, level, dist);
  }

  /** Running the node just marked. */
  lemma VisitKeepsInv(c: Config, env: Env, marked: Walk, level: seq<nat>, dist: map<string, nat>, v: string)
    requires Marked(c, marked.queue, marked.visited, marked.path, level, dist, v) && Enabled(c, v)
    ensures Inv(c, Visit(c, env, marked, v),
                Extended(level, |Unseen(Targets(c, v), marked.visited)|, dist[v] + 1), dist)
  {
    VisitKeepsLevels(c, marked.queue, marked.visited, marked.path, level, dist, v);
  }

  // ------------------------------------------------------------- the theorems

  /** All nodes that can be reached have run. */
  ghost predicate Exhaustive(c: Config, path: seq<string>) {
    forall v, n: nat :: HasRoute(c, v, n) && Enabled(c, v) ==> v in path
  }

  lemma EmptyQueueIsExhaustive(c: Config, w: Walk, level: seq<nat>, dist: map<string, nat>)
    requires Inv(c, w, level, dist) && w.queue == []
    ensures Exhaustive(c, w.path)
  {
    forall v, n: nat | HasRoute(c, v, n) && Enabled(c, v) ensures v in w.path {
      var p :| IsRoute(c, p, v) && |p| == n + 1;
      RouteIsCovered(c, w.queue, level, dist, p, v);
    }
  }

  /** The loop ends here: nothing waits, time is up, or the bound is hit. */
  ghost predicate Stops(c: Config, env: Env, w: Walk) {
    || w.queue == [] || DeadlineHit(c, env, w)
    || (w.queue[0] !in w.visited && w.queue[0] !in c.disabled && |w.path| >= c.recursionLimit)
  }

  /** The loop's measure: fewer unvisited ids, or as many and a shorter queue. */
  ghost predicate Smaller(c: Config, next: Walk, w: Walk) {
    || Universe(c) - next.visited < Universe(c) - w.visited
    || (next.visited == w.visited && |next.queue| < |w.queue|)
  }

  /** One turn of the loop that does not end it. */
  ghost function Turn(c: Config, env: Env, w: Walk): Walk
    requires !Stops(c, env, w)
  {
    var id := w.queue[0];
    var popped := w.(queue := w.queue[1..], readings := w.readings + 1);
    var marked := popped.(visited := w.visited + {id});
    if id in w.visited then popped
    else if !Enabled(c, id) then marked
    else Visit(c, env, marked, id)
  }

  lemma TurnUnfolds(c: Config, env: Env, w: Walk)
    requires InUniverse(c, w) && !Stops(c, env, w)
    ensures var next := Turn(c, env, w);
            InUniverse(c, next) && Smaller(c, next, w) && Finish(c, env, w) == Finish(c, env, next)
  {
    if Enabled(c, w.queue[0]) {
      TargetsInUniverse(c, w.queue[0]);
    }
  }

  lemma TurnKeepsInv(c: Config, env: Env, w: Walk, level: seq<nat>, dist: map<string, nat>)
    returns (nextLevel: seq<nat>, nextDist: map<string, nat>)
    requires Inv(c, w, level, dist) && !Stops(c, env, w)
    ensures Inv(c, Turn(c, env, w), nextLevel, nextDist)
  {
    var id := w.queue[0];
    nextLevel, nextDist := level[1..], dist;
    if id in w.visited {
      SkipKeepsInv(c, w, level, dist);
    } else {
      nextDist := dist[id := level[0]];
      var marked := w.(queue := w.queue[1..], readings := w.readings + 1, visited := w.visited + {id});
      if !Enabled(c, id) {
        MarkKeepsInv(c, w, level, dist, marked);
      } else {
        MarkKeepsMarked(c, w, level, dist, marked, nextDist);
        VisitKeepsInv(c, env, marked, nextLevel, nextDist, id);
        nextLevel := Extended(level[1..], |Unseen(Targets(c, id), marked.visited)|, level[0] + 1);
      }
    }
  }

  lemma {:induction false} FinishIsOrdered(c: Config, env: Env, w: Walk, level: seq<nat>, dist: map<string, nat>)
    returns (final: map<string, nat>)
    requires InUniverse(c, w) && Inv(c, w, level, dist)
    ensures PathOrdered(c, Finish(c, env, w).path, final)
    ensures || !NoDeadline(c)
            || |Finish(c, env, w).path| >= c.recursionLimit
            || Exhaustive(c, Finish(c, env, w).path)
    decreases Universe(c) - w.visited, |w.queue|
  {
    if Stops(c, env, w) {
      final := dist;
      if w.queue == [] {
        EmptyQueueIsExhaustive(c, w, level, dist);
      }
    } else {
      TurnUnfolds(c, env, w);
      var nextLevel, nextDist := TurnKeepsInv(c, env, w, level, dist);
      final := FinishIsOrdered(c, env, Turn(c, env, w), nextLevel, nextDist);
    }
  }

  lemma StartInv(c: Config)
    ensures Inv(c, Start(c), [0], map[])
  {
    var e := c.graph.entrypoint;
    assert IsRoute(c, [e], e);
    assert [e][0] == e && [0][0] == 0;
  }

  /** On every graph and under every bound: what ran is enabled and reachable, nothing
      ran twice, and the order is that of the shortest routes from the entrypoint. */
  lemma PathIsBreadthFirst(c: Config, env: Env) returns (dist: map<string, nat>)
    ensures var path := Outcome(c, env).path;
            && Distinct(path)
            && Elements(path) <= Reachable(c)
            && (forall i :: 0 <= i < |path| ==> path[i] in dist && Distance(c, path[i], dist[path[i]]))
            && (forall i, j :: 0 <= i <= j < |path| ==> dist[path[i]] <= dist[path[j]])
  {
    StartInv(c);
    dist := FinishIsOrdered(c, env, Start(c), [0], map[]);
    PathInReachable(c, Outcome(c, env).path, dist);
  }

  lemma PathWithinLimit(c: Config, env: Env)
    ensures var path := Outcome(c, env).path; path == [] || |path| <= c.recursionLimit
  {
    EveryRunKeeps(c, env, Start(c), (r: Ledger) => r.path == [] || |r.path| <= c.recursionLimit);
  }

  lemma SubsetCount<T>(a: set<T>, b: set<T>)
    requires a <= b
    ensures |a| <= |b|
    ensures |a| == |b| ==> a == b
  {
    assert b == a + (b - a);
  }

  lemma PathInReachable(c: Config, path: seq<string>, dist: map<string, nat>)
    requires PathOrdered(c, path, dist)
    ensures |path| == |Elements(path)| <= |Reachable(c)|
    ensures Elements(path) <= Reachable(c)
    ensures |path| == |Reachable(c)| ==> Elements(path) == Reachable(c)
    ensures Exhaustive(c, path) ==> |path| == |Reachable(c)|
  {
    DistinctCount(path);
    forall v | v in Elements(path) ensures v in Reachable(c) {
      var i :| 0 <= i < |path| && path[i] == v;
      assert HasRoute(c, v, dist[v]);
    }
    SubsetCount(Elements(path), Reachable(c));
    if Exhaustive(c, path) {
      assert Elements(path) == Reachable(c);
    }
  }

  /** Without a deadline the walk runs as many nodes as the bound allows, and with a
      bound of at least the reachable nodes it runs exactly those. */
  lemma PathIsExact(c: Config, env: Env)
    requires c.timeoutMs == 0
    ensures var n := |Outcome(c, env).path|;
            n == (if c.recursionLimit < 0 then 0
                  else if c.recursionLimit < |Reachable(c)| then c.recursionLimit
                  else |Reachable(c)|)
    ensures Elements(Outcome(c, env).path) == Reachable(c)
       <==> c.recursionLimit >= |Reachable(c)| || Reachable(c) == {}
  {
    StartInv(c);
    var dist := FinishIsOrdered(c, env, Start(c), [0], map[]);
    PathWithinLimit(c, env);
    PathInReachable(c, Outcome(c, env).path, dist);
  }

  lemma DisabledEntrypoint(c: Config, env: Env)
    requires NoDeadline(c) && c.graph.entrypoint in c.disabled
    ensures Outcome(c, env).path == []
  {
    var marked := Start(c).(queue := [], readings := 2, visited := {c.graph.entrypoint});
    assert Start(c).queue[1..] == [] && Start(c).visited + {c.graph.entrypoint} == {c.graph.entrypoint};
    assert Outcome(c, env) == Finish(c, env, marked);
  }

  lemma EnabledEntrypoint(c: Config, env: Env)
    requires NoDeadline(c) && Enabled(c, c.graph.entrypoint) && c.recursionLimit > 0
    ensures Outcome(c, env).path != [] && Outcome(c, env).path[0] == c.graph.entrypoint
  {
    var e := c.graph.entrypoint;
    var next := Turn(c, env, Start(c));
    TurnUnfolds(c, env, Start(c));
    assert next.path == [e];
    EveryRunKeeps(c, env, next, (r: Ledger) => r.path != [] && r.path[0] == e);
  }

  /** In a validated graph an enabled entrypoint always runs, and runs first. */
  lemma EntrypointRunsFirst(c: Config, env: Env)
    requires ValidateGraph(c.graph) == None && c.timeoutMs == 0
    ensures var path := Outcome(c, env).path;
            path != [] <==> c.graph.entrypoint !in c.disabled && c.recursionLimit > 0
    ensures var path := Outcome(c, env).path;
            path != [] ==> path[0] == c.graph.entrypoint
  {
    var e := c.graph.entrypoint;
    ValidGraphIff(c.graph);
    var n :| n in c.graph.nodes && n.id == e;
    DeclaredIff(c.graph.nodes, e, n);
    if e in c.disabled {
      DisabledEntrypoint(c, env);
    } else if c.recursionLimit <= 0 {
      PathWithinLimit(c, env);
    } else {
      EnabledEntrypoint(c, env);
    }
  }
}
