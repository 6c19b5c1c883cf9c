/** In which order nodes run, to the last tie, and why a run ends. */
module AgentOrder {
  import opened Prelude
  import opened AgentGraph
  import opened AgentReach

  /** Where a node that has run sends control, in order: the members it supervises, then the
      targets of its commands. */
  function Successors(c: Config, v: string): seq<string>
    requires v in Declared(c)
  {
    (if Declared(c)[v].supervisor then Declared(c)[v].members else []) + Handoffs(c.graph.commands, v)
  }

  /** Everything a path makes known, in order: the entrypoint, then what each node sends
      control to. */
  function Offered(c: Config, path: seq<string>): seq<string>
    requires forall v :: v in path ==> v in Declared(c)
  {
    if path == [] then [c.graph.entrypoint]
    else Offered(c, path[..|path| - 1]) + Successors(c, path[|path| - 1])
  }

  function Adding(c: Config, found: seq<string>, v: string): seq<string> {
    if Enabled(c, v) && v !in found then found + [v] else found
  }

  /** `found`, then the ids that can run and are not in it, each at its first place. */
  function Found(c: Config, found: seq<string>, ids: seq<string>): seq<string>
    decreases |ids|
  {
    if ids == [] then found else Found(c, Adding(c, found, ids[0]), ids[1..])
  }

  /** The nodes that can run among all that a path makes known, by first mention. */
  function Discovered(c: Config, path: seq<string>): seq<string>
    requires forall v :: v in path ==> v in Declared(c)
  {
    Found(c, [], Offered(c, path))
  }

  lemma {:induction false} FoundExtends(c: Config, found: seq<string>, ids: seq<string>)
    ensures found <= Found(c, found, ids)
    decreases |ids|
  {
    if ids != [] {
      FoundExtends(c, Adding(c, found, ids[0]), ids[1..]);
    }
  }

  lemma {:induction false} FoundInTurn(c: Config, found: seq<string>, a: seq<string>, b: seq<string>)
    ensures Found(c, found, a + b) == Found(c, Found(c, found, a), b)
    decreases |a|
  {
    if a == [] {
      assert a + b == b;
    } else {
      assert (a + b)[1..] == a[1..] + b;
      FoundInTurn(c, Adding(c, found, a[0]), a[1..], b);
    }
  }

  lemma FoundFirst(c: Config, found: seq<string>, v: string, ids: seq<string>)
    ensures Found(c, found, [v] + ids) == Found(c, Adding(c, found, v), ids)
  {
    assert ([v] + ids)[1..] == ids;
  }

  /** Ids that are found already, or cannot run, may as well be left out. */
  lemma {:induction false} FoundUnseen(c: Config, found: seq<string>, ids: seq<string>, visited: set<string>)
    requires forall v :: v in visited && Enabled(c, v) ==> v in found
    ensures Found(c, found, Unseen(ids, visited)) == Found(c, found, ids)
    decreases |ids|
  {
    if ids != [] {
      var rest := Unseen(ids[1..], visited);
      FoundUnseen(c, Adding(c, found, ids[0]), ids[1..], visited);
      if ids[0] in visited {
        assert Unseen(ids, visited) == rest && Adding(c, found, ids[0]) == found;
      } else {
        assert Unseen(ids, visited) == [ids[0]] + rest;
        FoundFirst(c, found, ids[0], rest);
      }
    }
  }

  ghost predicate Ran(c: Config, path: seq<string>, visited: set<string>) {
    && (forall v :: v in path ==> Enabled(c, v) && v in visited)
    && (forall v :: v in visited && Enabled(c, v) ==> v in path)
  }

  /** What is on the path or can still be found from the queue is what the path makes known. */
  ghost predicate InOrder(c: Config, path: seq<string>, visited: set<string>, queue: seq<string>) {
    Ran(c, path, visited) && Found(c, path, queue) == Discovered(c, path)
  }

  lemma OfferedGrows(c: Config, path: seq<string>, v: string)
    requires v in Declared(c) && forall u :: u in path ==> u in Declared(c)
    ensures Offered(c, path + [v]) == Offered(c, path) + Successors(c, v)
  {
    assert (path + [v])[..|path|] == path;
  }

  lemma VisitKeepsOrder(c: Config, path: seq<string>, visited: set<string>, v: string, rest: seq<string>)
    requires InOrder(c, path, visited, [v] + rest) && v !in visited && Enabled(c, v)
    ensures var seen := visited + {v};
      InOrder(c, path + [v], seen, rest + Unseen(Successors(c, v), seen))
  {
    var seen, targets := visited + {v}, Successors(c, v);
    var found := Found(c, path + [v], rest);
    FoundFirst(c, path, v, rest);
    FoundExtends(c, path + [v], rest);
    assert forall u :: u in path + [v] ==> u in found;
    FoundUnseen(c, found, targets, seen);
    FoundInTurn(c, path + [v], rest, Unseen(targets, seen));
    FoundInTurn(c, [], Offered(c, path), targets);
    OfferedGrows(c, path, v);
  }

  lemma SkipKeepsOrder(c: Config, path: seq<string>, visited: set<string>, v: string, rest: seq<string>)
    requires InOrder(c, path, visited, [v] + rest) && (v in visited || !Enabled(c, v))
    ensures InOrder(c, path, visited, rest) && InOrder(c, path, visited + {v}, rest)
  {
    FoundFirst(c, path, v, rest);
  }

  lemma TurnKeepsOrder(c: Config, env: Env, w: Walk)
    requires InOrder(c, w.path, w.visited, w.queue) && !Stops(c, env, w)
    ensures var next := Turn(c, env, w); InOrder(c, next.path, next.visited, next.queue)
  {
    var v, rest := w.queue[0], w.queue[1..];
    assert w.queue == [v] + rest;
    if v !in w.visited && Enabled(c, v) {
      VisitKeepsOrder(c, w.path, w.visited, v, rest);
      assert Targets(c, v) == Successors(c, v);
    } else {
      SkipKeepsOrder(c, w.path, w.visited, v, rest);
    }
  }

  // ------------------------------------------------------ why a run ends

  /** Clock reading `k` is at or past the deadline. */
  predicate TimeIsUp(c: Config, env: Env, k: nat) {
    c.timeoutMs != 0 && env.clock(k) >= env.clock(0) + c.timeoutMs as real / 1000.0
  }

  /** The readings so far, one before every turn, were all in time. */
  ghost predicate InTime(c: Config, env: Env, w: Walk) {
    |w.path| < w.readings && forall k :: 1 <= k < w.readings ==> !TimeIsUp(c, env, k)
  }

  /** `turns` turns of the loop were begun in time, one at least for each node of the path, and
      then: everything known has run, or the next reading is past the deadline, or the bound on
      visits is reached. */
  ghost predicate EndsAfter(c: Config, env: Env, path: seq<string>, turns: nat)
    requires forall v :: v in path ==> v in Declared(c)
  {
    && |path| <= turns && (forall k :: 1 <= k <= turns ==> !TimeIsUp(c, env, k))
    && (path == Discovered(c, path) || TimeIsUp(c, env, turns + 1) || |path| >= c.recursionLimit)
  }

  ghost predicate EndsDuly(c: Config, env: Env, path: seq<string>)
    requires forall v :: v in path ==> v in Declared(c)
  {
    exists turns: nat :: EndsAfter(c, env, path, turns)
  }

  lemma TurnKeepsTime(c: Config, env: Env, w: Walk)
    requires InTime(c, env, w) && !Stops(c, env, w)
    ensures InTime(c, env, Turn(c, env, w))
  {
    assert !TimeIsUp(c, env, w.readings);
  }

  lemma StopIsDue(c: Config, env: Env, w: Walk)
    requires InOrder(c, w.path, w.visited, w.queue) && InTime(c, env, w) && Stops(c, env, w)
    ensures EndsDuly(c, env, w.path)
  {
    assert EndsAfter(c, env, w.path, w.readings - 1);
  }

  /** From any state of the loop: nodes run in the order in which the nodes run before them
      make them known, and the run ends for one of three reasons. */
  lemma {:induction false} FinishKeepsOrder(c: Config, env: Env, w: Walk)
    requires InUniverse(c, w) && InOrder(c, w.path, w.visited, w.queue) && InTime(c, env, w)
    ensures var path := Finish(c, env, w).path;
      && (forall v :: v in path ==> v in Declared(c))
      && path <= Discovered(c, path) && EndsDuly(c, env, path)
    decreases Universe(c) - w.visited, |w.queue|
  {
    if Stops(c, env, w) {
      assert Finish(c, env, w).path == w.path;
      FoundExtends(c, w.path, w.queue);
      StopIsDue(c, env, w);
    } else {
      TurnUnfolds(c, env, w);
      TurnKeepsOrder(c, env, w);
      TurnKeepsTime(c, env, w);
      FinishKeepsOrder(c, env, Turn(c, env, w));
    }
  }

  /** The path of every run is determined, ties included: it is an initial part of what it
      itself makes known, by first mention, and all of it unless time or the bound cuts it. */
  lemma PathIsDiscovered(c: Config, env: Env)
    ensures var path := Outcome(c, env).path;
      && (forall v :: v in path ==> v in Declared(c))
      && path <= Discovered(c, path) && EndsDuly(c, env, path)
  {
    FinishKeepsOrder(c, env, Start(c));
  }
}
