/** `run_ir` as the imperative loop it is, tied to the walk of module AgentGraph. */
module AgentRun {
  import opened Prelude
  import opened AgentGraph
  import opened AgentReach
  import opened AgentOrder
  import opened AgentAccounts

  datatype RunReport = RunReport(ok: bool, path: seq<string>, steps: seq<StepRecord>,
                                 traces: nat, output: string, usage: Option<Usage>)

  function Reported(u: UsageTotal): Option<Usage> {
    if u.seen then Some(Usage(u.input, u.output, u.total)) else None
  }

  function Report(w: Walk): RunReport {
    RunReport(w.reachedEnd, w.path, w.steps, |w.steps|, w.output, Reported(w.usage))
  }

  /** The model calls of the run, and what the report says of them. */
  ghost predicate IsAccountOf(c: Config, env: Env, r: RunReport, log: seq<Request>)
    requires forall v :: v in r.path ==> v in Declared(c)
  {
    && CallsMatch(c, env, r.path, log) && IsOutput(env, log, r.output)
    && (r.usage.Some? <==> exists k :: 0 <= k < |log| && Reports(env, log, k))
    && (r.usage.Some? ==> r.usage.value == Usage(Sum(env, log, InputTokens), Sum(env, log, OutputTokens),
                                                 Sum(env, log, AllTokens)))
  }

  /** What a caller may rely on, without knowing the walk: which nodes ran, in which order and
      until when, what they called and were charged, and what `ok` and `output` mean. */
  ghost predicate IsSound(c: Config, env: Env, r: RunReport) {
    && Distinct(r.path) && Elements(r.path) <= Reachable(c)
    && (c.timeoutMs == 0 && c.recursionLimit >= |Reachable(c)| ==> Elements(r.path) == Reachable(c))
    && (r.path == [] || |r.path| <= c.recursionLimit)
    && (forall v :: v in r.path ==> v in Declared(c))
    && r.path <= Discovered(c, r.path) && EndsDuly(c, env, r.path)
    && StepsMatch(c, env, r.path, r.steps) && r.traces == |r.steps|
    && (r.ok <==> SomeCanEnd(c, r.path))
    && exists log :: IsAccountOf(c, env, r, log)
  }

  lemma ReportIsSound(c: Config, env: Env)
    ensures IsSound(c, env, Report(Outcome(c, env)))
  {
    var dist := PathIsBreadthFirst(c, env);
    PathWithinLimit(c, env);
    PathIsDiscovered(c, env);
    RunIsAccounted(c, env);
    assert IsAccountOf(c, env, Report(Outcome(c, env)), Outcome(c, env).log);
    if NoDeadline(c) {
      PathIsExact(c, env);
    }
  }

  /** `take_usage`: fold the published usage of the last call into the totals. */
  method TakeUsage(client: ModelClient, usage: UsageTotal) returns (total: UsageTotal)
    ensures total == AddUsage(usage, client.lastUsage)
    ensures client.lastUsage.None? ==> total == usage
    ensures client.lastUsage.Some? ==>
              && total.seen && total.input - usage.input == client.lastUsage.value.input
              && total.output - usage.output == client.lastUsage.value.output
              && total.total - usage.total == client.lastUsage.value.total
  {
    total := usage;
    if client.lastUsage.Some? {
      var u := client.lastUsage.value;
      total := UsageTotal(true, usage.input + u.input, usage.output + u.output, usage.total + u.total);
    }
  }

  /** The two model calls of one node, `w` being the walk that has just marked it. */
  method RunTwoTier(c: Config, env: Env, client: ModelClient, id: string, calls: nat, usage: UsageTotal, ghost w: Walk)
    returns (output: string, total: UsageTotal, ghost log: seq<Request>)
    requires id in Declared(c) && calls == |w.log| && usage == w.usage
    modifies client
    ensures output == Visit(c, env, w, id).output
    ensures total == Visit(c, env, w, id).usage
    ensures log == Visit(c, env, w, id).log
  {
    var node := Declared(c)[id];
    var planRequest := PlanRequest(c, id);
    var planReply := env.model(calls, planRequest);
    var text := client.Call(planReply);
    var plan := match text case Ok(t) => t case Err(e) => "[plan error: " + e + "]";
    total := TakeUsage(client, usage);

    var executeRequest := ExecuteRequest(c, node, id, plan);
    var executeReply := env.model(calls + 1, executeRequest);
    text := client.Call(executeReply);
    output := match text case Ok(t) => t case Err(e) => "[model error: " + e + "]";
    total := TakeUsage(client, total);
    log := w.log + [planRequest, executeRequest];
  }

  method CallTools(env: Env, id: string, tools: seq<string>, before: seq<StepRecord>)
    returns (steps: seq<StepRecord>)
    ensures steps == before + RunTools(env, |before|, id, tools)
  {
    steps := before;
    for i := 0 to |tools|
      invariant steps == before + RunTools(env, |before|, id, tools)[..i]
    {
      var reply := env.tool(|steps|, id, tools[i], IsWriteTool(tools[i]));
      var effect := if reply.Some? then reply.value else "deny";
      var ran := effect == "allow";
      steps := steps + [StepRecord(id, tools[i], effect, ran)];
    }
  }

  lemma {:induction false} UnseenConcat(a: seq<string>, b: seq<string>, visited: set<string>)
    ensures Unseen(a + b, visited) == Unseen(a, visited) + Unseen(b, visited)
  {
    if a == [] {
      assert a + b == b;
    } else {
      assert (a + b)[1..] == a[1..] + b;
      UnseenConcat(a[1..], b, visited);
    }
  }

  method Enqueue(ids: seq<string>, visited: set<string>, before: seq<string>) returns (queue: seq<string>)
    ensures queue == before + Unseen(ids, visited)
  {
    queue := before;
    for i := 0 to |ids|
      invariant queue == before + Unseen(ids[..i], visited)
    {
      assert ids[..i + 1] == ids[..i] + [ids[i]];
      UnseenConcat(ids[..i], [ids[i]], visited);
      if ids[i] !in visited {
        queue := queue + [ids[i]];
      }
    }
    assert ids[..|ids|] == ids;
  }

  lemma TargetsUnseen(c: Config, id: string, visited: set<string>, before: seq<string>)
    requires id in Declared(c)
    ensures var node, handoffs := Declared(c)[id], Unseen(Handoffs(c.graph.commands, id), visited);
            before + Unseen(Targets(c, id), visited)
            == (if node.supervisor then before + Unseen(node.members, visited) else before) + handoffs
  {
    var node := Declared(c)[id];
    UnseenConcat(if node.supervisor then node.members else [], Handoffs(c.graph.commands, id), visited);
  }

  /** The successors of a node that has run: members of a supervisor, then handoffs. */
  method FanOut(c: Config, id: string, visited: set<string>, before: seq<string>)
    returns (queue: seq<string>, end: bool)
    requires id in Declared(c)
    ensures queue == before + Unseen(Targets(c, id), visited)
    ensures end <==> || Declared(c)[id].supervisor
                     || forall command :: command in c.graph.commands ==> command.source != id
    ensures end <==> Declared(c)[id].supervisor || Handoffs(c.graph.commands, id) == []
  {
    var node := Declared(c)[id];
    HandoffsIff(c.graph.commands, id, "");
    var handoffs := Handoffs(c.graph.commands, id);
    queue, end := before, false;
    if node.supervisor {
      queue := Enqueue(node.members, visited, queue);
      end := true;
    }
    queue := Enqueue(handoffs, visited, queue);
    if !node.supervisor && handoffs == [] {
      end := true;
    }
    TargetsUnseen(c, id, visited, before);
  }

  method RunGraph(c: Config, env: Env, client: ModelClient) returns (report: RunReport)
    modifies client
    ensures report == Report(Outcome(c, env))
    ensures IsSound(c, env, report)
  {
    var steps: seq<StepRecord> := [];
    var path: seq<string> := [];
    var visited: set<string> := {};
    var queue := [c.graph.entrypoint];
    var reachedEnd, output, visits, readings := false, "", 0, 1;
    var usage := UsageTotal(false, 0, 0, 0);
    ghost var w := Start(c);
    while queue != []
      invariant w == Walk(queue, visited, path, steps, output, reachedEnd, usage, w.log, readings)
      invariant visits == |path| && |w.log| == 2 * visits
      invariant InUniverse(c, w)
      invariant Finish(c, env, w) == Outcome(c, env)
      decreases Universe(c) - visited, |queue|
    {
      if c.timeoutMs != 0 && env.clock(readings) >= env.clock(0) + c.timeoutMs as real / 1000.0 {
        break;
      }
      readings := readings + 1;
      var id := queue[0];
      queue := queue[1..];
      w := w.(queue := queue, readings := readings);
      if id in visited {
        continue;
      }
      visited := visited + {id};
      w := w.(visited := visited);
      if id in c.disabled {
        continue;
      }
      if visits >= c.recursionLimit {
        break;
      }
      if id !in Declared(c) {
        continue;
      }
      TargetsInUniverse(c, id);
      visits := visits + 1;
      path := path + [id];
      ghost var log;
      output, usage, log := RunTwoTier(c, env, client, id, 2 * (visits - 1), usage, w);
      steps := CallTools(env, id, Declared(c)[id].tools, steps);
      var end;
      queue, end := FanOut(c, id, visited, queue);
      reachedEnd := reachedEnd || end;
      w := Visit(c, env, w, id);
    }
    report := RunReport(reachedEnd, path, steps, |steps|, output,
                        if usage.seen then Some(Usage(usage.input, usage.output, usage.total)) else None);
    ReportIsSound(c, env);
  }
}
