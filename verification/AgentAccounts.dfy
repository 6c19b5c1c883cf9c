/** What a run reports: governed steps, model calls, usage, the END flag, and how a
    lower visit bound cuts a run. */
module AgentAccounts {
  import opened Prelude
  import opened AgentGraph
  import opened AgentReach

  /** Every (node, tool) pair of a path, in order. */
  function ToolCalls(c: Config, path: seq<string>): seq<(string, string)>
    requires forall v :: v in path ==> v in Declared(c)
  {
    if path == [] then []
    else
      var v := path[|path| - 1];
      var tools := Declared(c)[v].tools;
      ToolCalls(c, path[..|path| - 1]) + seq(|tools|, i requires 0 <= i < |tools| => (v, tools[i]))
  }

  /** "write" stands somewhere in the tool's name, in any case. */
  ghost predicate NamesWrite(tool: string) {
    exists a, b :: LowerAll(tool) == a + "write" + b
  }

  /** The step is the environment's verdict on the `i`-th call, a denial if it gives none, and
      says that the tool ran exactly if the verdict is to allow it. */
  ghost predicate IsVerdict(env: Env, i: nat, node: string, tool: string, step: StepRecord) {
    var verdict := env.tool(i, node, tool, NamesWrite(tool));
    && step.node == node && step.tool == tool
    && step.effect == (if verdict.Some? then verdict.value else "deny")
    && (step.ran <==> step.effect == "allow")
  }

  /** Step `i` is the environment's verdict on the `i`-th tool of the path. */
  ghost predicate StepsMatch(c: Config, env: Env, path: seq<string>, steps: seq<StepRecord>)
    requires forall v :: v in path ==> v in Declared(c)
  {
    var calls := ToolCalls(c, path);
    && |steps| == |calls|
    && forall i :: 0 <= i < |steps| ==> IsVerdict(env, i, calls[i].0, calls[i].1, steps[i])
  }

  /** What a reply comes to: its content without the white space around it, or a note of the error. */
  function Said(reply: ApiReply, phase: string): string {
    if reply.Replied? then PyStrip(reply.content) else "[" + phase + " error: " + reply.message + "]"
  }

  /** The two calls of the `k`-th node: it plans on the reasoning tier, then executes its plan
      on its own tier, or the common one if it names none. */
  ghost predicate CallsOf(c: Config, env: Env, id: string, log: seq<Request>, k: nat)
    requires id in Declared(c) && 2 * k + 1 < |log|
  {
    var own := Declared(c)[id].model;
    && log[2 * k] == Request(id, Plan, c.prompt, c.reasoningModel)
    && log[2 * k + 1] == Request(id, Execute(Said(env.model(2 * k, log[2 * k]), "plan")), c.prompt,
                                 if own == "" then c.executionModel else own)
  }

  ghost predicate CallsMatch(c: Config, env: Env, path: seq<string>, log: seq<Request>)
    requires forall v :: v in path ==> v in Declared(c)
  {
    |log| == 2 * |path| && forall k :: 0 <= k < |path| ==> CallsOf(c, env, path[k], log, k)
  }

  datatype Part = InputTokens | OutputTokens | AllTokens

  /** What a response reports; a missing sum is that of its parts. */
  function Tokens(raw: RawUsage, part: Part): nat {
    match part
    case InputTokens => raw.promptTokens
    case OutputTokens => raw.completionTokens
    case AllTokens => if raw.totalTokens == 0 then raw.promptTokens + raw.completionTokens else raw.totalTokens
  }

  /** The response of call `k` carries a usage, which counts also if the call then fails. */
  predicate Reports(env: Env, log: seq<Request>, k: nat)
    requires k < |log|
  {
    var reply := env.model(k, log[k]);
    !reply.Failed? && reply.usage.Some?
  }

  /** The sum over all calls of what their responses report, each once. */
  function Sum(env: Env, log: seq<Request>, part: Part): nat {
    if log == [] then 0
    else
      var n := |log| - 1;
      Sum(env, log[..n], part) + if Reports(env, log, n) then Tokens(env.model(n, log[n]).usage.value, part) else 0
  }

  /** The usage of a run: none if no call reported any, and otherwise the three sums. */
  ghost predicate IsUsage(env: Env, log: seq<Request>, u: UsageTotal) {
    && (u.seen <==> exists k :: 0 <= k < |log| && Reports(env, log, k))
    && u.input == Sum(env, log, InputTokens) && u.output == Sum(env, log, OutputTokens)
    && u.total == Sum(env, log, AllTokens)
  }

  /** The node can end a run: it supervises, or no command is its own. */
  ghost predicate CanEnd(c: Config, v: string) {
    && v in Declared(c)
    && (Declared(c)[v].supervisor || forall command :: command in c.graph.commands ==> command.source != v)
  }

  ghost predicate SomeCanEnd(c: Config, path: seq<string>) {
    exists v :: v in path && CanEnd(c, v)
  }

  /** The output is what the last call came to. */
  predicate IsOutput(env: Env, log: seq<Request>, output: string) {
    output == if log == [] then "" else Said(env.model(|log| - 1, log[|log| - 1]), "model")
  }

  ghost predicate CallsAccounted(c: Config, env: Env, path: seq<string>, log: seq<Request>, usage: UsageTotal,
                                 output: string)
    requires forall v :: v in path ==> v in Declared(c)
  {
    CallsMatch(c, env, path, log) && IsUsage(env, log, usage) && IsOutput(env, log, output)
  }

  ghost predicate Accounts(c: Config, env: Env, r: Ledger) {
    && (forall v :: v in r.path ==> v in Declared(c))
    && StepsMatch(c, env, r.path, r.steps)
    && CallsAccounted(c, env, r.path, r.log, r.usage, r.output)
    && (r.reachedEnd <==> SomeCanEnd(c, r.path))
  }

  lemma TextsAreSaid(reply: ApiReply)
    ensures PlanText(reply) == Said(reply, "plan") && OutputText(reply) == Said(reply, "model")
  {
    assert "[" + "plan" + " error: " == "[plan error: " && "[" + "model" + " error: " == "[model error: ";
  }

  lemma SomeCanEndExtends(c: Config, path: seq<string>, v: string)
    ensures SomeCanEnd(c, path + [v]) <==> SomeCanEnd(c, path) || CanEnd(c, v)
  {
    assert forall u :: u in path + [v] <==> u in path || u == v;
  }

  lemma WriteIsNamed(tool: string)
    ensures IsWriteTool(tool) <==> NamesWrite(tool)
  {
    var t := LowerAll(tool);
    if i: nat :| i <= |t| && ContainsAt(t, "write", i) {
      assert t == t[..i] + "write" + t[i + 5..];
    }
    if a, b :| t == a + "write" + b {
      assert t[|a|..|a| + 5] == "write";
      assert ContainsAt(t, "write", |a|);
    }
  }

  lemma RunIsVerdict(env: Env, i: nat, node: string, tool: string)
    ensures IsVerdict(env, i, node, tool, RunTool(env, i, node, tool))
  {
    WriteIsNamed(tool);
  }

  lemma RunToolsGive(env: Env, n: nat, id: string, tools: seq<string>)
    ensures var r := RunTools(env, n, id, tools);
      forall i :: 0 <= i < |tools| ==> IsVerdict(env, n + i, id, tools[i], r[i])
  {
    forall i | 0 <= i < |tools| ensures IsVerdict(env, n + i, id, tools[i], RunTool(env, n + i, id, tools[i])) {
      RunIsVerdict(env, n + i, id, tools[i]);
    }
  }

  lemma VisitKeepsSteps(c: Config, env: Env, path: seq<string>, steps: seq<StepRecord>, id: string)
    requires id in Declared(c) && forall v :: v in path ==> v in Declared(c)
    requires StepsMatch(c, env, path, steps)
    ensures StepsMatch(c, env, path + [id], steps + RunTools(env, |steps|, id, Declared(c)[id].tools))
  {
    var n, tools := |steps|, Declared(c)[id].tools;
    RunToolsGive(env, n, id, tools);
    assert (path + [id])[..|path|] == path;
    var all, calls := steps + RunTools(env, n, id, tools), ToolCalls(c, path + [id]);
    forall i | 0 <= i < |all| ensures IsVerdict(env, i, calls[i].0, calls[i].1, all[i]) {
      assert i >= n ==> calls[i] == (id, tools[i - n]) && IsVerdict(env, n + (i - n), id, tools[i - n], all[i]);
    }
  }

  lemma UsageGrows(env: Env, log: seq<Request>, request: Request, usage: UsageTotal)
    requires IsUsage(env, log, usage)
    ensures IsUsage(env, log + [request], AddUsage(usage, UsageOf(env.model(|log|, request))))
  {
    var more := log + [request];
    assert more[..|log|] == log;
    assert forall k :: 0 <= k < |log| ==> Reports(env, more, k) == Reports(env, log, k);
    assert UsageOf(env.model(|log|, request)).Some? <==> Reports(env, more, |log|);
  }

  lemma CallsGrow(c: Config, env: Env, path: seq<string>, log: seq<Request>, id: string, more: seq<Request>)
    requires id in Declared(c) && forall v :: v in path ==> v in Declared(c)
    requires CallsMatch(c, env, path, log)
    requires |more| == |log| + 2 && log == more[..|log|] && CallsOf(c, env, id, more, |path|)
    ensures CallsMatch(c, env, path + [id], more)
  {
    forall k | 0 <= k < |path| ensures CallsOf(c, env, path[k], more, k) {
      assert CallsOf(c, env, path[k], log, k);
      assert more[2 * k] == log[2 * k] && more[2 * k + 1] == log[2 * k + 1];
    }
  }

  lemma TwoMoreUsages(env: Env, log: seq<Request>, a: Request, b: Request, usage: UsageTotal)
    requires IsUsage(env, log, usage)
    ensures IsUsage(env, log + [a, b],
                    AddUsage(AddUsage(usage, UsageOf(env.model(|log|, a))), UsageOf(env.model(|log| + 1, b))))
  {
    UsageGrows(env, log, a, usage);
    UsageGrows(env, log + [a], b, AddUsage(usage, UsageOf(env.model(|log|, a))));
    assert log + [a] + [b] == log + [a, b];
  }

  lemma TwoMoreCalls(c: Config, env: Env, path: seq<string>, log: seq<Request>, id: string)
    requires id in Declared(c) && forall v :: v in path ==> v in Declared(c)
    requires CallsMatch(c, env, path, log)
    ensures var plan := PlanRequest(c, id);
      var execute := ExecuteRequest(c, Declared(c)[id], id, PlanText(env.model(|log|, plan)));
      CallsMatch(c, env, path + [id], log + [plan, execute])
  {
    var plan := PlanRequest(c, id);
    var reply := env.model(|log|, plan);
    var more := log + [plan, ExecuteRequest(c, Declared(c)[id], id, PlanText(reply))];
    TextsAreSaid(reply);
    assert more[2 * |path|] == plan;
    CallsGrow(c, env, path, log, id, more);
  }

  lemma CallsGoOn(c: Config, env: Env, path: seq<string>, log: seq<Request>, usage: UsageTotal, output: string,
                  id: string, plan: Request, execute: Request)
    requires id in Declared(c) && forall v :: v in path ==> v in Declared(c)
    requires CallsAccounted(c, env, path, log, usage, output) && plan == PlanRequest(c, id)
    requires execute == ExecuteRequest(c, Declared(c)[id], id, PlanText(env.model(|log|, plan)))
    ensures CallsAccounted(c, env, path + [id], log + [plan, execute],
              AddUsage(AddUsage(usage, UsageOf(env.model(|log|, plan))), UsageOf(env.model(|log| + 1, execute))),
              OutputText(env.model(|log| + 1, execute)))
  {
    TwoMoreUsages(env, log, plan, execute, usage);
    TwoMoreCalls(c, env, path, log, id);
    LastSpeaks(env, log, plan, execute);
  }

  lemma VisitKeepsCalls(c: Config, env: Env, w: Walk, id: string)
    requires id in Declared(c) && forall v :: v in w.path ==> v in Declared(c)
    requires CallsAccounted(c, env, w.path, w.log, w.usage, w.output)
    ensures var next := Visit(c, env, w, id);
      CallsAccounted(c, env, w.path + [id], next.log, next.usage, next.output)
  {
    var plan := PlanRequest(c, id);
    var execute := ExecuteRequest(c, Declared(c)[id], id, PlanText(env.model(|w.log|, plan)));
    CallsGoOn(c, env, w.path, w.log, w.usage, w.output, id, plan, execute);
  }

  lemma LastSpeaks(env: Env, log: seq<Request>, a: Request, b: Request)
    ensures IsOutput(env, log + [a, b], OutputText(env.model(|log| + 1, b)))
  {
    TextsAreSaid(env.model(|log| + 1, b));
    assert (log + [a, b])[|log| + 1] == b;
  }

  lemma VisitKeepsAccounts(c: Config, env: Env, w: Walk, id: string)
    requires Accounts(c, env, LedgerOf(w)) && id in Declared(c)
    ensures Accounts(c, env, LedgerOf(Visit(c, env, w, id)))
  {
    VisitKeepsCalls(c, env, w, id);
    VisitKeepsSteps(c, env, w.path, w.steps, id);
    SomeCanEndExtends(c, w.path, id);
    HandoffsIff(c.graph.commands, id, "");
  }

  /** The report of every run, under every bound, accounts for exactly what its path did. */
  lemma RunIsAccounted(c: Config, env: Env)
    ensures Accounts(c, env, LedgerOf(Outcome(c, env)))
  {
    forall w: Walk, id | id in Declared(c) && Accounts(c, env, LedgerOf(w))
      ensures Accounts(c, env, LedgerOf(Visit(c, env, w, id)))
    {
      VisitKeepsAccounts(c, env, w, id);
    }
    EveryRunKeeps(c, env, Start(c), (r: Ledger) => Accounts(c, env, r));
  }

  /** Usage is reported exactly when some call published any, and is zero otherwise. */
  lemma {:induction false} UsageSeenIffReported(env: Env, log: seq<Request>, u: UsageTotal)
    requires IsUsage(env, log, u)
    ensures !u.seen ==> u == UsageTotal(false, 0, 0, 0)
  {
    if !u.seen {
      NothingSums(env, log);
    }
  }

  lemma {:induction false} NothingSums(env: Env, log: seq<Request>)
    requires forall k :: 0 <= k < |log| ==> !Reports(env, log, k)
    ensures forall part :: Sum(env, log, part) == 0
  {
    if log != [] {
      var n := |log| - 1;
      assert forall k :: 0 <= k < n ==> Reports(env, log[..n], k) == Reports(env, log, k);
      NothingSums(env, log[..n]);
    }
  }

  // ------------------------------------------------------ lower visit bounds

  predicate Extends(r: Ledger, from: Ledger) {
    from.path <= r.path && from.steps <= r.steps && from.log <= r.log
  }

  lemma FinishExtends(c: Config, env: Env, w: Walk)
    requires InUniverse(c, w)
    ensures Extends(LedgerOf(Finish(c, env, w)), LedgerOf(w))
  {
    EveryRunKeeps(c, env, w, (r: Ledger) => Extends(r, LedgerOf(w)));
  }

  lemma {:induction false} LowerLimitCuts(c: Config, d: Config, env: Env, w: Walk)
    requires c.timeoutMs == 0 && d == c.(recursionLimit := d.recursionLimit) && c.recursionLimit <= d.recursionLimit
    requires InUniverse(c, w)
    ensures Extends(LedgerOf(Finish(d, env, w)), LedgerOf(Finish(c, env, w)))
    ensures || |Finish(c, env, w).path| >= c.recursionLimit
            || Finish(c, env, w).path == Finish(d, env, w).path
    decreases Universe(c) - w.visited, |w.queue|
  {
    if w.queue == [] {
    } else {
      var id := w.queue[0];
      var popped := w.(queue := w.queue[1..], readings := w.readings + 1);
      var marked := popped.(visited := w.visited + {id});
      if id in w.visited {
        LowerLimitCuts(c, d, env, popped);
      } else if id in c.disabled {
        LowerLimitCuts(c, d, env, marked);
      } else if |w.path| >= c.recursionLimit {
        FinishExtends(d, env, w);
      } else if id !in Declared(c) {
        LowerLimitCuts(c, d, env, marked);
      } else {
        TargetsInUniverse(c, id);
        assert Visit(c, env, marked, id) == Visit(d, env, marked, id);
        LowerLimitCuts(c, d, env, Visit(c, env, marked, id));
      }
    }
  }

  lemma ReportSizes(c: Config, env: Env)
    ensures var r := Outcome(c, env);
            && (forall v :: v in r.path ==> v in Declared(c))
            && |r.steps| == |ToolCalls(c, r.path)| && |r.log| == 2 * |r.path|
  {
    RunIsAccounted(c, env);
  }

  /** Without a deadline, bounding the walk by fewer visits yields exactly the first
      nodes of the longer run, their tool steps and their model calls. */
  lemma BoundedRunIsPrefix(c: Config, d: Config, env: Env)
    requires c.timeoutMs == 0 && d == c.(recursionLimit := d.recursionLimit) && c.recursionLimit <= d.recursionLimit
    ensures var cut, full := Outcome(c, env), Outcome(d, env);
            var n := if c.recursionLimit < 0 then 0
                     else if c.recursionLimit < |full.path| then c.recursionLimit else |full.path|;
            && cut.path == full.path[..n]
            && (forall v :: v in cut.path ==> v in Declared(c))
            && |ToolCalls(c, cut.path)| <= |full.steps|
            && cut.steps == full.steps[..|ToolCalls(c, cut.path)|]
            && 2 * n <= |full.log| && cut.log == full.log[..2 * n]
  {
    LowerLimitCuts(c, d, env, Start(c));
    PathWithinLimit(c, env);
    ReportSizes(c, env);
  }
}
