/** The agent-graph interpreter: the compiled graph, the environment it calls
    into, and the walk itself (agent-runtime/interpreter.py). */
module AgentGraph {
  import opened Prelude

  // ------------------------------------------------------------ the graph

  datatype Node = Node(id: string, tools: seq<string>, model: string,
                       supervisor: bool, members: seq<string>)
  datatype Command = Command(source: string, target: string)
  datatype Graph = Graph(nodes: seq<Node>, commands: seq<Command>, entrypoint: string)

  /** A dictionary built from the node list: the last node with an id wins. */
  function NodeById(nodes: seq<Node>): map<string, Node> {
    if nodes == [] then map[]
    else
      var last := nodes[|nodes| - 1];
      NodeById(nodes[..|nodes| - 1])[last.id := last]
  }

  function Handoffs(commands: seq<Command>, id: string): seq<string> {
    if commands == [] then []
    else (if commands[0].source == id then [commands[0].target] else []) + Handoffs(commands[1..], id)
  }

  datatype Config = Config(graph: Graph, prompt: string, recursionLimit: int, timeoutMs: int,
                           disabled: set<string>, reasoningModel: string, executionModel: string)

  function Declared(c: Config): map<string, Node> {
    NodeById(c.graph.nodes)
  }

  predicate Enabled(c: Config, id: string) {
    id in Declared(c) && id !in c.disabled
  }

  /** Where a node can send control: its members when it supervises, then its handoffs. */
  function Targets(c: Config, id: string): seq<string>
    requires id in Declared(c)
  {
    var node := Declared(c)[id];
    (if node.supervisor then node.members else []) + Handoffs(c.graph.commands, id)
  }

  datatype GraphError = NoNodes | NodeWithoutId | NoEntrypoint | UndeclaredEntrypoint(id: string)

  /** `validate_ir` on a graph that already has the right JSON shape. */
  function ValidateGraph(g: Graph): Option<GraphError> {
    if g.nodes == [] then Some(NoNodes)
    else if exists n :: n in g.nodes && n.id == "" then Some(NodeWithoutId)
    else if g.entrypoint == "" then Some(NoEntrypoint)
    else if !exists n :: n in g.nodes && n.id == g.entrypoint then Some(UndeclaredEntrypoint(g.entrypoint))
    else None
  }

  lemma ValidGraphIff(g: Graph)
    ensures ValidateGraph(g) == None
       <==> && g.nodes != [] && (forall n :: n in g.nodes ==> n.id != "")
            && exists n :: n in g.nodes && n.id == g.entrypoint
  {
  }

  // ------------------------------------------------------ the environment

  /** Token counts as the backend reports them; a missing count reads as zero. */
  datatype RawUsage = RawUsage(promptTokens: nat, completionTokens: nat, totalTokens: nat)
  datatype Usage = Usage(input: nat, output: nat, total: nat)

  /** What one completion request can come to. A response without choices raises
      only after its usage has been recorded. */
  datatype ApiReply =
    | Failed(message: string)
    | NoChoices(usage: Option<RawUsage>, message: string)
    | Replied(usage: Option<RawUsage>, content: string)

  datatype Phase = Plan | Execute(plan: string)
  datatype Request = Request(node: string, phase: Phase, prompt: string, model: string)

  /** The nondeterministic world: the n-th completion, the n-th governed tool call
      (`None` when the reply carries no effect) and the n-th clock reading. */
  datatype Env = Env(model: (nat, Request) -> ApiReply,
                     tool: (nat, string, string, bool) -> Option<string>,
                     clock: nat -> real)

  function Counted(raw: RawUsage): Usage {
    Usage(raw.promptTokens, raw.completionTokens,
          if raw.totalTokens != 0 then raw.totalTokens else raw.promptTokens + raw.completionTokens)
  }

  /** The usage a call must be charged for: what its own response carried, if anything. */
  function UsageOf(reply: ApiReply): Option<Usage> {
    match reply
    case Failed(_) => None
    case NoChoices(u, _) => if u.Some? then Some(Counted(u.value)) else None
    case Replied(u, _) => if u.Some? then Some(Counted(u.value)) else None
  }

  function TextOf(reply: ApiReply): Result<string, string> {
    match reply
    case Failed(m) => Err(m)
    case NoChoices(_, m) => Err(m)
    case Replied(_, content) => Ok(PyStrip(content))
  }

  /** The model client made by `make_model_call`, with the usage of its last call
      published as an attribute of the function. */
  class ModelClient {
    var lastUsage: Option<Usage>

    constructor ()
      ensures lastUsage == None
    {
      lastUsage := None;
    }

    method Call(reply: ApiReply) returns (text: Result<string, string>)
      modifies this
      ensures text == TextOf(reply)
      ensures lastUsage == UsageOf(reply)
    {
      lastUsage := None;
      if reply.Failed? {
        return Err(reply.message);
      }
      if reply.usage.Some? {
        var raw := reply.usage.value;
        var total := raw.totalTokens;
        if total == 0 {
          total := raw.promptTokens + raw.completionTokens;
        }
        lastUsage := Some(Usage(raw.promptTokens, raw.completionTokens, total));
      }
      if reply.NoChoices? {
        return Err(reply.message);
      }
      return Ok(PyStrip(reply.content));
    }
  }

  // ------------------------------------------------------------- the walk

  datatype StepRecord = StepRecord(node: string, tool: string, effect: string, ran: bool)
  datatype UsageTotal = UsageTotal(seen: bool, input: nat, output: nat, total: nat)

  /** The variables of the walk's loop. `log` lists the model requests made so far. */
  datatype Walk = Walk(queue: seq<string>, visited: set<string>, path: seq<string>,
                       steps: seq<StepRecord>, output: string, reachedEnd: bool,
                       usage: UsageTotal, log: seq<Request>, readings: nat)

  function AddUsage(t: UsageTotal, u: Option<Usage>): UsageTotal {
    match u
    case None => t
    case Some(n) => UsageTotal(true, t.input + n.input, t.output + n.output, t.total + n.total)
  }

  predicate ContainsAt(s: string, word: string, i: nat) {
    i + |word| <= |s| && s[i..i + |word|] == word
  }

  predicate IsWriteTool(tool: string) {
    exists i: nat :: i <= |tool| && ContainsAt(LowerAll(tool), "write", i)
  }

  function RunTool(env: Env, n: nat, id: string, tool: string): StepRecord {
    var effect := match env.tool(n, id, tool, IsWriteTool(tool)) case Some(e) => e case None => "deny";
    StepRecord(id, tool, effect, effect == "allow")
  }

  /** One governed call per tool, in order; `n` calls were made before. */
  function RunTools(env: Env, n: nat, id: string, tools: seq<string>): (r: seq<StepRecord>)
    ensures |r| == |tools|
    ensures forall i :: 0 <= i < |tools| ==> r[i] == RunTool(env, n + i, id, tools[i])
  {
    seq(|tools|, i requires 0 <= i < |tools| => RunTool(env, n + i, id, tools[i]))
  }

  function Unseen(ids: seq<string>, visited: set<string>): (r: seq<string>)
    ensures forall x :: x in r <==> x in ids && x !in visited
  {
    if ids == [] then []
    else (if ids[0] in visited then [] else [ids[0]]) + Unseen(ids[1..], visited)
  }

  function PlanText(reply: ApiReply): string {
    match TextOf(reply)
    case Ok(t) => t
    case Err(e) => "[plan error: " + e + "]"
  }

  function OutputText(reply: ApiReply): string {
    match TextOf(reply)
    case Ok(t) => t
    case Err(e) => "[model error: " + e + "]"
  }

  function PlanRequest(c: Config, id: string): Request {
    Request(id, Plan, c.prompt, c.reasoningModel)
  }

  function ExecuteRequest(c: Config, node: Node, id: string, plan: string): Request {
    Request(id, Execute(plan), c.prompt, if node.model != "" then node.model else c.executionModel)
  }

  /** The effect of running one node that has just been marked visited. */
  function Visit(c: Config, env: Env, w: Walk, id: string): Walk
    requires id in Declared(c)
  {
    var node := Declared(c)[id];
    var planRequest := PlanRequest(c, id);
    var planReply := env.model(|w.log|, planRequest);
    var executeRequest := ExecuteRequest(c, node, id, PlanText(planReply));
    var executeReply := env.model(|w.log| + 1, executeRequest);
    Walk(
      w.queue + Unseen(Targets(c, id), w.visited),
      w.visited,
      w.path + [id],
      w.steps + RunTools(env, |w.steps|, id, node.tools),
      OutputText(executeReply),
      w.reachedEnd || node.supervisor || Handoffs(c.graph.commands, id) == [],
      AddUsage(AddUsage(w.usage, UsageOf(planReply)), UsageOf(executeReply)),
      w.log + [planRequest, executeRequest],
      w.readings)
  }

  /** Every id the walk can ever enqueue; the walk terminates because it is finite. */
  function Universe(c: Config): set<string> {
    {c.graph.entrypoint}
    + (set n, m | n in c.graph.nodes && m in n.members :: m)
    + (set cmd | cmd in c.graph.commands :: cmd.target)
  }

  predicate InUniverse(c: Config, w: Walk) {
    w.visited <= Universe(c) && forall x :: x in w.queue ==> x in Universe(c)
  }

  /** `list` holds the targets of exactly the commands of node `id`, one for each and in the
      order of the commands; `at` says where they stand. */
  ghost predicate AreTargetsOf(commands: seq<Command>, id: string, list: seq<string>, at: seq<nat>) {
    && |at| == |list|
    && (forall j :: 0 <= j < |at| ==> at[j] < |commands| && commands[at[j]] == Command(id, list[j]))
    && (forall i, j :: 0 <= i < j < |at| ==> at[i] < at[j])
    && (forall k :: 0 <= k < |commands| && commands[k].source == id ==> k in at)
  }

  lemma {:induction false} HandoffsSnoc(commands: seq<Command>, last: Command, id: string)
    ensures Handoffs(commands + [last], id)
         == Handoffs(commands, id) + if last.source == id then [last.target] else []
  {
    if commands == [] {
      assert Handoffs([last], id) == (if last.source == id then [last.target] else []) + Handoffs([], id);
    } else {
      assert (commands + [last])[1..] == commands[1..] + [last];
      HandoffsSnoc(commands[1..], last, id);
    }
  }

  lemma {:induction false} HandoffsInOrder(commands: seq<Command>, id: string) returns (at: seq<nat>)
    ensures AreTargetsOf(commands, id, Handoffs(commands, id), at)
  {
    if commands == [] {
      at := [];
    } else {
      var n := |commands| - 1;
      at := HandoffsInOrder(commands[..n], id);
      HandoffsSnoc(commands[..n], commands[n], id);
      assert commands == commands[..n] + [commands[n]];
      if commands[n].source == id {
        OneMoreTarget(commands, id, Handoffs(commands[..n], id), at);
        at := at + [n];
      }
    }
  }

  lemma OneMoreTarget(commands: seq<Command>, id: string, list: seq<string>, at: seq<nat>)
    requires commands != [] && commands[|commands| - 1].source == id
    requires AreTargetsOf(commands[..|commands| - 1], id, list, at)
    ensures AreTargetsOf(commands, id, list + [commands[|commands| - 1].target], at + [|commands| - 1])
  {
    var n := |commands| - 1;
    forall k | 0 <= k < |commands| && commands[k].source == id ensures k in at + [n] {
      assert k < n ==> commands[..n][k].source == id;
    }
  }

  lemma HandoffsIff(commands: seq<Command>, id: string, t: string)
    ensures t in Handoffs(commands, id) <==> Command(id, t) in commands
    ensures Handoffs(commands, id) == [] <==> forall command :: command in commands ==> command.source != id
  {
    var at := HandoffsInOrder(commands, id);
    if command :| command in commands && command.source == id {
      var k :| 0 <= k < |commands| && commands[k] == command;
      assert k in at;
    }
    if Command(id, t) in commands {
      var k :| 0 <= k < |commands| && commands[k] == Command(id, t);
      var j :| 0 <= j < |at| && at[j] == k;
      assert Handoffs(commands, id)[j] == t;
    }
    if Handoffs(commands, id) != [] {
      assert commands[at[0]] in commands;
    }
  }

  /** Entry `k` is the last one of its id. */
  predicate IsLastOf(nodes: seq<Node>, k: nat, id: string) {
    k < |nodes| && nodes[k].id == id && forall j :: k < j < |nodes| ==> nodes[j].id != id
  }

  lemma LastOfPrefix(nodes: seq<Node>, id: string)
    requires nodes != []
    ensures nodes[|nodes| - 1].id == id ==> forall k: nat :: IsLastOf(nodes, k, id) <==> k == |nodes| - 1
    ensures nodes[|nodes| - 1].id != id ==>
              forall k: nat :: IsLastOf(nodes, k, id) <==> IsLastOf(nodes[..|nodes| - 1], k, id)
  {
  }

  /** An id is declared exactly when some entry has it, as the last entry that does. */
  lemma {:induction false} DeclaredIff(nodes: seq<Node>, id: string, n: Node)
    ensures id in NodeById(nodes) && NodeById(nodes)[id] == n
       <==> exists k: nat :: IsLastOf(nodes, k, id) && nodes[k] == n
    ensures id in NodeById(nodes) <==> exists m :: m in nodes && m.id == id
  {
    if nodes != [] {
      var last := |nodes| - 1;
      DeclaredIff(nodes[..last], id, n);
      LastOfPrefix(nodes, id);
      assert forall m :: m in nodes <==> m in nodes[..last] || m == nodes[last];
    }
  }

  lemma TargetsInUniverse(c: Config, id: string)
    requires id in Declared(c)
    ensures forall x :: x in Targets(c, id) ==> x in Universe(c)
  {
    DeclaredIff(c.graph.nodes, id, Declared(c)[id]);
    forall x | x in Handoffs(c.graph.commands, id) ensures x in Universe(c) {
      HandoffsIff(c.graph.commands, id, x);
    }
  }

  predicate NoDeadline(c: Config) {
    c.timeoutMs == 0
  }

  /** The start reading is the clock's first; each loop test takes one more. */
  predicate DeadlineHit(c: Config, env: Env, w: Walk) {
    !NoDeadline(c) && env.clock(w.readings) >= env.clock(0) + c.timeoutMs as real / 1000.0
  }

  /** The loop of `run_ir` from a given state to its end. */
  function Finish(c: Config, env: Env, w: Walk): Walk
    requires InUniverse(c, w)
    decreases Universe(c) - w.visited, |w.queue|
  {
    if w.queue == [] || DeadlineHit(c, env, w) then w
    else
      var id := w.queue[0];
      var popped := w.(queue := w.queue[1..], readings := w.readings + 1);
      if id in w.visited then Finish(c, env, popped)
      else
        var marked := popped.(visited := w.visited + {id});
        if id in c.disabled then Finish(c, env, marked)
        else if |w.path| >= c.recursionLimit then marked
        else if id !in Declared(c) then Finish(c, env, marked)
        else
          TargetsInUniverse(c, id);
          Finish(c, env, Visit(c, env, marked, id))
  }

  function Start(c: Config): (w: Walk)
    ensures InUniverse(c, w)
  {
    Walk([c.graph.entrypoint], {}, [], [], "", false, UsageTotal(false, 0, 0, 0), [], 1)
  }

  function Outcome(c: Config, env: Env): Walk {
    Finish(c, env, Start(c))
  }

  /** The reported part of a walk. */
  datatype Ledger = Ledger(path: seq<string>, steps: seq<StepRecord>, output: string, reachedEnd: bool,
                           usage: UsageTotal, log: seq<Request>)

  function LedgerOf(w: Walk): Ledger {
    Ledger(w.path, w.steps, w.output, w.reachedEnd, w.usage, w.log)
  }

  /** Induction over a run: what one more visit keeps, the whole run keeps. */
  lemma {:induction false} EveryRunKeeps(c: Config, env: Env, w: Walk, P: Ledger -> bool)
    requires InUniverse(c, w) && P(LedgerOf(w))
    requires forall x: Walk, id ::
               id in Declared(c) && |x.path| < c.recursionLimit && P(LedgerOf(x)) ==> P(LedgerOf(Visit(c, env, x, id)))
    ensures P(LedgerOf(Finish(c, env, w)))
    decreases Universe(c) - w.visited, |w.queue|
  {
    if w.queue == [] || DeadlineHit(c, env, w) {
    } else {
      var id := w.queue[0];
      var popped := w.(queue := w.queue[1..], readings := w.readings + 1);
      var marked := popped.(visited := w.visited + {id});
      assert LedgerOf(popped) == LedgerOf(marked) == LedgerOf(w);
      if id in w.visited {
        EveryRunKeeps(c, env, popped, P);
      } else if id in c.disabled {
        EveryRunKeeps(c, env, marked, P);
      } else if |w.path| >= c.recursionLimit {
      } else if id !in Declared(c) {
        EveryRunKeeps(c, env, marked, P);
      } else {
        TargetsInUniverse(c, id);
        EveryRunKeeps(c, env, Visit(c, env, marked, id), P);
      }
    }
  }
}
