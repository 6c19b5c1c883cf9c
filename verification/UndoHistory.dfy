/** The bounded undo and redo stacks of the system editor (os-ui/components/agents/SystemView.tsx). */
module UndoHistory {
  import opened Prelude

  const MAX_DEPTH: nat := 30

  /** The refs of the component, as one value. `current` is the document last loaded. */
  datatype History<S> = History(undo: seq<S>, redo: seq<S>, acting: bool, current: Option<S>)

  datatype Event<S> =
    | Commit(next: S, skipHistory: bool, snapshot: Option<S>)
    | Undo
    | Redo
    | Post                            // another server action takes the same guard
    | Settle(loaded: Option<S>)       // the action in flight ends; what a reload then shows, if anything
    | Render(shown: S)

  /** JavaScript's `stack.slice(-29)`. */
  function Recent<S>(stack: seq<S>): seq<S> {
    if |stack| <= MAX_DEPTH - 1 then stack else stack[|stack| - (MAX_DEPTH - 1)..]
  }

  /** `commit`, up to its first await. */
  function Start<S>(h: History<S>, skipHistory: bool, snapshot: Option<S>): History<S> {
    if h.acting then h
    else
      var snap := if snapshot.Some? then snapshot else h.current;
      if skipHistory || snap.None? then h.(acting := true)
      else h.(acting := true, undo := Recent(h.undo) + [snap.value], redo := [])
  }

  function PressUndo<S>(h: History<S>): History<S> {
    if h.undo == [] then h
    else
      var popped := h.(undo := h.undo[..|h.undo| - 1]);
      if h.current.None? then popped
      else Start(popped.(redo := Recent(h.redo) + [h.current.value]), true, None)
  }

  function PressRedo<S>(h: History<S>): History<S> {
    if h.redo == [] then h
    else
      var popped := h.(redo := h.redo[..|h.redo| - 1]);
      if h.current.None? then popped
      else Start(popped.(undo := Recent(h.undo) + [h.current.value]), true, None)
  }

  /** A snapshot handed to `commit` is a document that was on screen. */
  predicate Enabled<S>(h: History<S>, e: Event<S>) {
    match e
    case Commit(_, _, snapshot) => snapshot.Some? ==> h.current.Some?
    case Settle(_) => h.acting
    case _ => true
  }

  function Step<S>(h: History<S>, e: Event<S>): History<S> {
    match e
    case Commit(_, skip, snapshot) => Start(h, skip, snapshot)
    case Undo => PressUndo(h)
    case Redo => PressRedo(h)
    case Post => h.(acting := true)
    case Settle(loaded) => h.(acting := false, current := if loaded.Some? then loaded else h.current)
    case Render(shown) => h.(current := Some(shown))
  }

  /** The document sent to the server, if the event starts a commit. */
  function Sent<S>(h: History<S>, e: Event<S>): Option<S> {
    if h.acting then None
    else
      match e
      case Commit(next, _, _) => Some(next)
      case Undo => if h.undo != [] && h.current.Some? then Some(h.undo[|h.undo| - 1]) else None
      case Redo => if h.redo != [] && h.current.Some? then Some(h.redo[|h.redo| - 1]) else None
      case _ => None
  }

  // ------------------------------------------------------ the component

  class Editor<S(==)> {
    var undoStack: seq<S>
    var redoStack: seq<S>
    var acting: bool
    var current: Option<S>

    ghost function View(): History<S>
      reads this
    {
      History(undoStack, redoStack, acting, current)
    }

    constructor ()
      ensures View() == History([], [], false, None)
    {
      undoStack, redoStack, acting, current := [], [], false, None;
    }

    /** `commit` until its await; `sent` tells whether the request goes out. */
    method BeginCommit(next: S, skipHistory: bool, snapshot: Option<S>) returns (sent: Option<S>)
      modifies this
      ensures View() == Step(old(View()), Commit(next, skipHistory, snapshot))
      ensures sent == Sent(old(View()), Commit(next, skipHistory, snapshot))
    {
      if acting {
        return None;
      }
      acting := true;
      if !skipHistory {
        var snap := if snapshot.Some? then snapshot else current;
        if snap.Some? {
          undoStack := Recent(undoStack) + [snap.value];
          redoStack := [];
        }
      }
      sent := Some(next);
    }

    method UndoPressed() returns (sent: Option<S>)
      modifies this
      ensures View() == Step(old(View()), Undo)
      ensures sent == Sent(old(View()), Undo)
    {
      if undoStack == [] {
        return None;
      }
      var previous := undoStack[|undoStack| - 1];
      undoStack := undoStack[..|undoStack| - 1];
      if current.None? {
        return None;
      }
      redoStack := Recent(redoStack) + [current.value];
      sent := BeginCommit(previous, true, None);
    }

    method RedoPressed() returns (sent: Option<S>)
      modifies this
      ensures View() == Step(old(View()), Redo)
      ensures sent == Sent(old(View()), Redo)
    {
      if redoStack == [] {
        return None;
      }
      var next := redoStack[|redoStack| - 1];
      redoStack := redoStack[..|redoStack| - 1];
      if current.None? {
        return None;
      }
      undoStack := Recent(undoStack) + [current.value];
      sent := BeginCommit(next, true, None);
    }

    /** The `finally` of the action in flight, and the reload before it if there was one. */
    method Settled(loaded: Option<S>)
      modifies this
      ensures View() == Step(old(View()), Settle(loaded))
    {
      if loaded.Some? {
        current := loaded;
      }
      acting := false;
    }
  }

  // --------------------------------------------------------- every run

  /** The two stacks together never hold more than thirty documents. */
  predicate Inv<S>(h: History<S>) {
    && |h.undo| + |h.redo| <= MAX_DEPTH
    && (h.undo != [] || h.redo != [] ==> h.current.Some?)
  }

  ghost predicate IsRun<S>(states: seq<History<S>>, events: seq<Event<S>>) {
    && |states| == |events| + 1
    && states[0] == History([], [], false, None)
    && forall k :: 0 <= k < |events| ==> Enabled(states[k], events[k]) && states[k + 1] == Step(states[k], events[k])
  }

  lemma StepKeepsInv<S>(h: History<S>, e: Event<S>)
    requires Inv(h) && Enabled(h, e)
    ensures Inv(Step(h, e))
  {
  }

  lemma {:induction false} RunKeepsInv<S>(states: seq<History<S>>, events: seq<Event<S>>, k: nat)
    requires IsRun(states, events) && k < |states|
    ensures Inv(states[k]) && |states[k].undo| + |states[k].redo| <= 30
  {
    if k > 0 {
      RunKeepsInv(states, events, k - 1);
      StepKeepsInv(states[k - 1], events[k - 1]);
    }
  }

  /** So the `slice(-29)` in undo and in redo never discards a document. */
  lemma SliceNeverDiscards<S>(states: seq<History<S>>, events: seq<Event<S>>, k: nat)
    requires IsRun(states, events) && k < |states|
    ensures var h := states[k];
      && (h.undo != [] ==> Recent(h.redo) == h.redo)
      && (h.redo != [] ==> Recent(h.undo) == h.undo)
  {
    RunKeepsInv(states, events, k);
  }

  // ------------------------------------------------------- the timeline

  function Reversed<S>(s: seq<S>): seq<S> {
    if s == [] then [] else [s[|s| - 1]] + Reversed(s[..|s| - 1])
  }

  /** All the documents the buttons can reach, oldest first. */
  function Timeline<S>(h: History<S>): seq<S>
    requires h.current.Some?
  {
    h.undo + [h.current.value] + Reversed(h.redo)
  }

  datatype Press = Back | Forward

  /** A press whose commit, if it starts one, succeeds and is read back unchanged. */
  function Committed<S>(h: History<S>, p: Press): History<S> {
    var e: Event<S> := if p.Back? then Undo else Redo;
    var sent := Sent(h, e);
    if sent.None? then Step(h, e) else Step(Step(h, e), Settle(sent))
  }

  function CommittedAll<S>(h: History<S>, presses: seq<Press>): History<S> {
    if presses == [] then h
    else Committed(CommittedAll(h, presses[..|presses| - 1]), presses[|presses| - 1])
  }

  /** Where the presses lead, on a timeline of the given length. */
  function Walk(position: nat, length: nat, presses: seq<Press>): nat {
    if presses == [] then position
    else
      var at := Walk(position, length, presses[..|presses| - 1]);
      if presses[|presses| - 1].Back? then (if at > 0 then at - 1 else 0)
      else if at + 1 < length then at + 1 else at
  }

  lemma ReversedSnoc<S>(s: seq<S>, x: S)
    ensures Reversed(s + [x]) == [x] + Reversed(s)
  {
    assert (s + [x])[..|s|] == s;
  }

  lemma {:induction false} ReversedLength<S>(s: seq<S>)
    ensures |Reversed(s)| == |s|
  {
    if s != [] {
      ReversedLength(s[..|s| - 1]);
    }
  }

  lemma CommittedBack<S>(h: History<S>)
    requires Inv(h) && !h.acting && h.current.Some? && h.undo != []
    ensures var g := Committed(h, Back);
      && g.current == Some(h.undo[|h.undo| - 1]) && g.undo == h.undo[..|h.undo| - 1]
      && g.redo == h.redo + [h.current.value] && !g.acting
  {
  }

  lemma CommittedForward<S>(h: History<S>)
    requires Inv(h) && !h.acting && h.current.Some? && h.redo != []
    ensures var g := Committed(h, Forward);
      && g.current == Some(h.redo[|h.redo| - 1]) && g.redo == h.redo[..|h.redo| - 1]
      && g.undo == h.undo + [h.current.value] && !g.acting
  {
  }

  lemma BackKeepsTimeline<S>(h: History<S>)
    requires Inv(h) && !h.acting && h.current.Some? && h.undo != []
    ensures Timeline(Committed(h, Back)) == Timeline(h)
  {
    CommittedBack(h);
    ReversedSnoc(h.redo, h.current.value);
    assert h.undo == Committed(h, Back).undo + [h.undo[|h.undo| - 1]];
  }

  lemma ForwardKeepsTimeline<S>(h: History<S>)
    requires Inv(h) && !h.acting && h.current.Some? && h.redo != []
    ensures Timeline(Committed(h, Forward)) == Timeline(h)
  {
    CommittedForward(h);
    var next, rest := h.redo[|h.redo| - 1], h.redo[..|h.redo| - 1];
    assert h.redo == rest + [next];
    ReversedSnoc(rest, next);
  }

  lemma CommittedKeepsTimeline<S>(h: History<S>, p: Press)
    requires Inv(h) && !h.acting && h.current.Some?
    ensures var g := Committed(h, p);
      && Inv(g) && !g.acting && g.current.Some?
      && Timeline(g) == Timeline(h)
      && |g.undo| == Walk(|h.undo|, |Timeline(h)|, [p])
  {
    ReversedLength(h.redo);
    assert [p][..0] == [];
    if p.Back? && h.undo != [] {
      CommittedBack(h);
      BackKeepsTimeline(h);
    } else if p.Forward? && h.redo != [] {
      CommittedForward(h);
      ForwardKeepsTimeline(h);
    }
  }

  /** Any number of committed undo and redo presses only moves along the timeline: no document
      is lost or reordered, and the place reached is where the presses lead. */
  lemma {:induction false} PressesWalkTheTimeline<S>(h: History<S>, presses: seq<Press>)
    requires Inv(h) && !h.acting && h.current.Some?
    ensures var g := CommittedAll(h, presses);
      && Inv(g) && !g.acting && g.current.Some?
      && Timeline(g) == Timeline(h)
      && |g.undo| == Walk(|h.undo|, |Timeline(h)|, presses)
  {
    if presses != [] {
      var n := |presses| - 1;
      PressesWalkTheTimeline(h, presses[..n]);
      CommittedKeepsTimeline(CommittedAll(h, presses[..n]), presses[n]);
      assert [presses[n]][..0] == [];
    }
  }

  /** Undo and then redo, both committed, restores the document and both stacks. */
  lemma UndoThenRedo<S>(h: History<S>)
    requires Inv(h) && !h.acting && h.current.Some? && h.undo != []
    ensures Committed(Committed(h, Back), Forward) == h
  {
    CommittedBack(h);
    CommittedForward(Committed(h, Back));
  }

  /** What a commit does up to its await. While another action is in flight it does nothing;
      otherwise the document is sent, and if it asks for no history both stacks stay. */
  lemma CommitIsSent<S>(h: History<S>, next: S, skipHistory: bool, snapshot: Option<S>)
    ensures var e := Commit(next, skipHistory, snapshot);
      var g := Step(h, e);
      && (h.acting ==> g == h && Sent(h, e) == None)
      && (!h.acting ==> g.acting && g.current == h.current && Sent(h, e) == Some(next))
      && (!h.acting && skipHistory ==> g.undo == h.undo && g.redo == h.redo)
  {
  }

  /** And if it does not, the document handed to it, or else the current one, goes on top of at
      most twenty-nine others, and nothing is left to redo. */
  lemma CommitIsRecorded<S>(h: History<S>, next: S, snapshot: Option<S>)
    requires !h.acting && (snapshot.Some? || h.current.Some?)
    ensures var g := Step(h, Commit(next, false, snapshot));
      var before := if snapshot.Some? then snapshot.value else h.current.value;
      && g.redo == [] && g.undo == (if |h.undo| < 30 then h.undo else h.undo[|h.undo| - 29..]) + [before]
  {
  }

  /** Undo after a committed edit brings the document before it back, the one handed to the
      commit if there was one, and keeps the edit for redo; of the older documents only the
      thirtieth is gone. */
  lemma EditThenUndo<S>(h: History<S>, next: S, snapshot: Option<S>)
    requires Inv(h) && !h.acting && h.current.Some?
    ensures var edited := Step(Step(h, Commit(next, false, snapshot)), Settle(Some(next)));
      var g := Committed(edited, Back);
      && edited.current == Some(next) && !edited.acting
      && g.current == (if snapshot.Some? then snapshot else h.current) && g.redo == [next] && !g.acting
      && g.undo == if |h.undo| == 30 then h.undo[1..] else h.undo
  {
  }

  /** An undo press, and the end of its commit if the press started one. */
  function UndoSettled<S>(h: History<S>, succeeds: bool): History<S> {
    if h.acting then Step(h, Undo)
    else Step(Step(h, Undo), Settle(if succeeds then Sent(h, Undo) else None))
  }

  /** When an undo press keeps the timeline: exactly when its commit is accepted and succeeds,
      or the two documents are the same anyway. Pressed while another action is in flight, or
      when the commit fails, it loses the document it popped and doubles the current one. */
  lemma UndoKeepsTimelineIff<S>(h: History<S>, succeeds: bool)
    requires Inv(h) && h.current.Some? && h.undo != []
    ensures var g, popped, cur := UndoSettled(h, succeeds), h.undo[|h.undo| - 1], h.current.value;
      && g.current.Some?
      && (Timeline(g) == Timeline(h) <==> (!h.acting && succeeds) || popped == cur)
      && (h.acting || !succeeds ==> Timeline(g) == h.undo[..|h.undo| - 1] + [cur, cur] + Reversed(h.redo))
  {
    var g, popped := UndoSettled(h, succeeds), h.undo[|h.undo| - 1];
    ReversedSnoc(h.redo, h.current.value);
    assert h.undo == h.undo[..|h.undo| - 1] + [popped];
    assert Timeline(h)[|h.undo| - 1] == popped;
    assert Timeline(g)[|h.undo| - 1] == g.current.value;
  }

  /** A redo press, and the end of its commit if the press started one. */
  function RedoSettled<S>(h: History<S>, succeeds: bool): History<S> {
    if h.acting then Step(h, Redo)
    else Step(Step(h, Redo), Settle(if succeeds then Sent(h, Redo) else None))
  }

  /** The same for a redo press: it keeps the timeline exactly when its commit is accepted and
      succeeds, or the documents are the same; otherwise it loses the one it popped. */
  lemma RedoKeepsTimelineIff<S>(h: History<S>, succeeds: bool)
    requires Inv(h) && h.current.Some? && h.redo != []
    ensures var g, popped, cur := RedoSettled(h, succeeds), h.redo[|h.redo| - 1], h.current.value;
      && g.current.Some?
      && (Timeline(g) == Timeline(h) <==> (!h.acting && succeeds) || popped == cur)
      && (h.acting || !succeeds ==> Timeline(g) == h.undo + [cur, cur] + Reversed(h.redo[..|h.redo| - 1]))
  {
    var g, n := RedoSettled(h, succeeds), |h.undo|;
    var popped, rest := h.redo[|h.redo| - 1], h.redo[..|h.redo| - 1];
    assert h.redo == rest + [popped];
    ReversedSnoc(rest, popped);
    assert Timeline(h) == h.undo + [h.current.value, popped] + Reversed(rest);
    assert Timeline(g) == h.undo + [h.current.value, g.current.value] + Reversed(rest);
    assert Timeline(h)[n + 1] == popped && Timeline(g)[n + 1] == g.current.value;
  }

  // -------------------------------------------------- fresh agent names

  function Decimal(n: nat): string {
    if n < 10 then [Digit(n)] else Decimal(n / 10) + [Digit(n % 10)]
  }

  function Digit(d: nat): char
    requires d < 10
  {
    ('0' as int + d) as char
  }

  function AgentId(n: nat): string {
    "agent" + Decimal(n)
  }

  lemma {:induction false} DecimalIsInjective(m: nat, n: nat)
    requires Decimal(m) == Decimal(n)
    ensures m == n
    decreases m
  {
    var s, t := Decimal(m), Decimal(n);
    assert s[|s| - 1] == Digit(m % 10) && t[|t| - 1] == Digit(n % 10);
    DecimalIsNonEmpty(m / 10);
    DecimalIsNonEmpty(n / 10);
    if m >= 10 {
      assert s[..|s| - 1] == Decimal(m / 10);
      assert n >= 10;
      assert t[..|t| - 1] == Decimal(n / 10);
      DecimalIsInjective(m / 10, n / 10);
    }
  }

  lemma DecimalIsNonEmpty(n: nat)
    ensures Decimal(n) != ""
  {
  }

  /** The number a text of digits stands for. */
  function Number(s: string): int {
    if s == "" then 0 else Number(s[..|s| - 1]) * 10 + (s[|s| - 1] as int - '0' as int)
  }

  /** The numeral is that of the number, in decimal digits and without leading zeros. */
  lemma {:induction false} DecimalReadsBack(n: nat)
    ensures Number(Decimal(n)) == n
    ensures forall i :: 0 <= i < |Decimal(n)| ==> '0' <= Decimal(n)[i] <= '9'
    ensures Decimal(n) != "" && (n > 0 ==> Decimal(n)[0] != '0')
  {
    if n < 10 {
      assert Decimal(n)[..0] == "";
    } else {
      DecimalReadsBack(n / 10);
      assert Decimal(n)[..|Decimal(n)| - 1] == Decimal(n / 10);
    }
  }

  /** `k` taken names need `k` taken ids. */
  lemma {:induction false} TakenNames(ids: set<string>, first: nat, n: nat)
    requires first <= n && forall m :: first <= m < n ==> AgentId(m) in ids
    ensures n - first <= |ids|
    decreases n
  {
    if first < n {
      var rest := ids - {AgentId(n - 1)};
      forall m | first <= m < n - 1 ensures AgentId(m) in rest {
        if AgentId(m) == AgentId(n - 1) {
          assert AgentId(m)[5..] == Decimal(m) && AgentId(n - 1)[5..] == Decimal(n - 1);
          DecimalIsInjective(m, n - 1);
        }
      }
      TakenNames(rest, first, n - 1);
    }
  }

  /** `addAgentGuided`: the first free name, counting from one past the number of agents. The
      loop ends, within as many tries as there are agents. */
  method FreshAgentId(agents: seq<string>) returns (id: string)
    ensures id !in agents
    ensures exists n: nat :: id == AgentId(n) == "agent" + Decimal(n) && |agents| < n <= 2 * |agents| + 1
              && forall m :: |agents| < m < n ==> AgentId(m) in agents
  {
    var ids := set a | a in agents;
    DistinctAtMost(agents);
    var n := |agents| + 1;
    id := AgentId(n);
    while id in ids
      invariant |agents| < n && id == AgentId(n)
      invariant forall m :: |agents| < m < n ==> AgentId(m) in ids
      invariant n <= |agents| + 1 + |ids|
      decreases |agents| + 1 + |ids| - n
    {
      TakenNames(ids, |agents| + 1, n + 1);
      n := n + 1;
      id := AgentId(n);
    }
  }

  lemma {:induction false} DistinctAtMost(agents: seq<string>)
    ensures |set a | a in agents| <= |agents|
  {
    if agents != [] {
      var rest := agents[1..];
      DistinctAtMost(rest);
      assert (set a | a in agents) == (set a | a in rest) + {agents[0]};
    }
  }
}
