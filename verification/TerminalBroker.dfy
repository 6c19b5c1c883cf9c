/** The terminal broker's objects. The ghost field `model` of a broker is the state of
    module TerminalSessions; each handler moves it by exactly one step of that machine. */
module TerminalBroker {
  import opened Prelude
  import opened TerminalSessions
  import Tokens = SingleUseTokens

  class TermSession {
    const podName: string
    var closed: bool
    var idleTimer: Option<nat>
    var maxTimer: Option<nat>
    ghost var deletes: nat

    /** A session as `handleSession` sets it up, both timers running. */
    constructor (podName: string, l: Limits, now: nat)
      ensures this.podName == podName && View() == OpenedView(l, now)
      ensures !closed && idleTimer == Some(now + l.idleMs) && maxTimer == Some(now + l.maxMs)
    {
      this.podName := podName;
      closed, deletes := false, 0;
      maxTimer := Some(now + l.maxMs);
      idleTimer := Some(now + l.idleMs);
    }

    ghost function View(): View
      reads this
    {
      TerminalSessions.View(closed, idleTimer, maxTimer, deletes)
    }

    /** The object agrees with the record the state machine keeps for pod `n`. */
    ghost predicate Mirrors(n: string, m: State)
      reads this
    {
      podName == n && n in m.sessions && m.sessions[n].view == View() && (n in m.live <==> !closed)
    }

    /** The session's share of `cleanup`: a fired timer is gone, the others are cleared. */
    method Close(cause: Cause) returns (first: bool)
      modifies this
      ensures View() == ClosedView(Consumed(old(View()), cause))
      ensures first == !old(closed)
    {
      if cause == IdleTimer {
        idleTimer := None;
      }
      if cause == MaxTimer {
        maxTimer := None;
      }
      if closed {
        return false;
      }
      closed := true;
      idleTimer := None;
      maxTimer := None;
      deletes := deletes + 1;
      return true;
    }
  }

  datatype Answer = Unauthorized | ServiceUnavailable | SessionOpen(session: TermSession)

  /** `live` names exactly the sessions in `sessions`, each found under its pod name. */
  ghost predicate Indexed(sessions: set<TermSession>, objects: map<string, TermSession>, live: set<string>) {
    && |sessions| == |live| && live <= objects.Keys
    && (forall n :: n in objects ==> objects[n].podName == n && (objects[n] in sessions <==> n in live))
    && (forall s :: s in sessions ==> s.podName in objects && objects[s.podName] == s)
  }

  lemma IndexAdds(sessions: set<TermSession>, objects: map<string, TermSession>, live: set<string>, s: TermSession)
    requires Indexed(sessions, objects, live) && s.podName !in objects
    ensures Indexed(sessions + {s}, objects[s.podName := s], live + {s.podName})
  {
    assert s !in sessions;
  }

  lemma IndexRemoves(sessions: set<TermSession>, objects: map<string, TermSession>, live: set<string>, s: TermSession)
    requires Indexed(sessions, objects, live) && s in sessions
    ensures Indexed(sessions - {s}, objects, live - {s.podName})
  {
    assert objects[s.podName] == s;
  }

  /** Every session but `n` keeps its record and its place among the live ones. */
  ghost predicate OthersStay(m: State, t: State, n: string) {
    forall k :: k in m.sessions && k != n ==>
      k in t.sessions && t.sessions[k].view == m.sessions[k].view && (k in t.live <==> k in m.live)
  }

  lemma OpenMoves(l: Limits, m: State, n: string)
    requires CanOpen(l, m, n) && m.sessions.Keys <= m.names
    ensures OthersStay(m, Opened(l, m, n), n)
  {
  }

  lemma TypeMoves(l: Limits, m: State, n: string)
    requires CanType(m, n)
    ensures OthersStay(m, Typed(l, m, n), n)
  {
  }

  lemma EndMoves(m: State, n: string, cause: Cause)
    requires CanEnd(m, n, cause)
    ensures OthersStay(m, Ended(m, n, cause), n)
  {
  }

  /** The other events change no session's view. */
  lemma EnvironmentMoves(l: Limits, m: State, e: Event)
    requires Enabled(l, m, e) && !e.Open? && !e.Trigger? && !e.Message?
    ensures var t := Step(l, m, e);
            && t.sessions.Keys == m.sessions.Keys && t.live == m.live && t.names == m.names
            && forall n :: n in m.sessions ==> t.sessions[n].view == m.sessions[n].view
  {
  }

  class Broker {
    const limits: Limits
    const gate: Tokens.TokenGate
    var sessions: set<TermSession>
    /** Every session this process ever opened, by pod name; closed ones still get events. */
    ghost var objects: map<string, TermSession>
    ghost var model: State

    /** Every session ever opened agrees with its record in the state machine. */
    ghost predicate Valid()
      reads this, objects.Values
    {
      && |sessions| <= limits.maxSessions
      && objects.Keys == model.sessions.Keys <= model.names
      && Indexed(sessions, objects, model.live)
      && forall n :: n in objects ==> objects[n].Mirrors(n, model)
    }

    ghost predicate Owns(s: TermSession)
      reads this
    {
      s.podName in objects && objects[s.podName] == s
    }

    constructor (limits: Limits, gate: Tokens.TokenGate, ghost start: State)
      requires Initial(start)
      ensures Valid() && model == start && objects == map[] && sessions == {}
      ensures this.limits == limits && this.gate == gate
    {
      this.limits, this.gate := limits, gate;
      sessions := {};
      objects, model := map[], start;
    }

    /** Steps of the cluster, of the clock and of pending requests do not touch the objects. */
    ghost method Environment(e: Event)
      requires Valid() && Enabled(limits, model, e)
      requires !e.Open? && !e.Trigger? && !e.Message?
      modifies this`model
      ensures Valid() && model == Step(limits, old(model), e)
    {
      EnvironmentMoves(limits, model, e);
      model := Step(limits, model, e);
    }

    /** The machine's share of an event of session `n`, once the object of that session and
        the set of sessions have moved. */
    ghost method Become(next: State, n: string)
      requires n in objects && objects[n].Mirrors(n, next) && OthersStay(model, next, n)
      requires forall m :: m in objects && m != n ==> objects[m].Mirrors(m, model)
      requires objects.Keys == next.sessions.Keys <= next.names
      requires Indexed(sessions, objects, next.live) && |sessions| <= limits.maxSessions
      modifies this`model
      ensures Valid() && model == next
    {
      model := next;
    }

    method ResetIdle(s: TermSession, now: nat)
      requires Valid() && Owns(s) && model.now == now && CanType(model, s.podName)
      modifies this`model, s`idleTimer
      ensures Valid() && model == Typed(limits, old(model), s.podName)
      ensures s.idleTimer == Some(now + limits.idleMs)
    {
      TypeMoves(limits, model, s.podName);
      assert s.Mirrors(s.podName, model);
      s.idleTimer := Some(now + limits.idleMs);
      Become(Typed(limits, model, s.podName), s.podName);
    }

    /** The session object and its entry in the set. */
    method AddSession(podName: string, now: nat, ghost live: set<string>) returns (s: TermSession)
      requires Indexed(sessions, objects, live) && podName !in objects
      modifies this`sessions, this`objects
      ensures fresh(s) && s.podName == podName && s.View() == OpenedView(limits, now)
      ensures !s.closed && s.idleTimer == Some(now + limits.idleMs) && s.maxTimer == Some(now + limits.maxMs)
      ensures objects == old(objects)[podName := s] && sessions == old(sessions) + {s}
      ensures Indexed(sessions, objects, live + {podName}) && |sessions| == |live + {podName}|
    {
      s := new TermSession(podName, limits, now);
      IndexAdds(sessions, objects, live, s);
      sessions, objects := sessions + {s}, objects[podName := s];
    }

    /** The part of `handleSession` before its first await. */
    method HandleSession(podName: string, now: nat) returns (s: TermSession)
      requires Valid() && model.now == now && CanOpen(limits, model, podName)
      modifies this
      ensures Valid() && model == Opened(limits, old(model), podName)
      ensures fresh(s) && objects == old(objects)[podName := s] && sessions == old(sessions) + {s}
      ensures !s.closed && s.idleTimer == Some(now + limits.idleMs) && s.maxTimer == Some(now + limits.maxMs)
    {
      OpenMoves(limits, model, podName);
      s := AddSession(podName, now, model.live);
      Become(Opened(limits, model, podName), podName);
    }

    /** The upgrade handler: the token is spent even when the broker is full. */
    method Upgrade(claims: Tokens.Claims, seconds: int, now: nat, podName: string) returns (answer: Answer)
      requires Valid() && model.now == now && podName !in model.names
      modifies this, gate
      ensures Valid()
      ensures var g := Tokens.Step(gate.kind, gate.allowedRoles, Tokens.Gate(seconds, old(gate.usedSids), []),
                                   Tokens.Verify(claims));
              gate.usedSids == g.used && (answer.Unauthorized? <==> g.accepted == [])
      ensures !answer.Unauthorized? ==> claims.sid in gate.usedSids && claims.sid !in old(gate.usedSids)
      ensures answer.ServiceUnavailable? ==> |old(model).live| == |old(sessions)| == limits.maxSessions
      ensures if answer.SessionOpen?
              then && |old(sessions)| < limits.maxSessions && model == Opened(limits, old(model), podName)
                   && fresh(answer.session) && objects == old(objects)[podName := answer.session]
                   && sessions == old(sessions) + {answer.session}
              else model == old(model) && objects == old(objects) && sessions == old(sessions)
    {
      var accepted := gate.Verify(claims, seconds);
      if !accepted {
        return Unauthorized;
      }
      if |sessions| >= limits.maxSessions {
        return ServiceUnavailable;
      }
      var s := HandleSession(podName, now);
      return SessionOpen(s);
    }

    /** The session object and its entry in the set, on the other end. */
    method DropSession(s: TermSession, cause: Cause, ghost live: set<string>) returns (first: bool)
      requires Indexed(sessions, objects, live) && Owns(s) && (s in sessions <==> !s.closed)
      modifies this`sessions, s
      ensures s.View() == ClosedView(Consumed(old(s.View()), cause)) && first == !old(s.closed)
      ensures s.closed && s.deletes == old(s.deletes) + (if first then 1 else 0)
      ensures s.idleTimer == (if first || cause == IdleTimer then None else old(s.idleTimer))
      ensures s.maxTimer == (if first || cause == MaxTimer then None else old(s.maxTimer))
      ensures sessions == old(sessions) - {s} && |sessions| <= |old(sessions)|
      ensures Indexed(sessions, objects, live - {s.podName})
    {
      first := s.Close(cause);
      if first {
        IndexRemoves(sessions, objects, live, s);
        sessions := sessions - {s};
      } else {
        assert s.podName !in live;
      }
    }

    /** `cleanup`: only its first call for a session closes it and issues the pod delete. */
    method Cleanup(s: TermSession, cause: Cause) returns (deletePod: bool)
      requires Valid() && Owns(s) && CanEnd(model, s.podName, cause)
      modifies this`sessions, this`model, s
      ensures Valid() && model == Ended(old(model), s.podName, cause)
      ensures deletePod == !old(s.closed) && sessions == old(sessions) - {s}
      ensures s.closed && s.deletes == old(s.deletes) + (if deletePod then 1 else 0)
      ensures s.idleTimer == (if deletePod || cause == IdleTimer then None else old(s.idleTimer))
      ensures s.maxTimer == (if deletePod || cause == MaxTimer then None else old(s.maxTimer))
    {
      EndMoves(model, s.podName, cause);
      assert s.Mirrors(s.podName, model);
      ghost var next := Ended(model, s.podName, cause);
      assert forall m :: m in objects && m != s.podName ==> objects[m] != s;
      deletePod := DropSession(s, cause, model.live);
      Become(next, s.podName);
    }

    /** The janitor's `[...sessions].some(...)`. */
    method HasSession(podName: string) returns (found: bool)
      requires Valid()
      ensures found <==> podName in model.live
    {
      var rest := sessions;
      found := false;
      while rest != {} && !found
        invariant rest <= sessions
        invariant found ==> podName in model.live
        invariant !found ==> forall s :: s in sessions - rest ==> s.podName != podName
        decreases |rest|
      {
        var s :| s in rest;
        rest := rest - {s};
        found := s.podName == podName;
      }
      assert podName in model.live ==> objects[podName] in sessions;
    }

    /** One turn of the janitor's loop: whether it goes on to delete the pod. */
    method JanitorTurn(id: nat, pod: Listed, asOf: nat) returns (reap: bool)
      requires Valid() && Enabled(limits, model, Examine(id))
      requires model.sweeps[id].listed[model.sweeps[id].next] == pod && model.sweeps[id].asOf == Some(asOf)
      modifies this`model
      ensures Valid() && model == Step(limits, old(model), Examine(id))
      ensures reap <==> pod.name !in old(model).live && asOf - pod.stamp > limits.maxMs
      ensures model.sweeps[id].deleting == if reap then Some(pod.name) else None
    {
      var live := HasSession(pod.name);
      reap := !live && asOf - pod.stamp > limits.maxMs;
      model := Step(limits, model, Examine(id));
    }
  }
}
