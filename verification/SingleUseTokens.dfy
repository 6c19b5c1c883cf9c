/** Single-use session tokens, as both brokers verify them: claims that passed the
    signature check are admitted once, and a reaper forgets expired session ids. */
module SingleUseTokens {
  import opened Prelude

  /** The claims of a token whose signature and JSON were accepted. `domains` is
      `None` when the claim is missing or not an array. */
  datatype Claims = Claims(sub: string, role: string, sid: string, exp: real,
                           domain: string, domains: Option<seq<string>>)

  datatype Broker = Terminal | Workbench

  /** Every check of `verifyToken` between the signature and the replay guard. */
  predicate Admits(b: Broker, allowedRoles: seq<string>, c: Claims, now: int) {
    && c.sub != "" && c.role != ""
    && c.exp >= now as real
    && c.role in allowedRoles
    && (b == Workbench ==> c.domain != "" && c.domains.Some? && c.domain in c.domains.value)
  }

  function Surviving(used: map<string, real>, now: int): map<string, real> {
    map sid | sid in used && used[sid] >= now as real :: used[sid]
  }

  class TokenGate {
    const kind: Broker
    const allowedRoles: seq<string>
    var usedSids: map<string, real>

    constructor (kind: Broker, allowedRoles: seq<string>)
      ensures usedSids == map[] && this.kind == kind && this.allowedRoles == allowedRoles
    {
      this.kind, this.allowedRoles := kind, allowedRoles;
      usedSids := map[];
    }

    method Verify(c: Claims, now: int) returns (accepted: bool)
      modifies this
      ensures accepted
         <==> && c.sub != "" && c.role != "" && c.exp >= now as real && c.role in allowedRoles
              && (kind == Workbench ==>
                    && c.domain != "" && c.domains.Some?
                    && exists k :: 0 <= k < |c.domains.value| && c.domains.value[k] == c.domain)
              && c.sid != "" && c.sid !in old(usedSids)
      ensures usedSids == if accepted then old(usedSids)[c.sid := c.exp] else old(usedSids)
      ensures var next := Step(kind, allowedRoles, Gate(now, old(usedSids), []), Event.Verify(c));
              usedSids == next.used && (accepted <==> next.accepted == [Acceptance(c, now)])
    {
      if c.sub == "" || c.role == "" {
        return false;
      }
      if c.exp < now as real {
        return false;
      }
      if c.role !in allowedRoles {
        return false;
      }
      if kind == Workbench {
        if c.domain == "" {
          return false;
        }
        if c.domains.None? || c.domain !in c.domains.value {
          return false;
        }
      }
      if c.sid == "" || c.sid in usedSids {
        return false;
      }
      usedSids := usedSids[c.sid := c.exp];
      return true;
    }

    /** The periodic reaper: deletes every entry that has expired. */
    method Reap(now: int)
      modifies this
      ensures usedSids == Step(kind, allowedRoles, Gate(now, old(usedSids), []), Event.Reap).used
      ensures forall sid :: sid in usedSids <==> sid in old(usedSids) && old(usedSids)[sid] >= now as real
      ensures forall sid :: sid in usedSids ==> usedSids[sid] == old(usedSids)[sid]
    {
      var entries := usedSids.Keys;
      ghost var seen: set<string> := {};
      while entries != {}
        invariant seen + entries == old(usedSids).Keys && seen !! entries
        invariant usedSids == map sid | sid in old(usedSids) && (sid in seen ==> old(usedSids)[sid] >= now as real)
                                :: old(usedSids)[sid]
        decreases |entries|
      {
        var sid :| sid in entries;
        entries, seen := entries - {sid}, seen + {sid};
        if usedSids[sid] < now as real {
          usedSids := usedSids - {sid};
        }
      }
    }
  }

  // -------------------------------------------------------- runs of the gate

  datatype Event =
    | Verify(claims: Claims)
    | Reap
    | Tick(seconds: nat)

  datatype Acceptance = Acceptance(claims: Claims, at: int)

  /** The gate between events: the clock, the remembered ids, and the history of
      acceptances, which only the theorems read. */
  datatype Gate = Gate(now: int, used: map<string, real>, accepted: seq<Acceptance>)

  /** The gate after accepting a token. */
  function Accepting(g: Gate, c: Claims): Gate {
    g.(used := g.used[c.sid := c.exp], accepted := g.accepted + [Acceptance(c, g.now)])
  }

  function Step(b: Broker, roles: seq<string>, g: Gate, e: Event): Gate {
    match e
    case Verify(c) =>
      if Admits(b, roles, c, g.now) && c.sid != "" && c.sid !in g.used
      then Accepting(g, c) else g
    case Reap => g.(used := Surviving(g.used, g.now))
    case Tick(n) => g.(now := g.now + n)
  }

  function Run(b: Broker, roles: seq<string>, g: Gate, events: seq<Event>): Gate
    decreases |events|
  {
    if events == [] then g
    else Run(b, roles, Step(b, roles, g, events[0]), events[1..])
  }

  ghost predicate AcceptedWith(g: Gate, sid: string, exp: real) {
    exists i :: 0 <= i < |g.accepted| && g.accepted[i].claims.sid == sid && g.accepted[i].claims.exp == exp
  }

  /** The token named its user, a role that is let in and a session, was not expired, and for
      the workbench named one of its domains. */
  predicate WasInOrder(b: Broker, roles: seq<string>, a: Acceptance) {
    && a.claims.sub != "" && a.claims.role != "" && a.claims.role in roles && a.claims.sid != ""
    && a.at as real <= a.claims.exp
    && (b == Workbench ==>
          a.claims.domain != "" && a.claims.domains.Some? && a.claims.domain in a.claims.domains.value)
  }

  /** Every accepted token was in order, and has expired or is remembered under its own expiry;
      only accepted tokens are remembered; an id came back only after the earlier token had
      expired. */
  ghost predicate Remembered(b: Broker, roles: seq<string>, g: Gate) {
    && (forall i :: 0 <= i < |g.accepted| ==>
          var a := g.accepted[i];
          && WasInOrder(b, roles, a)
          && a.at <= g.now
          && (a.claims.exp < g.now as real || (a.claims.sid in g.used && g.used[a.claims.sid] == a.claims.exp)))
    && (forall sid :: sid in g.used ==> AcceptedWith(g, sid, g.used[sid]))
    && (forall i, j :: 0 <= i < j < |g.accepted| && g.accepted[i].claims.sid == g.accepted[j].claims.sid ==>
          g.accepted[i].claims.exp < g.accepted[j].at as real)
  }

  lemma AcceptanceRemembers(b: Broker, roles: seq<string>, g: Gate, c: Claims)
    requires Remembered(b, roles, g) && Admits(b, roles, c, g.now) && c.sid != "" && c.sid !in g.used
    ensures Remembered(b, roles, Accepting(g, c))
  {
    var next := Accepting(g, c);
    forall sid | sid in next.used ensures AcceptedWith(next, sid, next.used[sid]) {
      if sid == c.sid {
        assert next.accepted[|g.accepted|].claims.sid == sid;
      } else {
        StaysAccepted(g, next, sid, g.used[sid]);
      }
    }
  }

  lemma StaysAccepted(g: Gate, next: Gate, sid: string, exp: real)
    requires AcceptedWith(g, sid, exp) && g.accepted <= next.accepted
    ensures AcceptedWith(next, sid, exp)
  {
    var i :| 0 <= i < |g.accepted| && g.accepted[i].claims.sid == sid && g.accepted[i].claims.exp == exp;
    assert next.accepted[i] == g.accepted[i];
  }

  lemma StepRemembers(b: Broker, roles: seq<string>, g: Gate, e: Event)
    requires Remembered(b, roles, g)
    ensures Remembered(b, roles, Step(b, roles, g, e))
  {
    var next := Step(b, roles, g, e);
    if e.Verify? && next != g {
      AcceptanceRemembers(b, roles, g, e.claims);
    } else {
      forall sid | sid in next.used ensures AcceptedWith(next, sid, next.used[sid]) {
        StaysAccepted(g, next, sid, g.used[sid]);
      }
    }
  }

  lemma {:induction false} RunRemembers(b: Broker, roles: seq<string>, g: Gate, events: seq<Event>)
    requires Remembered(b, roles, g)
    ensures Remembered(b, roles, Run(b, roles, g, events))
    decreases |events|
  {
    if events != [] {
      StepRemembers(b, roles, g, events[0]);
      RunRemembers(b, roles, Step(b, roles, g, events[0]), events[1..]);
    }
  }

  /** In every run from a fresh gate only tokens in order are accepted, and none twice, although
      the reaper forgets ids; a session id is refused as used while a token that carried it is
      unexpired, and only if such a token was accepted. */
  lemma NoTokenAcceptedTwice(b: Broker, roles: seq<string>, start: int, events: seq<Event>)
    ensures var g := Run(b, roles, Gate(start, map[], []), events);
            && (forall i :: 0 <= i < |g.accepted| ==> WasInOrder(b, roles, g.accepted[i]))
            && (forall i, j :: 0 <= i < j < |g.accepted| ==> g.accepted[i].claims != g.accepted[j].claims)
            && (forall i :: 0 <= i < |g.accepted| && g.accepted[i].claims.exp >= g.now as real ==>
                  g.accepted[i].claims.sid in g.used)
            && (forall sid :: sid in g.used ==> AcceptedWith(g, sid, g.used[sid]))
  {
    RunRemembers(b, roles, Gate(start, map[], []), events);
  }
}
