/** The terminal broker as a state machine: sessions with timers, the pods their
    requests create and delete, and the janitor's sweeps, interleaved at every await. */
module TerminalSessions {
  import opened Prelude

  /** `lag` bounds how late the event loop fires a due timer. */
  datatype Limits = Limits(maxSessions: nat, idleMs: nat, maxMs: nat, lag: nat)

  /** The part of a session its handlers update; `deletes` counts cleanup deletes issued. */
  datatype View = View(closed: bool, idleTimer: Option<nat>, maxTimer: Option<nat>, deletes: nat)

  function OpenedView(l: Limits, now: nat): View {
    View(false, Some(now + l.idleMs), Some(now + l.maxMs), 0)
  }

  function RearmedView(l: Limits, v: View, now: nat): View {
    v.(idleTimer := Some(now + l.idleMs))
  }

  function ClosedView(v: View): View {
    if v.closed then v else View(true, None, None, v.deletes + 1)
  }

  datatype Create = InFlight | Landed(at: nat) | Lost

  /** The fate of a session's own delete request; `Missed` found no pod to delete. */
  datatype Cleanup = NotSent | Sent | Removed | Missed | Failed

  datatype Session = Session(since: nat, view: View, create: Create, cleanup: Cleanup,
                             provisioning: bool, attached: bool)

  datatype Listed = Listed(name: string, stamp: nat)

  /** One janitor callback: the pods listed by the API server at `listedAt`, the time
      `asOf` the broker resumed, and the pod being deleted. Callbacks may overlap. */
  datatype Sweep = Sweep(listed: seq<Listed>, listedAt: nat, asOf: Option<nat>, next: nat,
                         deleting: Option<string>, missed: set<string>)

  /** `pods` maps every sandbox pod to its creation time; `names` holds every pod name
      ever used, from which a random new name is assumed to differ. */
  datatype State = State(now: nat, pods: map<string, nat>, sessions: map<string, Session>, live: set<string>,
                         sweeps: map<nat, Sweep>, reaped: set<string>, names: set<string>)

  datatype Cause = SocketError | SocketClose | ShellExit | IdleTimer | MaxTimer | ProvisionError

  datatype Event =
    | Open(name: string)
    | CreateLands(name: string)
    | CreateLost(name: string)
    | Attach(name: string)
    | Message(name: string)
    | Trigger(name: string, cause: Cause)
    | DeleteLands(name: string, ok: bool)
    | SweepStart(id: nat, listed: seq<Listed>)
    | SweepResume(id: nat)
    | Examine(id: nat)
    | SweepDelete(id: nat, ok: bool)
    | SweepEnd(id: nat)
    | Tick(ms: nat)

  /** The API server stamps creation times in whole seconds. */
  function Stamp(created: nat): (stamp: nat)
    ensures stamp % 1000 == 0 && stamp <= created < stamp + 1000
  {
    created - created % 1000
  }

  predicate IsListing(pods: map<string, nat>, listed: seq<Listed>) {
    && (forall i :: 0 <= i < |listed| ==> listed[i].name in pods && listed[i].stamp == Stamp(pods[listed[i].name]))
    && (forall n :: n in pods ==> Listed(n, Stamp(pods[n])) in listed)
  }

  predicate Due(t: Option<nat>, now: nat) {
    t.Some? && now >= t.value
  }

  /** A pending timer allows the clock to reach at most `lag` past its deadline. */
  predicate InTime(l: Limits, t: Option<nat>, now: nat) {
    t.Some? ==> now <= t.value + l.lag
  }

  predicate TimersInTime(l: Limits, s: State, now: nat) {
    forall n :: n in s.sessions ==>
      InTime(l, s.sessions[n].view.idleTimer, now) && InTime(l, s.sessions[n].view.maxTimer, now)
  }

  predicate CauseEnabled(x: Session, cause: Cause, now: nat) {
    match cause
    case SocketError => true
    case SocketClose => true
    case ShellExit => x.create.Landed?
    case IdleTimer => Due(x.view.idleTimer, now)
    case MaxTimer => Due(x.view.maxTimer, now)
    case ProvisionError => x.provisioning
  }

  predicate CanOpen(l: Limits, s: State, n: string) {
    n !in s.names && |s.live| < l.maxSessions
  }

  predicate CanType(s: State, n: string) {
    n in s.sessions && s.sessions[n].attached
  }

  predicate CanEnd(s: State, n: string, cause: Cause) {
    n in s.sessions && CauseEnabled(s.sessions[n], cause, s.now)
  }

  predicate Enabled(l: Limits, s: State, e: Event) {
    match e
    case Open(n) => CanOpen(l, s, n)
    case CreateLands(n) => n in s.sessions && s.sessions[n].create.InFlight?
    case CreateLost(n) => n in s.sessions && s.sessions[n].create.InFlight?
    case Attach(n) => n in s.sessions && s.sessions[n].provisioning && s.sessions[n].create.Landed?
    case Message(n) => CanType(s, n)
    case Trigger(n, cause) => CanEnd(s, n, cause)
    case DeleteLands(n, _) => n in s.sessions && s.sessions[n].cleanup.Sent?
    case SweepStart(id, listed) => id !in s.sweeps && IsListing(s.pods, listed)
    case SweepResume(id) => id in s.sweeps && s.sweeps[id].asOf.None?
    case Examine(id) => id in s.sweeps && s.sweeps[id].asOf.Some? && s.sweeps[id].deleting.None?
                        && s.sweeps[id].next < |s.sweeps[id].listed|
    case SweepDelete(id, _) => id in s.sweeps && s.sweeps[id].deleting.Some?
    case SweepEnd(id) => id in s.sweeps && Finished(s.sweeps[id])
    case Tick(ms) => TimersInTime(l, s, s.now + ms)
  }

  predicate Finished(w: Sweep) {
    w.asOf.Some? && w.deleting.None? && w.next >= |w.listed|
  }

  /** A timer that fires is no longer pending. */
  function Consumed(v: View, cause: Cause): View {
    match cause
    case IdleTimer => v.(idleTimer := None)
    case MaxTimer => v.(maxTimer := None)
    case _ => v
  }

  function Triggered(x: Session, cause: Cause): Session {
    x.(view := ClosedView(Consumed(x.view, cause)),
       cleanup := if x.view.closed then x.cleanup else Sent,
       provisioning := x.provisioning && cause != ProvisionError)
  }

  /** One turn of the janitor's loop up to its next await. */
  function Examined(l: Limits, w: Sweep, live: set<string>): Sweep
    requires w.asOf.Some? && w.next < |w.listed|
  {
    var pod := w.listed[w.next];
    if pod.name !in live && w.asOf.value - pod.stamp > l.maxMs
    then w.(deleting := Some(pod.name))
    else w.(next := w.next + 1)
  }

  /** The steps of one session: a client connects, types, and one of the triggers ends it. */
  function Opened(l: Limits, s: State, n: string): State {
    s.(sessions := s.sessions[n := Session(s.now, OpenedView(l, s.now), InFlight, NotSent, true, false)],
       live := s.live + {n}, names := s.names + {n})
  }

  function Typed(l: Limits, s: State, n: string): State
    requires CanType(s, n)
  {
    s.(sessions := s.sessions[n := s.sessions[n].(view := RearmedView(l, s.sessions[n].view, s.now))])
  }

  function Ended(s: State, n: string, cause: Cause): State
    requires CanEnd(s, n, cause)
  {
    s.(sessions := s.sessions[n := Triggered(s.sessions[n], cause)], live := s.live - {n})
  }

  function Step(l: Limits, s: State, e: Event): State
    requires Enabled(l, s, e)
  {
    match e
    case Open(n) => Opened(l, s, n)
    case CreateLands(n) =>
      s.(pods := s.pods[n := s.now], sessions := s.sessions[n := s.sessions[n].(create := Landed(s.now))])
    case CreateLost(n) =>
      s.(sessions := s.sessions[n := s.sessions[n].(create := Lost)])
    case Attach(n) =>
      s.(sessions := s.sessions[n := s.sessions[n].(provisioning := false, attached := true)])
    case Message(n) => Typed(l, s, n)
    case Trigger(n, cause) => Ended(s, n, cause)
    case DeleteLands(n, ok) =>
      var fate := if !ok then Failed else if n in s.pods then Removed else Missed;
      s.(pods := if ok then s.pods - {n} else s.pods, sessions := s.sessions[n := s.sessions[n].(cleanup := fate)])
    case SweepStart(id, listed) =>
      s.(sweeps := s.sweeps[id := Sweep(listed, s.now, None, 0, None, {})])
    case SweepResume(id) =>
      s.(sweeps := s.sweeps[id := s.sweeps[id].(asOf := Some(s.now))])
    case Examine(id) =>
      s.(sweeps := s.sweeps[id := Examined(l, s.sweeps[id], s.live)])
    case SweepDelete(id, ok) =>
      var w := s.sweeps[id];
      var n := w.deleting.value;
      s.(pods := if ok then s.pods - {n} else s.pods,
         reaped := if ok && n in s.pods then s.reaped + {n} else s.reaped,
         sweeps := s.sweeps[id := w.(next := w.next + 1, deleting := None,
                                     missed := if ok then w.missed else w.missed + {n})])
    case SweepEnd(id) =>
      s.(sweeps := s.sweeps - {id})
    case Tick(ms) =>
      s.(now := s.now + ms)
  }

  /** A broker that has just started, among pods left by earlier processes. */
  predicate Initial(s: State) {
    && s.sessions == map[] && s.live == {} && s.sweeps == map[] && s.reaped == {}
    && s.pods.Keys <= s.names
    && forall n :: n in s.pods ==> s.pods[n] <= s.now
  }

  /** Every state of every run: the events in order, each enabled where it happens. */
  predicate Possible(l: Limits, s: State, run: seq<Event>)
    decreases |run|
  {
    run != [] ==> Enabled(l, s, run[0]) && Possible(l, Step(l, s, run[0]), run[1..])
  }

  function After(l: Limits, s: State, run: seq<Event>): State
    requires Possible(l, s, run)
    decreases |run|
  {
    if run == [] then s else After(l, Step(l, s, run[0]), run[1..])
  }
}
