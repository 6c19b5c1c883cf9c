/** The timers of a session, told by the events of the run alone: when it was opened and when
    its user last did something. */
module TerminalTimers {
  import opened Prelude
  import opened TerminalSessions
  import opened TerminalSafety

  /** The time of the last opening or message of session `n` in the run that starts at `now`;
      before it, `last`. */
  function LastActivity(now: nat, run: seq<Event>, n: string, last: Option<nat>): Option<nat>
    decreases |run|
  {
    if run == [] then last
    else
      match run[0]
      case Open(m) => LastActivity(now, run[1..], n, if m == n then Some(now) else last)
      case Message(m) => LastActivity(now, run[1..], n, if m == n then Some(now) else last)
      case Tick(ms) => LastActivity(now + ms, run[1..], n, last)
      case _ => LastActivity(now, run[1..], n, last)
  }

  /** The time at which session `n` is opened in the run, `born` if that was before it. */
  function OpenedAt(now: nat, run: seq<Event>, n: string, born: Option<nat>): Option<nat>
    decreases |run|
  {
    if run == [] then born
    else
      match run[0]
      case Open(m) => OpenedAt(now, run[1..], n, if m == n then Some(now) else born)
      case Tick(ms) => OpenedAt(now + ms, run[1..], n, born)
      case _ => OpenedAt(now, run[1..], n, born)
  }

  /** The timers of session `n`, of which the last activity and the opening are given: a live
      session has both pending, at the idle limit after its last activity and at the maximum
      after its opening; a closed one has no more than an idle timer that a late message armed. */
  ghost predicate Timed(l: Limits, s: State, n: string, last: Option<nat>, born: Option<nat>) {
    && (n !in s.sessions ==> n !in s.live)
    && (n in s.sessions ==>
          var v := s.sessions[n].view;
          && last.Some? && born.Some? && n in s.names
          && (n in s.live ==> v.idleTimer == Some(last.value + l.idleMs) && v.maxTimer == Some(born.value + l.maxMs))
          && (n !in s.live ==> v.maxTimer == None && (v.idleTimer.Some? ==> v.idleTimer.value == last.value + l.idleMs))
          && (n in s.live <==> !v.closed)
          && InTime(l, v.idleTimer, s.now) && InTime(l, v.maxTimer, s.now))
  }

  /** Whether the event concerns the timers of session `n`. */
  predicate Concerns(e: Event, n: string) {
    (e.Open? || e.Message? || e.Trigger?) && e.name == n
  }

  lemma OtherStepsLeaveTimers(l: Limits, s: State, e: Event, n: string)
    requires Enabled(l, s, e) && !Concerns(e, n)
    ensures var t := Step(l, s, e);
      && (n in t.sessions <==> n in s.sessions) && (n in t.live <==> n in s.live) && s.names <= t.names
      && (n in s.sessions ==> t.sessions[n].view == s.sessions[n].view)
  {
  }

  lemma OtherStepsLeaveTimes(now: nat, e: Event, n: string, last: Option<nat>)
    requires !Concerns(e, n)
    ensures LastActivity(now, [e], n, last) == last && OpenedAt(now, [e], n, last) == last
  {
    assert [e][1..] == [];
  }

  lemma StepKeepsTimed(l: Limits, s: State, e: Event, n: string, last: Option<nat>, born: Option<nat>)
    requires Enabled(l, s, e) && Timed(l, s, n, last, born)
    ensures Timed(l, Step(l, s, e), n, LastActivity(s.now, [e], n, last), OpenedAt(s.now, [e], n, born))
  {
    if Concerns(e, n) {
      assert [e][1..] == [];
      OwnStepKeepsTimed(l, s, e, n, last, born);
    } else {
      OtherStepsLeaveTimers(l, s, e, n);
      OtherStepsLeaveTimes(s.now, e, n, last);
      OtherStepsLeaveTimes(s.now, e, n, born);
      if e.Tick? && n in s.sessions {
        assert InTime(l, s.sessions[n].view.maxTimer, s.now + e.ms);
      }
    }
  }

  lemma OwnStepKeepsTimed(l: Limits, s: State, e: Event, n: string, last: Option<nat>, born: Option<nat>)
    requires Enabled(l, s, e) && Timed(l, s, n, last, born) && Concerns(e, n)
    ensures Timed(l, Step(l, s, e), n, if e.Trigger? then last else Some(s.now), if e.Open? then Some(s.now) else born)
  {
  }

  lemma FirstActivity(now: nat, run: seq<Event>, n: string, last: Option<nat>, next: nat)
    requires run != [] && next == if run[0].Tick? then now + run[0].ms else now
    ensures LastActivity(now, run, n, last) == LastActivity(next, run[1..], n, LastActivity(now, [run[0]], n, last))
    ensures OpenedAt(now, run, n, last) == OpenedAt(next, run[1..], n, OpenedAt(now, [run[0]], n, last))
  {
    assert [run[0]][1..] == [];
  }

  lemma {:induction false} RunKeepsTimed(l: Limits, s: State, run: seq<Event>, n: string, last: Option<nat>,
                                         born: Option<nat>)
    requires Possible(l, s, run) && Timed(l, s, n, last, born)
    ensures Timed(l, After(l, s, run), n, LastActivity(s.now, run, n, last), OpenedAt(s.now, run, n, born))
    decreases |run|
  {
    if run != [] {
      var next := Step(l, s, run[0]);
      StepKeepsTimed(l, s, run[0], n, last, born);
      FirstActivity(s.now, run, n, last, next.now);
      FirstActivity(s.now, run, n, born, next.now);
      RunKeepsTimed(l, next, run[1..], n, LastActivity(s.now, [run[0]], n, last), OpenedAt(s.now, [run[0]], n, born));
    }
  }

  /** In every reachable state: a live session's idle deadline is its last activity plus the
      idle limit and its other deadline its opening plus the maximum; so it was active within
      the idle limit and opened within the maximum, up to the lag of a timer. A closed session
      has no deadline but one that a late message set. */
  lemma TimersAreExact(l: Limits, s: State, run: seq<Event>, n: string)
    requires Initial(s) && Possible(l, s, run) && n in After(l, s, run).sessions
    ensures var t := After(l, s, run);
      var v, last, born := t.sessions[n].view, LastActivity(s.now, run, n, None), OpenedAt(s.now, run, n, None);
      && last.Some? && born.Some?
      && (n in t.live ==>
            && v.idleTimer == Some(last.value + l.idleMs) && v.maxTimer == Some(born.value + l.maxMs)
            && t.now <= last.value + l.idleMs + l.lag && t.now <= born.value + l.maxMs + l.lag)
      && (n !in t.live ==>
            v.maxTimer == None && (v.idleTimer.Some? ==> v.idleTimer.value == last.value + l.idleMs))
  {
    RunKeepsTimed(l, s, run, n, None, None);
  }

  /** What ends a live session: an idle timer only after the idle limit without activity, the
      other one only after the maximum; and whatever ends it leaves no timer behind. */
  lemma EndsAreDue(l: Limits, s: State, run: seq<Event>, n: string, cause: Cause)
    requires Initial(s) && Possible(l, s, run) && CanEnd(After(l, s, run), n, cause) && n in After(l, s, run).live
    ensures var t, last := After(l, s, run), LastActivity(s.now, run, n, None);
      cause == IdleTimer ==> last.Some? && t.now >= last.value + l.idleMs
    ensures var t, born := After(l, s, run), OpenedAt(s.now, run, n, None);
      cause == MaxTimer ==> born.Some? && t.now >= born.value + l.maxMs
    ensures var ended := Ended(After(l, s, run), n, cause);
      && n !in ended.live && ended.sessions[n].view.closed
      && ended.sessions[n].view.idleTimer == None == ended.sessions[n].view.maxTimer
  {
    RunKeepsTimed(l, s, run, n, None, None);
  }
}
