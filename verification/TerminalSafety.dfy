/** Safety of every run of the terminal broker. */
module TerminalSafety {
  import opened Prelude
  import opened TerminalSessions

  /** A session is live until its one cleanup, and its max timer bounds its age. */
  ghost predicate ViewOk(l: Limits, s: State, n: string, x: Session) {
    && (n in s.live <==> !x.view.closed)
    && x.view.deletes == (if x.view.closed then 1 else 0)
    && (x.cleanup.NotSent? <==> !x.view.closed)
    && (!x.view.closed ==> x.view.maxTimer == Some(x.since + l.maxMs))
    && InTime(l, x.view.maxTimer, s.now) && x.since <= s.now
  }

  /** The session's pod exists from the landing of its create to the first delete after it. */
  ghost predicate PodOk(s: State, n: string, x: Session) {
    && n in s.names
    && (n in s.pods <==> x.create.Landed? && !x.cleanup.Removed? && n !in s.reaped)
    && (x.create.Landed? ==> x.since <= x.create.at <= s.now && (n in s.pods ==> s.pods[n] == x.create.at))
    && (x.cleanup.Removed? || n in s.reaped ==> x.create.Landed?)
    && x.since <= s.now
  }

  ghost predicate SessionsOk(l: Limits, s: State) {
    && |s.live| <= l.maxSessions && s.live <= s.sessions.Keys
    && s.pods.Keys <= s.names && s.reaped <= s.names
    && (forall n :: n in s.pods ==> s.pods[n] <= s.now)
    && (forall n :: n in s.sessions ==> ViewOk(l, s, n, s.sessions[n]) && PodOk(s, n, s.sessions[n]))
  }

  /** A listed pod keeps its stamp as long as it exists, and its create has landed. */
  ghost predicate ListedOk(s: State, p: Listed) {
    && p.name in s.names
    && (p.name in s.pods ==> p.stamp == Stamp(s.pods[p.name]))
    && (p.name in s.sessions ==> s.sessions[p.name].create.Landed?)
  }

  /** Pod `n` needs no further attention from the sweep, or will still get it. */
  ghost predicate Handled(l: Limits, s: State, w: Sweep, n: string)
    requires n in s.pods
  {
    || s.pods[n] >= w.listedAt
    || (exists i :: w.next <= i < |w.listed| && w.listed[i].name == n)
    || n in w.missed
    || (w.asOf.Some? && w.asOf.value - s.pods[n] <= l.maxMs + l.lag)
  }

  ghost predicate SweepOk(l: Limits, s: State, w: Sweep) {
    && w.listedAt <= s.now && (w.asOf.Some? ==> w.listedAt <= w.asOf.value <= s.now)
    && (forall i :: 0 <= i < |w.listed| ==> ListedOk(s, w.listed[i]))
    && (forall n :: n in s.pods ==> Handled(l, s, w, n))
    && (w.deleting.Some? ==>
          && w.asOf.Some? && w.next < |w.listed| && w.listed[w.next].name == w.deleting.value
          && w.deleting.value !in s.live
          && w.asOf.value - w.listed[w.next].stamp > l.maxMs)
  }

  ghost predicate Inv(l: Limits, s: State) {
    SessionsOk(l, s) && forall id :: id in s.sweeps ==> SweepOk(l, s, s.sweeps[id])
  }

  lemma ViewStays(l: Limits, s: State, e: Event, n: string)
    requires Enabled(l, s, e) && n in Step(l, s, e).sessions
    requires if n in s.sessions then ViewOk(l, s, n, s.sessions[n]) else n !in s.live
    ensures ViewOk(l, Step(l, s, e), n, Step(l, s, e).sessions[n])
  {
    match e
    case Trigger(m, cause) =>
      if m == n {
        var x := s.sessions[n];
        assert Step(l, s, e).sessions[n] == Triggered(x, cause);
      }
    case Tick(ms) =>
      assert InTime(l, s.sessions[n].view.maxTimer, s.now + ms);
    case _ =>
  }

  lemma PodStays(l: Limits, s: State, e: Event, n: string)
    requires Inv(l, s) && Enabled(l, s, e) && n in Step(l, s, e).sessions
    ensures PodOk(Step(l, s, e), n, Step(l, s, e).sessions[n])
  {
    if n in s.sessions {
      assert PodOk(s, n, s.sessions[n]);
    }
  }

  lemma CapacityStays(l: Limits, s: State, e: Event)
    requires SessionsOk(l, s) && Enabled(l, s, e)
    ensures |Step(l, s, e).live| <= l.maxSessions
  {
    if e.Trigger? {
      assert s.live == (s.live - {e.name}) + (s.live * {e.name});
    }
  }

  lemma SessionsStay(l: Limits, s: State, e: Event)
    requires Inv(l, s) && Enabled(l, s, e)
    ensures SessionsOk(l, Step(l, s, e))
  {
    CapacityStays(l, s, e);
    forall n | n in Step(l, s, e).sessions
      ensures ViewOk(l, Step(l, s, e), n, Step(l, s, e).sessions[n])
      ensures PodOk(Step(l, s, e), n, Step(l, s, e).sessions[n])
    {
      ViewStays(l, s, e, n);
      PodStays(l, s, e, n);
    }
  }

  lemma ListedStays(l: Limits, s: State, e: Event, p: Listed)
    requires SessionsOk(l, s) && Enabled(l, s, e) && ListedOk(s, p)
    ensures ListedOk(Step(l, s, e), p)
  {
  }

  /** Unless the sweep itself moves, a step keeps what it relies on. */
  lemma SweepStays(l: Limits, s: State, e: Event, id: nat)
    requires Inv(l, s) && Enabled(l, s, e) && id in s.sweeps
    requires !(e.Examine? && e.id == id) && !(e.SweepResume? && e.id == id) && !(e.SweepDelete? && e.id == id)
    ensures SweepOk(l, Step(l, s, e), s.sweeps[id])
  {
    var w := s.sweeps[id];
    forall i | 0 <= i < |w.listed| ensures ListedOk(Step(l, s, e), w.listed[i]) {
      ListedStays(l, s, e, w.listed[i]);
    }
    forall n | n in Step(l, s, e).pods ensures Handled(l, Step(l, s, e), w, n) {
      assert n in s.pods ==> Handled(l, s, w, n);
    }
  }

  lemma SweepStarts(l: Limits, s: State, id: nat, listed: seq<Listed>)
    requires SessionsOk(l, s) && Enabled(l, s, SweepStart(id, listed))
    ensures SweepOk(l, Step(l, s, SweepStart(id, listed)), Sweep(listed, s.now, None, 0, None, {}))
  {
    forall n | n in s.pods ensures exists i :: 0 <= i < |listed| && listed[i].name == n {
      var i :| 0 <= i < |listed| && listed[i] == Listed(n, Stamp(s.pods[n]));
      assert listed[i].name == n;
    }
    forall i | 0 <= i < |listed| ensures ListedOk(s, listed[i]) {
      assert listed[i].name in s.sessions ==> PodOk(s, listed[i].name, s.sessions[listed[i].name]);
    }
  }

  /** A pod the janitor passes over is young: its stamp says so, or its session is live. */
  lemma PassedOverIsYoung(l: Limits, s: State, w: Sweep)
    requires SessionsOk(l, s) && SweepOk(l, s, w) && w.asOf.Some? && w.next < |w.listed|
    requires w.listed[w.next].name in s.live || w.asOf.value - w.listed[w.next].stamp <= l.maxMs
    requires w.listed[w.next].name in s.pods
    ensures w.asOf.value - s.pods[w.listed[w.next].name] <= l.maxMs + l.lag
  {
    var n := w.listed[w.next].name;
    assert ListedOk(s, w.listed[w.next]);
    if n in s.live {
      assert ViewOk(l, s, n, s.sessions[n]) && PodOk(s, n, s.sessions[n]);
    }
  }

  lemma ExamineMoves(l: Limits, s: State, id: nat)
    requires Inv(l, s) && Enabled(l, s, Examine(id))
    ensures SweepOk(l, Step(l, s, Examine(id)), Examined(l, s.sweeps[id], s.live))
  {
    var w := s.sweeps[id];
    var next := Examined(l, w, s.live);
    assert SweepOk(l, s, w);
    assert forall i :: 0 <= i < |w.listed| ==> ListedOk(s, w.listed[i]);
    forall n | n in s.pods ensures Handled(l, s, next, n) {
      assert Handled(l, s, w, n);
      if next.next == w.next + 1 && n == w.listed[w.next].name {
        PassedOverIsYoung(l, s, w);
      }
    }
  }

  lemma SweepMoves(l: Limits, s: State, e: Event)
    requires Inv(l, s) && Enabled(l, s, e) && (e.Examine? || e.SweepResume? || e.SweepDelete?)
    ensures SweepOk(l, Step(l, s, e), Step(l, s, e).sweeps[e.id])
  {
    var w := s.sweeps[e.id];
    if e.Examine? {
      ExamineMoves(l, s, e.id);
    } else {
      var t := Step(l, s, e);
      assert forall i :: 0 <= i < |w.listed| ==> ListedOk(s, w.listed[i]);
      forall n | n in t.pods ensures Handled(l, t, t.sweeps[e.id], n) {
        assert Handled(l, s, w, n);
      }
    }
  }

  lemma StepKeepsInv(l: Limits, s: State, e: Event)
    requires Inv(l, s) && Enabled(l, s, e)
    ensures Inv(l, Step(l, s, e))
  {
    SessionsStay(l, s, e);
    forall id | id in Step(l, s, e).sweeps ensures SweepOk(l, Step(l, s, e), Step(l, s, e).sweeps[id]) {
      if id !in s.sweeps {
        SweepStarts(l, s, id, e.listed);
      } else if (e.Examine? || e.SweepResume? || e.SweepDelete?) && e.id == id {
        SweepMoves(l, s, e);
      } else {
        SweepStays(l, s, e, id);
      }
    }
  }

  lemma {:induction false} RunKeepsInv(l: Limits, s: State, run: seq<Event>)
    requires Inv(l, s) && Possible(l, s, run)
    ensures Inv(l, After(l, s, run))
    decreases |run|
  {
    if run != [] {
      StepKeepsInv(l, s, run[0]);
      RunKeepsInv(l, Step(l, s, run[0]), run[1..]);
    }
  }

  // ------------------------------------------------------------- the theorems

  /** In every reachable state the capacity holds, every live session is within its
      maximum age, and a session has issued its cleanup delete once it is closed, once. */
  lemma SessionsAreBounded(l: Limits, s: State, run: seq<Event>)
    requires Initial(s) && Possible(l, s, run)
    ensures var t := After(l, s, run);
            && |t.live| <= l.maxSessions && t.live <= t.sessions.Keys
            && (forall n :: n in t.live ==> t.now - t.sessions[n].since <= l.maxMs + l.lag)
            && (forall n :: n in t.sessions ==>
                  && (n in t.live <==> !t.sessions[n].view.closed)
                  && t.sessions[n].view.deletes == if n in t.live then 0 else 1)
  {
    RunKeepsInv(l, s, run);
    var t := After(l, s, run);
    forall n | n in t.sessions ensures ViewOk(l, t, n, t.sessions[n]) {}
  }

  /** Whenever the janitor's delete can land, its target is not live, and if the pod still
      exists it is older than the maximum session, up to the stamp's one-second grain. */
  lemma JanitorSparesLiveSessions(l: Limits, s: State, run: seq<Event>, id: nat)
    requires Initial(s) && Possible(l, s, run) && id in After(l, s, run).sweeps
    ensures var t := After(l, s, run);
            var target := t.sweeps[id].deleting;
            target.Some? ==>
              && target.value !in t.live && t.sweeps[id].asOf.Some?
              && (target.value in t.pods ==>
                    && t.sweeps[id].asOf.value - Stamp(t.pods[target.value]) > l.maxMs
                    && t.now - t.pods[target.value] > l.maxMs - 1000)
  {
    RunKeepsInv(l, s, run);
    var t := After(l, s, run);
    var w := t.sweeps[id];
    assert SweepOk(l, t, w);
    if w.deleting.Some? {
      assert ListedOk(t, w.listed[w.next]);
    }
  }

  /** When a sweep ends, every pod that still exists appeared after its listing, or is no
      older than a session may be, or is one whose delete failed. */
  lemma SweepLeavesNoOldPod(l: Limits, s: State, run: seq<Event>, id: nat)
    requires Initial(s) && Possible(l, s, run)
    requires id in After(l, s, run).sweeps && Finished(After(l, s, run).sweeps[id])
    ensures var t := After(l, s, run);
            var w := t.sweeps[id];
            forall n :: n in t.pods ==>
              || t.pods[n] >= w.listedAt
              || w.asOf.value - t.pods[n] <= l.maxMs + l.lag
              || n in w.missed
  {
    RunKeepsInv(l, s, run);
    var t := After(l, s, run);
    forall n | n in t.pods ensures Handled(l, t, t.sweeps[id], n) {
      assert SweepOk(l, t, t.sweeps[id]);
    }
  }

  /** A closed session whose own delete has been answered leaves a pod behind exactly when
      its create landed and that delete failed or found nothing; only the janitor then
      removes it. */
  lemma ClosedSessionLeavesPodIff(l: Limits, s: State, run: seq<Event>, n: string)
    requires Initial(s) && Possible(l, s, run) && n in After(l, s, run).sessions
    ensures var t := After(l, s, run);
            var x := t.sessions[n];
            x.cleanup !in {NotSent, Sent} ==>
              && n !in t.live
              && (n in t.pods <==> x.create.Landed? && x.cleanup in {Missed, Failed} && n !in t.reaped)
  {
    RunKeepsInv(l, s, run);
    var t := After(l, s, run);
    assert ViewOk(l, t, n, t.sessions[n]) && PodOk(t, n, t.sessions[n]);
  }

  ghost predicate HasLanded(s: State, n: string) {
    n in s.sessions && s.sessions[n].create.Landed?
  }

  ghost predicate WasRemoved(s: State, n: string) {
    n in s.sessions && s.sessions[n].cleanup.Removed?
  }

  /** A successful delete of the session itself lands after its create. */
  ghost predicate DeletedAfterCreate(run: seq<Event>, n: string) {
    exists i, j :: 0 <= i < j < |run| && run[i] == CreateLands(n) && run[j] == DeleteLands(n, true)
  }

  lemma FirstThenRest(run: seq<Event>, n: string)
    requires run != []
    ensures DeletedAfterCreate(run, n)
       <==> DeletedAfterCreate(run[1..], n) || (run[0] == CreateLands(n) && DeleteLands(n, true) in run[1..])
  {
    var rest := run[1..];
    assert forall k :: 0 <= k < |rest| ==> rest[k] == run[k + 1];
    if i, j :| 0 <= i < j < |run| && run[i] == CreateLands(n) && run[j] == DeleteLands(n, true) {
      assert rest[j - 1] == DeleteLands(n, true);
      assert i > 0 ==> rest[i - 1] == CreateLands(n);
    }
    if i, j :| 0 <= i < j < |rest| && rest[i] == CreateLands(n) && rest[j] == DeleteLands(n, true) {
      assert run[i + 1] == CreateLands(n) && run[j + 1] == DeleteLands(n, true);
    }
    if run[0] == CreateLands(n) && DeleteLands(n, true) in rest {
      var j :| 0 <= j < |rest| && rest[j] == DeleteLands(n, true);
      assert run[j + 1] == DeleteLands(n, true);
    }
  }

  lemma StepTellsFate(l: Limits, s: State, e: Event, n: string)
    requires Inv(l, s) && Enabled(l, s, e)
    ensures var t := Step(l, s, e);
            && s.reaped <= t.reaped
            && (HasLanded(t, n) <==> HasLanded(s, n) || e == CreateLands(n))
            && (n !in t.reaped ==>
                  (WasRemoved(t, n) <==> WasRemoved(s, n) || (e == DeleteLands(n, true) && HasLanded(s, n))))
  {
    if n in s.sessions {
      assert PodOk(s, n, s.sessions[n]) && ViewOk(l, s, n, s.sessions[n]);
    }
  }

  lemma {:induction false} RunTellsFate(l: Limits, s: State, run: seq<Event>, n: string)
    requires Inv(l, s) && Possible(l, s, run)
    ensures var t := After(l, s, run);
            && s.reaped <= t.reaped
            && (HasLanded(t, n) <==> HasLanded(s, n) || CreateLands(n) in run)
            && (n !in t.reaped ==>
                  (WasRemoved(t, n) <==>
                     || WasRemoved(s, n) || (HasLanded(s, n) && DeleteLands(n, true) in run)
                     || DeletedAfterCreate(run, n)))
    decreases |run|
  {
    if run != [] {
      var next := Step(l, s, run[0]);
      StepKeepsInv(l, s, run[0]);
      StepTellsFate(l, s, run[0], n);
      RunTellsFate(l, next, run[1..], n);
      FirstThenRest(run, n);
      assert forall e :: e in run <==> e == run[0] || e in run[1..];
    }
  }

  /** The event deletes pod `n`: the session's own delete succeeds, or the janitor's. */
  ghost predicate DeletesPod(l: Limits, s: State, e: Event, n: string)
    requires Enabled(l, s, e)
  {
    || e == DeleteLands(n, true)
    || (e.SweepDelete? && e.ok && s.sweeps[e.id].deleting == Some(n))
  }

  ghost predicate EverDeleted(l: Limits, s: State, run: seq<Event>, n: string)
    requires Possible(l, s, run)
    decreases |run|
  {
    run != [] && (DeletesPod(l, s, run[0], n) || EverDeleted(l, Step(l, s, run[0]), run[1..], n))
  }

  /** Somewhere in the run the create lands, and nothing after it deletes the pod. */
  ghost predicate CreatedForGood(l: Limits, s: State, run: seq<Event>, n: string)
    requires Possible(l, s, run)
    decreases |run|
  {
    && run != []
    && (|| (run[0] == CreateLands(n) && !EverDeleted(l, Step(l, s, run[0]), run[1..], n))
        || CreatedForGood(l, Step(l, s, run[0]), run[1..], n))
  }

  lemma {:induction false} RunTellsPods(l: Limits, s: State, run: seq<Event>, n: string)
    requires Possible(l, s, run)
    ensures n in After(l, s, run).pods
       <==> (n in s.pods && !EverDeleted(l, s, run, n)) || CreatedForGood(l, s, run, n)
    decreases |run|
  {
    if run != [] {
      RunTellsPods(l, Step(l, s, run[0]), run[1..], n);
    }
  }

  /** A name in use is never given to a session. */
  lemma {:induction false} UsedNameIsNotOpened(l: Limits, s: State, run: seq<Event>, n: string)
    requires Possible(l, s, run) && n in s.names && n !in s.sessions
    ensures n !in After(l, s, run).sessions
    decreases |run|
  {
    if run != [] {
      UsedNameIsNotOpened(l, Step(l, s, run[0]), run[1..], n);
    }
  }

  /** Which pods of its sessions the broker leaves, told by the order of events: exactly those
      whose create lands with no delete after it, the session's own or the janitor's; and of
      the session's own deletes only a successful one after the create counts, so the pod also
      stays when that delete lands first or fails, until the janitor reaps it. */
  lemma PodRemainsIff(l: Limits, s: State, run: seq<Event>, n: string)
    requires Initial(s) && Possible(l, s, run) && n in After(l, s, run).sessions
    ensures n in After(l, s, run).pods <==> CreatedForGood(l, s, run, n)
    ensures var t := After(l, s, run);
            (n in t.pods <==> CreateLands(n) in run && !DeletedAfterCreate(run, n) && n !in t.reaped)
  {
    RunKeepsInv(l, s, run);
    RunTellsFate(l, s, run, n);
    RunTellsPods(l, s, run, n);
    if n in s.pods {
      UsedNameIsNotOpened(l, s, run, n);
    }
    var t := After(l, s, run);
    assert PodOk(t, n, t.sessions[n]);
  }

  /** The disconnect documentation promises "destroys the pod on disconnect"; here a client
      leaves before its create lands, and the pod outlives the answered delete. */
  lemma EarlyDisconnectLeavesPod(l: Limits)
    requires l.maxSessions > 0
    ensures var s := State(0, map[], map[], {}, map[], {}, {});
            var run := [Open("a"), Trigger("a", SocketClose), DeleteLands("a", true), CreateLands("a")];
            && Initial(s) && Possible(l, s, run)
            && "a" in After(l, s, run).pods && "a" !in After(l, s, run).live
            && After(l, s, run).sessions["a"].cleanup == Missed
  {
    var s := State(0, map[], map[], {}, map[], {}, {});
    var s1 := Step(l, s, Open("a"));
    var s2 := Step(l, s1, Trigger("a", SocketClose));
    var s3 := Step(l, s2, DeleteLands("a", true));
    var s4 := Step(l, s3, CreateLands("a"));
    assert Possible(l, s4, []) && After(l, s4, []) == s4;
    assert Possible(l, s3, [CreateLands("a")]) && After(l, s3, [CreateLands("a")]) == s4;
    var rest := [DeleteLands("a", true), CreateLands("a")];
    assert rest[1..] == [CreateLands("a")];
    assert Possible(l, s2, rest) && After(l, s2, rest) == s4;
    var more := [Trigger("a", SocketClose), DeleteLands("a", true), CreateLands("a")];
    assert more[1..] == rest;
    assert Possible(l, s1, more) && After(l, s1, more) == s4;
    var run := [Open("a"), Trigger("a", SocketClose), DeleteLands("a", true), CreateLands("a")];
    assert run[1..] == more;
  }

  /** What other parts of the broker can observe of a session. */
  ghost predicate SameBarTimers(s: State, t: State) {
    && t.live == s.live && t.pods == s.pods && t.sweeps == s.sweeps && t.reaped == s.reaped && t.now == s.now
    && t.sessions.Keys == s.sessions.Keys
    && forall n :: n in s.sessions ==>
         && t.sessions[n].view.closed == s.sessions[n].view.closed
         && t.sessions[n].view.deletes == s.sessions[n].view.deletes
         && t.sessions[n].cleanup == s.sessions[n].cleanup
         && t.sessions[n].create == s.sessions[n].create
  }

  /** A closed session never returns, and every later trigger or message for it changes
      at most its own timers. */
  lemma {:induction false} ClosedIsForever(l: Limits, s: State, run: seq<Event>, n: string)
    requires Inv(l, s) && Possible(l, s, run) && n in s.sessions && s.sessions[n].view.closed
    ensures n in After(l, s, run).sessions && After(l, s, run).sessions[n].view.closed
    ensures n !in After(l, s, run).live && After(l, s, run).sessions[n].view.deletes == 1
    decreases |run|
  {
    assert ViewOk(l, s, n, s.sessions[n]) && PodOk(s, n, s.sessions[n]);
    if run != [] {
      StepKeepsInv(l, s, run[0]);
      ClosedIsForever(l, Step(l, s, run[0]), run[1..], n);
    }
  }

  lemma LateTriggerIsInert(l: Limits, s: State, n: string, cause: Cause)
    requires Inv(l, s) && CanEnd(s, n, cause) && s.sessions[n].view.closed
    ensures SameBarTimers(s, Ended(s, n, cause))
  {
    assert ViewOk(l, s, n, s.sessions[n]);
  }

  lemma LateMessageIsInert(l: Limits, s: State, n: string)
    requires CanType(s, n)
    ensures SameBarTimers(s, Typed(l, s, n))
  {
  }

  lemma LateEventsAreInert(l: Limits, s: State, e: Event)
    requires Inv(l, s) && Enabled(l, s, e) && (e.Trigger? || e.Message?) && s.sessions[e.name].view.closed
    ensures SameBarTimers(s, Step(l, s, e))
  {
    match e
    case Trigger(n, cause) => LateTriggerIsInert(l, s, n, cause);
    case Message(n) => LateMessageIsInert(l, s, n);
  }

  /** Time is never stuck: when a pending timer forbids the clock to advance, that timer is
      due and can fire. */
  lemma OverdueTimerCanFire(l: Limits, s: State)
    requires !Enabled(l, s, Tick(1)) && TimersInTime(l, s, s.now)
    ensures exists n, cause :: n in s.sessions && cause in {IdleTimer, MaxTimer} && Enabled(l, s, Trigger(n, cause))
  {
    var n :| n in s.sessions && !(InTime(l, s.sessions[n].view.idleTimer, s.now + 1)
                                  && InTime(l, s.sessions[n].view.maxTimer, s.now + 1));
    if !InTime(l, s.sessions[n].view.idleTimer, s.now + 1) {
      assert Enabled(l, s, Trigger(n, IdleTimer));
    } else {
      assert Enabled(l, s, Trigger(n, MaxTimer));
    }
  }
}
