/**
  The queue that coalesces sync requests (internal/syncrun/syncrun.go) and the loop
  that consumes it (waitForNextRun, internal/app/app.go), over all interleavings.
 */
module Queue {
  import opened Wrappers
  import opened Bytes

  datatype Request = Request(refreshLocal: bool, reason: string)

  /** The reasons a merged reason lists. */
  function Reasons(reason: string): set<string> {
    if reason == "" then {} else set p | p in Split(reason, '+')
  }

  function Merge(r: Request, o: Request): Request {
    Request(r.refreshLocal || o.refreshLocal,
            if r.reason == "" then o.reason
            else if o.reason != "" && o.reason !in Split(r.reason, '+') then r.reason + "+" + o.reason
            else r.reason)
  }

  /** A merged request asks for exactly what either one asked for. */
  lemma MergeIsUnion(r: Request, o: Request)
    ensures Merge(r, o).refreshLocal == (r.refreshLocal || o.refreshLocal)
    ensures Reasons(Merge(r, o).reason) == Reasons(r.reason) + Reasons(o.reason)
  {
    if r.reason != "" && o.reason != "" {
      SplitAround(r.reason, '+', o.reason);
      assert r.reason + "+" + o.reason == r.reason + ['+'] + o.reason;
      if o.reason in Split(r.reason, '+') {
        SplitParts(r.reason, '+');
        SplitParts(o.reason, '+');
      }
    }
  }

  /** The pending request after pushes ps, oldest first. */
  function MergeAll(ps: seq<Request>): Option<Request> {
    if ps == [] then None else Some(Enqueued(MergeAll(ps[..|ps| - 1]), ps[|ps| - 1]))
  }

  function Enqueued(pending: Option<Request>, r: Request): Request {
    if pending.Some? then Merge(pending.value, r) else r
  }

  ghost predicate AsksRefresh(ps: seq<Request>) {
    exists i :: 0 <= i < |ps| && ps[i].refreshLocal
  }

  ghost predicate Gives(ps: seq<Request>, reason: string) {
    exists i :: 0 <= i < |ps| && reason in Reasons(ps[i].reason)
  }

  lemma LastAsks(ps: seq<Request>, reason: string)
    requires ps != []
    ensures var front, last := ps[..|ps| - 1], ps[|ps| - 1];
            && (AsksRefresh(ps) <==> AsksRefresh(front) || last.refreshLocal)
            && (Gives(ps, reason) <==> Gives(front, reason) || reason in Reasons(last.reason))
  {
    var front := ps[..|ps| - 1];
    assert forall i | 0 <= i < |front| :: front[i] == ps[i];
  }

  /** It refreshes iff some push asked to, and lists exactly the reasons pushed. */
  lemma {:induction false} MergeAllIsUnion(ps: seq<Request>, reason: string)
    requires ps != []
    ensures MergeAll(ps).value.refreshLocal <==> AsksRefresh(ps)
    ensures reason in Reasons(MergeAll(ps).value.reason) <==> Gives(ps, reason)
  {
    var front := ps[..|ps| - 1];
    LastAsks(ps, reason);
    if front != [] {
      MergeAllIsUnion(front, reason);
      MergeIsUnion(MergeAll(front).value, ps[|ps| - 1]);
    }
  }

  // ------------------------------------------------------------- the queue

  class SyncQueue {
    var pending: Option<Request>
    // The wake channel holds its one token.
    var wake: bool

    constructor ()
      ensures pending == None && !wake
    {
      pending, wake := None, false;
    }

    /** The locked half of Push: merge r into what is pending. */
    method Enqueue(r: Request)
      modifies this`pending
      ensures pending == Some(Enqueued(old(pending), r))
    {
      var next := r;
      if pending.Some? {
        next := Merge(pending.value, r);
      }
      pending := Some(next);
    }

    /** The other half: put a token in the channel unless it holds one. */
    method Signal()
      modifies this`wake
      ensures wake
    {
      if !wake {
        wake := true;
      }
    }

    /** A push, both halves, with nobody in between. */
    method Push(r: Request)
      modifies this
      ensures pending == Some(Enqueued(old(pending), r)) && wake
    {
      Enqueue(r);
      Signal();
    }

    method Take() returns (r: Option<Request>)
      modifies this`pending
      ensures r == old(pending) && pending == None
    {
      r := pending;
      pending := None;
    }

    /** What the waiting loop does when the channel fires: a stale token yields nothing and it waits on. */
    method OnWake() returns (r: Option<Request>)
      modifies this`pending
      ensures r == old(pending) && pending == None
    {
      r := Take();
    }

    /** What it does when the interval has elapsed: run, with whatever is queued merged in. */
    method OnTimer() returns (r: Request)
      modifies this`pending
      ensures pending == None && r == Scheduled(old(pending)) && r.refreshLocal
      ensures Reasons(r.reason) ==
              {"scheduled"} + if old(pending).Some? then Reasons(old(pending).value.reason) else {}
    {
      r := Request(true, "scheduled");
      var queued := Take();
      ScheduledDoes(queued);
      if queued.Some? {
        r := Merge(r, queued.value);
      }
    }
  }

  function Scheduled(queued: Option<Request>): Request {
    if queued.Some? then Merge(Request(true, "scheduled"), queued.value) else Request(true, "scheduled")
  }

  /** Whatever is queued, a scheduled run refreshes, and says that it was scheduled. */
  lemma ScheduledDoes(queued: Option<Request>)
    ensures Scheduled(queued).refreshLocal
    ensures Reasons(Scheduled(queued).reason) ==
            {"scheduled"} + if queued.Some? then Reasons(queued.value.reason) else {}
  {
    PlainReason("scheduled");
    if queued.Some? {
      MergeIsUnion(Request(true, "scheduled"), queued.value);
    }
  }

  lemma PlainReason(reason: string)
    requires reason != "" && '+' !in reason
    ensures Reasons(reason) == {reason}
  {
    SplitParts(reason, '+');
  }

  // ------------------------------------------------------- interleavings

  datatype Consumer = Running | Waiting | Woken | Elapsed

  /** A run and the pushes lo..hi it took. */
  datatype Run = Run(req: Request, lo: nat, hi: nat, timed: bool)

  /** sending counts the pushers between their two halves; open is the first push not yet taken. */
  datatype State = State(
    pending: Option<Request>, wake: bool, sending: nat, consumer: Consumer,
    pushed: seq<Request>, open: nat, runs: seq<Run>)

  datatype Event = Push(r: Request) | Send | Receive | Timer | Take | Finish

  ghost predicate Next(s: State, e: Event, t: State) {
    match e
    case Push(r) =>
      t == s.(pending := Some(Enqueued(s.pending, r)), sending := s.sending + 1, pushed := s.pushed + [r])
    case Send =>
      s.sending > 0 && t == s.(wake := true, sending := s.sending - 1)
    case Receive =>
      s.consumer.Waiting? && s.wake && t == s.(wake := false, consumer := Woken)
    case Timer =>
      s.consumer.Waiting? && t == s.(consumer := Elapsed)
    case Take =>
      if s.consumer.Woken? && s.pending.None? then t == s.(consumer := Waiting)
      else
        && (s.consumer.Woken? || s.consumer.Elapsed?)
        && t == s.(pending := None, consumer := Running, open := |s.pushed|, runs := s.runs + [TakenRun(s)])
    case Finish =>
      s.consumer.Running? && t == s.(consumer := Waiting)
  }

  function TakenRun(s: State): Run
    requires s.consumer.Elapsed? || s.pending.Some?
  {
    Run(if s.consumer.Elapsed? then Scheduled(s.pending) else s.pending.value, s.open, |s.pushed|, s.consumer.Elapsed?)
  }

  ghost predicate Init(s: State) {
    s == State(None, false, 0, Running, [], 0, [])
  }

  /** A run does what every push it took asked for, merged, plus a scheduled refresh if the timer fired. */
  ghost predicate RunOk(s: State, k: int)
    requires 0 <= k < |s.runs|
  {
    var r := s.runs[k];
    && r.lo == (if k == 0 then 0 else s.runs[k - 1].hi)
    && r.lo <= r.hi <= s.open
    && var merged := if r.hi <= |s.pushed| then MergeAll(s.pushed[r.lo..r.hi]) else None;
       if r.timed then r.req == Scheduled(merged) else merged == Some(r.req)
  }

  ghost predicate Inv(s: State) {
    && s.open <= |s.pushed|
    && s.pending == MergeAll(s.pushed[s.open..])
    && (s.pending.Some? ==> s.wake || s.sending > 0 || s.consumer.Woken? || s.consumer.Elapsed?)
    && (forall k | 0 <= k < |s.runs| :: RunOk(s, k))
    && s.open == (if s.runs == [] then 0 else s.runs[|s.runs| - 1].hi)
  }

  lemma InitInv(s: State)
    requires Init(s)
    ensures Inv(s)
  {
  }

  lemma PushKeeps(s: State, r: Request, t: State)
    requires Inv(s) && Next(s, Push(r), t)
    ensures Inv(t)
  {
    assert t.pushed[t.open..][..|t.pushed[t.open..]| - 1] == s.pushed[s.open..];
    forall k | 0 <= k < |t.runs| ensures RunOk(t, k) {
      assert RunOk(s, k);
      assert t.pushed[t.runs[k].lo..t.runs[k].hi] == s.pushed[s.runs[k].lo..s.runs[k].hi];
    }
  }

  lemma TakeKeeps(s: State, t: State)
    requires Inv(s) && Next(s, Take, t)
    ensures Inv(t)
  {
    if t.runs != s.runs {
      NewRunOk(s, t);
      assert t.pushed[t.open..] == [];
    }
    forall k | 0 <= k < |s.runs| ensures RunOk(t, k) {
      assert RunOk(s, k);
    }
  }

  lemma NewRunOk(s: State, t: State)
    requires Inv(s) && Next(s, Take, t) && t.runs != s.runs
    ensures RunOk(t, |s.runs|)
  {
    var n := |s.runs|;
    assert s.pushed[s.open..] == t.pushed[t.runs[n].lo..t.runs[n].hi];
    assert t.runs[n] == TakenRun(s);
  }

  /** Every step of every interleaving keeps it: a pending request always has its wake-up under way. */
  lemma NextKeeps(s: State, e: Event, t: State)
    requires Inv(s) && Next(s, e, t)
    ensures Inv(t)
  {
    match e
    case Push(r) => PushKeeps(s, r, t);
    case Take => TakeKeeps(s, t);
    case _ =>
      forall k | 0 <= k < |t.runs| ensures RunOk(t, k) {
        assert RunOk(s, k);
      }
  }

  ghost predicate Leads(states: seq<State>, events: seq<Event>, j: nat)
    requires j < |events| && |states| == |events| + 1
  {
    Next(states[j], events[j], states[j + 1])
  }

  /** So it holds in every reachable state. */
  lemma {:induction false} ReachableInv(states: seq<State>, events: seq<Event>, k: nat)
    requires |states| == |events| + 1 && Init(states[0])
    requires forall j | 0 <= j < |events| :: Leads(states, events, j)
    requires k < |states|
    ensures Inv(states[k])
  {
    if k == 0 {
      InitInv(states[0]);
    } else {
      ReachableInv(states, events, k - 1);
      assert Leads(states, events, k - 1);
      NextKeeps(states[k - 1], events[k - 1], states[k]);
    }
  }

  /** The runs partition the pushes taken so far: push i is in exactly one of them. */
  lemma {:induction false} EachPushRunsOnce(s: State, i: nat)
    requires Inv(s) && i < s.open
    ensures exists k :: 0 <= k < |s.runs| && s.runs[k].lo <= i < s.runs[k].hi
    ensures forall k, j | 0 <= k < j < |s.runs| ::
              !(s.runs[k].lo <= i < s.runs[k].hi && s.runs[j].lo <= i < s.runs[j].hi)
  {
    var k := |s.runs| - 1;
    while s.runs[k].lo > i
      invariant 0 <= k < |s.runs| && i < s.runs[k].hi
      decreases k
    {
      assert RunOk(s, k);
      k := k - 1;
    }
    forall a, b | 0 <= a < b < |s.runs| ensures s.runs[a].hi <= s.runs[b].lo {
      RunsOrdered(s, a, b);
    }
  }

  lemma {:induction false} RunsOrdered(s: State, a: nat, b: nat)
    requires Inv(s) && a < b < |s.runs|
    ensures s.runs[a].hi <= s.runs[b].lo
  {
    assert RunOk(s, b);
    if a < b - 1 {
      RunsOrdered(s, a, b - 1);
      assert RunOk(s, b - 1);
    }
  }

  /**
    Every run does exactly what the pushes it took asked for, and one the timer started refreshes and is
    scheduled besides.
   */
  lemma RunDoesExactly(s: State, k: nat, reason: string)
    requires Inv(s) && k < |s.runs|
    ensures var r := s.runs[k];
            && r.lo <= r.hi <= |s.pushed|
            && (r.req.refreshLocal <==> r.timed || exists i :: r.lo <= i < r.hi && s.pushed[i].refreshLocal)
            && (reason in Reasons(r.req.reason) <==>
                  || (r.timed && reason == "scheduled")
                  || exists i :: r.lo <= i < r.hi && reason in Reasons(s.pushed[i].reason))
  {
    assert RunOk(s, k);
    var r := s.runs[k];
    var ps := s.pushed[r.lo..r.hi];
    TookExactly(s, r, reason);
    ScheduledDoes(MergeAll(ps));
    if ps != [] {
      MergeAllIsUnion(ps, reason);
    }
  }

  /** What the pushes of a run ask for, as positions among all pushes. */
  lemma TookExactly(s: State, r: Run, reason: string)
    requires r.lo <= r.hi <= |s.pushed|
    ensures AsksRefresh(s.pushed[r.lo..r.hi]) <==> exists i :: r.lo <= i < r.hi && s.pushed[i].refreshLocal
    ensures Gives(s.pushed[r.lo..r.hi], reason) <==>
            exists i :: r.lo <= i < r.hi && reason in Reasons(s.pushed[i].reason)
  {
    var ps := s.pushed[r.lo..r.hi];
    forall i | r.lo <= i < r.hi ensures ps[i - r.lo] == s.pushed[i] {
    }
    if i :| 0 <= i < |ps| && ps[i].refreshLocal {
      assert s.pushed[r.lo + i] == ps[i];
    }
    if i :| 0 <= i < |ps| && reason in Reasons(ps[i].reason) {
      assert s.pushed[r.lo + i] == ps[i];
    }
  }

  /** Whatever a push asked for is in the one run that takes it. */
  lemma RunCoversPush(s: State, k: nat, i: nat)
    requires Inv(s) && k < |s.runs| && s.runs[k].lo <= i < s.runs[k].hi
    ensures i < |s.pushed|
    ensures s.pushed[i].refreshLocal ==> s.runs[k].req.refreshLocal
    ensures Reasons(s.pushed[i].reason) <= Reasons(s.runs[k].req.reason)
  {
    RunDoesExactly(s, k, "");
    forall reason | reason in Reasons(s.pushed[i].reason) ensures reason in Reasons(s.runs[k].req.reason) {
      RunDoesExactly(s, k, reason);
    }
  }

  /** A refresh is run only if a push it takes asked for one, or the interval elapsed. */
  lemma RefreshWasAsked(s: State, k: nat)
    requires Inv(s) && k < |s.runs| && s.runs[k].req.refreshLocal && !s.runs[k].timed
    ensures exists i :: s.runs[k].lo <= i < s.runs[k].hi && i < |s.pushed| && s.pushed[i].refreshLocal
  {
    RunDoesExactly(s, k, "");
  }

  /** A token never yields a run of its own: only pushes and the timer do. */
  lemma StaleTokenYieldsNothing(s: State, t: State)
    requires Inv(s) && Next(s, Take, t) && s.consumer.Woken?
    ensures s.open == |s.pushed| ==> t.runs == s.runs && t.consumer.Waiting?
    ensures s.open < |s.pushed| ==> |t.runs| == |s.runs| + 1 && t.runs[|s.runs|].hi == |s.pushed|
  {
    if s.open < |s.pushed| {
      assert s.pushed[s.open..] != [];
    } else {
      assert s.pushed[s.open..] == [];
    }
  }

  /** What the consumer does next when only the queue wakes it. */
  function Consume(s: State): State
    requires s.consumer.Waiting? ==> s.wake
  {
    match s.consumer
    case Running => s.(consumer := Waiting)
    case Waiting => s.(wake := false, consumer := Woken)
    case _ =>
      if s.consumer.Woken? && s.pending.None? then s.(consumer := Waiting)
      else s.(pending := None, consumer := Running, open := |s.pushed|, runs := s.runs + [TakenRun(s)])
  }

  /** With no pusher halfway, a pending request is taken within three steps of the consumer alone. */
  lemma PendingIsTaken(s: State)
    requires Inv(s) && s.pending.Some? && s.sending == 0
    ensures s.consumer.Waiting? ==> s.wake
    ensures var a := Consume(s);
            a.open == |s.pushed| || ((a.consumer.Waiting? ==> a.wake) && var b := Consume(a);
              b.open == |s.pushed| || ((b.consumer.Waiting? ==> b.wake) && Consume(b).open == |s.pushed|))
  {
  }
}
