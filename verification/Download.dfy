/**
  A pull as it is executed is a stretch of the replicated system: whatever the provider
  does between the requests, following the pages one by one is downloading what the
  provider offered when it was asked for the last of them.
 */
module Download {
  import opened Wrappers
  import opened Feed
  import opened Mirror
  import opened Replication
  import opened Convergence

  /** A stretch of a run of the replicated system. */
  datatype History = History(run: seq<Sys>, events: seq<Event>)

  /** What may happen while one pull is under way: the provider's own steps, the pull's, and resync requests. */
  predicate DuringPull(e: Event) {
    e.Refresh? || e.Recreate? || Serves(e) || e.Commit? || e.Abort? || e.Request?
  }

  /** One pull, from its start, by a consumer any earlier steps left idle. */
  ghost predicate IsPull(h: History) {
    && IsRun(h.run, h.events) && Inv(h.run[0]) && h.run[0].phase.Idle?
    && h.events != [] && h.events[0].Start?
    && forall i | 0 < i < |h.events| :: DuringPull(h.events[i])
  }

  /** What the pull learns in one step: a page or catalog with its commit, or that something failed. */
  function Learns(s: Sys, e: Event): seq<Answer> {
    if e.Abort? then [Failed]
    else if e.Commit? && s.phase.Fetched? then [Served(s.phase.page, true)]
    else if e.Commit? && s.phase.Listed? then [NoFeed(Some(s.phase.entries), true)]
    else []
  }

  /** The answers of the first i steps. */
  function Answers(h: History, i: nat): seq<Answer>
    requires i <= |h.events| && |h.run| == |h.events| + 1
  {
    if i == 0 then [] else Answers(h, i - 1) + Learns(h.run[i - 1], h.events[i - 1])
  }

  lemma {:induction false} PulledMore(m: Mirror, cur: Cursor, answers: seq<Answer>, a: Answer)
    ensures var p := Pulled(m, cur, answers);
            Pulled(m, cur, answers + [a]) == if p.status == Running then OnAnswer(p.m, p.cur, a) else p
    decreases |answers|
  {
    if answers == [] {
      var q := OnAnswer(m, cur, a);
      assert Pulled(q.m, q.cur, []) == Pull(q.m, q.cur, Running);
      assert (answers + [a])[1..] == [];
    } else {
      var q := OnAnswer(m, cur, answers[0]);
      assert (answers + [a])[1..] == answers[1..] + [a];
      PulledMore(q.m, q.cur, answers[1..], a);
    }
  }

  /** The mirrors are the same, but that a resync may have been requested of the second. */
  predicate SameButRequested(m: Mirror, m': Mirror) {
    && m'.rows == m.rows && m'.cursor == m.cursor.(requested := m'.cursor.requested)
    && (m.cursor.requested ==> m'.cursor.requested)
  }

  /** The pull p, as executed, stands where the consumer of s does, requests made meanwhile aside. */
  predicate StandsAt(p: Pull, s: Sys) {
    && SameButRequested(p.m, s.m)
    && (p.status == Running <==> !s.phase.Idle?)
    && (p.status == Running ==> p.cur == s.phase.cur)
  }

  lemma StepExecuted(p: Pull, s: Sys, e: Event, t: Sys)
    requires StandsAt(p, s) && Next(s, e, t) && DuringPull(e)
    ensures Learns(s, e) == [] ==> StandsAt(p, t)
    ensures Learns(s, e) != [] && p.status == Running ==> StandsAt(OnAnswer(p.m, p.cur, Learns(s, e)[0]), t)
    ensures Learns(s, e) != [] && p.status != Running ==> StandsAt(p, t)
  {
  }

  /**
    After every step, executing the pull on the answers so far leaves exactly the consumer of the
    run: requests made meanwhile change nothing the pull does.
   */
  lemma {:induction false} PullIsExecuted(h: History, i: nat)
    requires IsPull(h) && 0 < i <= |h.events|
    ensures StandsAt(Pulled(h.run[0].m, Load(h.run[0].m.cursor), Answers(h, i)), h.run[i])
  {
    var m, cur := h.run[0].m, Load(h.run[0].m.cursor);
    if i == 1 {
      assert Answers(h, 0) == [];
      assert Next(h.run[0], h.events[0], h.run[1]);
    } else {
      PullIsExecuted(h, i - 1);
      var learnt := Learns(h.run[i - 1], h.events[i - 1]);
      StepExecuted(Pulled(m, cur, Answers(h, i - 1)), h.run[i - 1], h.events[i - 1], h.run[i]);
      if learnt != [] {
        PulledMore(m, cur, Answers(h, i - 1), learnt[0]);
        assert learnt == [learnt[0]];
      } else {
        assert Answers(h, i) == Answers(h, i - 1);
      }
    }
  }

  /** A pull up to the step that completes it. */
  ghost predicate IsCompletePull(h: History) {
    IsPull(h) && Completes(h.run[|h.events| - 1], h.events[|h.events| - 1])
  }

  /** The log that served the last page of a complete pull, or its catalog. */
  ghost function ServedLast(h: History): Log
    requires IsCompletePull(h)
  {
    h.run[|h.events| - 1].phase.snap
  }

  /**
    Executing a complete pull on its answers succeeds and leaves exactly what the provider
    offered at one moment of that pull, whatever it did in between, whatever the mirror was, and
    though resyncs be requested meanwhile.
   */
  lemma PullDownloads(h: History)
    requires IsCompletePull(h)
    ensures var p := Pulled(h.run[0].m, Load(h.run[0].m.cursor), Answers(h, |h.events|));
            p.status == Done && Contents(p.m) == Offered(ServedLast(h))
    ensures exists j: nat :: ServedAt(h.run, h.events, j, |h.events| - 1) && h.run[j].log == ServedLast(h)
  {
    var n := |h.events|;
    PullIsExecuted(h, n - 1);
    PullIsExecuted(h, n);
    RunKeeps(h.run, h.events, n - 1);
    HeldWasServed(h.run, h.events, n - 1);
    assert Next(h.run[n - 1], h.events[n - 1], h.run[n]);
    CompletedPullRefinesDownload(h.run[n - 1], h.run[n]);
    LastAnswer(h);
  }

  lemma LastAnswer(h: History)
    requires IsCompletePull(h)
    ensures Pulled(h.run[0].m, Load(h.run[0].m.cursor), Answers(h, |h.events|)).status == Done
  {
    var n := |h.events|;
    var m, cur := h.run[0].m, Load(h.run[0].m.cursor);
    var s, e := h.run[n - 1], h.events[n - 1];
    assert Next(s, e, h.run[n]);
    RunKeeps(h.run, h.events, n - 1);
    PullIsExecuted(h, n - 1);
    PulledMore(m, cur, Answers(h, n - 1), Learns(s, e)[0]);
    if s.phase.Fetched? {
      HonestFeedNeverStalls(s);
    }
  }
}
