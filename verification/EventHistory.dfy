/** What the event loop has done after any interleaving, told from the steps alone: what each
    thread posted, what was queued, and in which order callbacks ran. */
module EventHistory {
  import opened EventLoop

  /** The last event that outside code posts and the first that interfaces post to each other. */
  const NETWORK_STATS_UPDATE := 37
  const HANDLE_WAN_UP := 39

  /** Events with priority are those after the last one that outside code posts. */
  predicate Urgent(e: nat) { e > NETWORK_STATS_UPDATE }

  function Only(s: seq<nat>, urgent: bool): seq<nat> {
    if s == [] then []
    else
      var n := |s| - 1;
      if Urgent(s[n]) == urgent then Only(s[..n], urgent) + [s[n]] else Only(s[..n], urgent)
  }

  lemma OnlyMore(s: seq<nat>, e: nat, urgent: bool)
    ensures Only(s + [e], urgent) == if Urgent(e) == urgent then Only(s, urgent) + [e] else Only(s, urgent)
  {
    assert (s + [e])[..|s|] == s;
  }

  lemma {:induction false} OnlyExact(s: seq<nat>, urgent: bool, e: nat)
    ensures multiset(Only(s, urgent))[e] == if Urgent(e) == urgent then multiset(s)[e] else 0
  {
    if s != [] {
      OnlyExact(s[..|s| - 1], urgent, e);
      assert s == s[..|s| - 1] + [s[|s| - 1]];
    }
  }

  // ------------------------------------------------------------------------ histories

  /** What happened so far: the events posted by each thread, those put into a queue, and those
      whose callbacks ran. */
  datatype History = History(posts: seq<(nat, nat)>, queued: seq<(nat, nat)>, ran: seq<nat>)

  function Record(w: World, a: Action, h: History): History
    requires Enabled(w, a)
  {
    match a
    case Post(p, e) => h.(posts := h.posts + [(p, e)])
    case PEnqueue(p) => h.(queued := h.queued + [(p, w.posters[p].e)])
    case Finish => h.(ran := h.ran + [w.proc.e])
    case _ => h
  }

  ghost function HistoryOf(w: World, run: seq<Action>, h: History): History
    requires Legal(w, run)
    decreases |run|
  {
    if run == [] then h else HistoryOf(Next(w, run[0]), run[1..], Record(w, run[0], h))
  }

  function Events(l: seq<(nat, nat)>): seq<nat> {
    if l == [] then [] else Events(l[..|l| - 1]) + [l[|l| - 1].1]
  }

  /** The events of thread `p`. */
  function By(l: seq<(nat, nat)>, p: nat): seq<nat> {
    if l == [] then []
    else
      var n := |l| - 1;
      if l[n].0 == p then By(l[..n], p) + [l[n].1] else By(l[..n], p)
  }

  lemma ListMore(l: seq<(nat, nat)>, x: (nat, nat), p: nat)
    ensures Events(l + [x]) == Events(l) + [x.1]
    ensures By(l + [x], p) == if x.0 == p then By(l, p) + [x.1] else By(l, p)
  {
    assert (l + [x])[..|l|] == l;
  }

  ghost predicate ToldQueue(q: Queue, h: History, urgent: bool) { q.posted == Only(Events(h.queued), urgent) }

  /** What was taken from a queue are the callbacks that ran, and one about to run or running. */
  ghost predicate ToldRuns(q: Queue, c: Proc, h: History, urgent: bool) {
    if (c.Got? || c.Running?) && Urgent(c.e) == urgent then q.taken == Only(h.ran, urgent) + [c.e] else q.taken == Only(h.ran, urgent)
  }

  /** What a thread posted is what it put into a queue, and one event it is about to put there. */
  ghost predicate ToldThread(c: Poster, h: History, p: nat) {
    if c.Ready? || c.Holding? then By(h.posts, p) == By(h.queued, p) + [c.e] else By(h.posts, p) == By(h.queued, p)
  }

  ghost predicate Told(w: World, h: History) {
    && ToldQueue(w.internal, h, true) && ToldQueue(w.external, h, false)
    && ToldRuns(w.internal, w.proc, h, true) && ToldRuns(w.external, w.proc, h, false)
    && forall p | 0 <= p < |w.posters| :: ToldThread(w.posters[p], h, p)
  }

  /** Queues hold events of their own kind. */
  ghost predicate Sorted(w: World) {
    && (forall i | 0 <= i < |w.internal.waiting| :: Urgent(w.internal.waiting[i]))
    && (forall i | 0 <= i < |w.external.waiting| :: !Urgent(w.external.waiting[i]))
  }

  lemma QueueStep(w: World, a: Action, h: History)
    requires Enabled(w, a) && ToldQueue(w.internal, h, true) && ToldQueue(w.external, h, false)
    ensures var t, g := Next(w, a), Record(w, a, h); ToldQueue(t.internal, g, true) && ToldQueue(t.external, g, false)
  {
    if a.PEnqueue? {
      var e := w.posters[a.p].e;
      ListMore(h.queued, (a.p, e), a.p);
      OnlyMore(Events(h.queued), e, true);
      OnlyMore(Events(h.queued), e, false);
    }
    hide Only, Events;
  }

  lemma RunStep(w: World, a: Action, h: History)
    requires Enabled(w, a) && Sorted(w) && ToldRuns(w.internal, w.proc, h, true) && ToldRuns(w.external, w.proc, h, false)
    ensures var t, g := Next(w, a), Record(w, a, h);
      ToldRuns(t.internal, t.proc, g, true) && ToldRuns(t.external, t.proc, g, false)
  {
    if a.Finish? {
      OnlyMore(h.ran, w.proc.e, true);
      OnlyMore(h.ran, w.proc.e, false);
    }
    hide Only;
  }

  lemma ThreadStep(w: World, a: Action, h: History, p: nat)
    requires Enabled(w, a) && p < |w.posters| && ToldThread(w.posters[p], h, p)
    ensures |Next(w, a).posters| == |w.posters| && ToldThread(Next(w, a).posters[p], Record(w, a, h), p)
  {
    if a.Post? {
      ListMore(h.posts, (a.p, a.e), p);
    } else if a.PEnqueue? {
      ListMore(h.queued, (a.p, w.posters[a.p].e), p);
    }
    hide By;
  }

  lemma ToldStep(w: World, a: Action, h: History)
    requires Enabled(w, a) && Told(w, h) && Sorted(w)
    ensures Told(Next(w, a), Record(w, a, h))
  {
    QueueStep(w, a, h);
    RunStep(w, a, h);
    forall p | 0 <= p < |w.posters|
      ensures |Next(w, a).posters| == |w.posters| && ToldThread(Next(w, a).posters[p], Record(w, a, h), p)
    {
      ThreadStep(w, a, h, p);
    }
    assert |Next(w, a).posters| == |w.posters|;
    hide Next, Record, ToldThread, ToldRuns, ToldQueue, Sorted;
  }

  lemma SortedStep(w: World, a: Action)
    requires Enabled(w, a) && Sorted(w)
    ensures Sorted(Next(w, a))
  {
  }

  lemma {:induction false} HistoryTold(w: World, run: seq<Action>, h: History)
    requires Legal(w, run) && Told(w, h) && Sorted(w)
    ensures Told(After(w, run), HistoryOf(w, run, h))
    decreases |run|
  {
    if run != [] {
      ToldStep(w, run[0], h);
      SortedStep(w, run[0]);
      hide Told, Sorted, Next, Record;
      HistoryTold(Next(w, run[0]), run[1..], Record(w, run[0], h));
    }
  }

  const NOTHING := History([], [], [])

  /** For every interleaving: each thread's events reach a queue in the order it posted them; each
      queue received exactly the queued events of its kind, in order; and callbacks of each kind
      ran in the order of queueing, without losing, repeating or inventing one. */
  lemma RunsInOrder(w: World, run: seq<Action>, p: nat, urgent: bool)
    requires Start(w) && Legal(w, run)
    ensures var h := HistoryOf(w, run, NOTHING);
      && Only(h.ran, urgent) <= Only(Events(h.queued), urgent)
      && (p < |w.posters| ==> By(h.queued, p) <= By(h.posts, p))
  {
    assert Told(w, NOTHING);
    HistoryTold(w, run, NOTHING);
    assert Inv(w);
    RunInv(w, run);
    SameThreads(w, run);
    hide HistoryOf, After, Told, Inv;
    ToldPrefixes(After(w, run), HistoryOf(w, run, NOTHING), p, urgent);
  }

  lemma ToldPrefixes(t: World, h: History, p: nat, urgent: bool)
    requires Told(t, h) && Inv(t)
    ensures Only(h.ran, urgent) <= Only(Events(h.queued), urgent)
    ensures p < |t.posters| ==> By(h.queued, p) <= By(h.posts, p)
  {
    hide Only, By, Events;
    var q := if urgent then t.internal else t.external;
    assert q.posted == q.taken + q.waiting;
    if p < |t.posters| {
      assert ToldThread(t.posters[p], h, p);
    }
  }

  lemma {:induction false} SameThreads(w: World, run: seq<Action>)
    requires Legal(w, run)
    ensures |After(w, run).posters| == |w.posters|
    decreases |run|
  {
    if run != [] {
      SameThreads(Next(w, run[0]), run[1..]);
    }
  }

  /** Whenever an external event can be taken, every event from HANDLE_WAN_UP on that was queued so
      far has been taken, in order; no event up to NETWORK_STATS_UPDATE is ever among them. */
  lemma WanEventsFirst(w: World, run: seq<Action>, e: nat)
    requires Start(w) && Legal(w, run) && Enabled(After(w, run), TakeExternal)
    ensures var h := HistoryOf(w, run, NOTHING);
      var taken := After(w, run).internal.taken;
      && (e >= HANDLE_WAN_UP ==> multiset(taken)[e] == multiset(Events(h.queued))[e])
      && (e <= NETWORK_STATS_UPDATE ==> e !in taken)
  {
    assert Told(w, NOTHING);
    HistoryTold(w, run, NOTHING);
    InternalFirst(w, run);
    hide HistoryOf, After;
    var t, h := After(w, run), HistoryOf(w, run, NOTHING);
    OnlyExact(Events(h.queued), true, e);
    hide Only, Events;
    if e <= NETWORK_STATS_UPDATE {
      assert multiset(t.internal.taken)[e] == 0;
    }
  }
}
