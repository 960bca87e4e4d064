/** Posting threads and the one processing thread around the two event queues, the mutex
    and the condition variable, as a step system. An event posted from inside a callback
    is one more poster, which holds the mutex only while the processing thread does not. */
module EventLoop {

  /** Events below this number go to the external queue, the others to the internal one. */
  const EXTERNAL_EVENT_MAX := 38

  datatype Poster = Idle | Ready(e: nat) | Holding(e: nat) | Enqueued | Signalled

  datatype Proc = AtLock | Checking | InternalEmpty | NothingToDo | Got(e: nat) | Running(e: nat)
                | Asleep | Woken | Reacquired

  datatype Owner = Free | ByProc | ByPoster(p: nat)

  datatype Queue = Queue(posted: seq<nat>, taken: seq<nat>, waiting: seq<nat>)

  datatype World = World(internal: Queue, external: Queue, owner: Owner, proc: Proc, posters: seq<Poster>)

  datatype Action =
    | Post(p: nat, e: nat) | PLock(p: nat) | PEnqueue(p: nat) | PSignal(p: nat) | PUnlock(p: nat)
    | Lock | TakeInternal | TakeExternal | Wait | Spurious | Reacquire | UnlockAfterWait | UnlockGot | Finish

  function Append(q: Queue, e: nat): Queue { q.(posted := q.posted + [e], waiting := q.waiting + [e]) }

  function Take(q: Queue): Queue
    requires q.waiting != []
  {
    q.(taken := q.taken + [q.waiting[0]], waiting := q.waiting[1..])
  }

  predicate Enabled(w: World, a: Action) {
    match a
    case Post(p, _) => p < |w.posters| && w.posters[p].Idle?
    case PLock(p) => p < |w.posters| && w.posters[p].Ready? && w.owner.Free?
    case PEnqueue(p) => p < |w.posters| && w.posters[p].Holding?
    case PSignal(p) => p < |w.posters| && w.posters[p].Enqueued?
    case PUnlock(p) => p < |w.posters| && w.posters[p].Signalled?
    case Lock => w.proc.AtLock? && w.owner.Free?
    case TakeInternal => w.proc.Checking?
    case TakeExternal => w.proc.InternalEmpty?
    case Wait => w.proc.NothingToDo?
    case Spurious => w.proc.Asleep?
    case Reacquire => w.proc.Woken? && w.owner.Free?
    case UnlockAfterWait => w.proc.Reacquired?
    case UnlockGot => w.proc.Got?
    case Finish => w.proc.Running?
  }

  function Next(w: World, a: Action): World
    requires Enabled(w, a)
  {
    match a
    case Post(p, e) => w.(posters := w.posters[p := Ready(e)])
    case PLock(p) => w.(posters := w.posters[p := Holding(w.posters[p].e)], owner := ByPoster(p))
    case PEnqueue(p) =>
      var e := w.posters[p].e;
      var w1 := w.(posters := w.posters[p := Enqueued]);
      if e < EXTERNAL_EVENT_MAX then w1.(external := Append(w.external, e)) else w1.(internal := Append(w.internal, e))
    case PSignal(p) => w.(posters := w.posters[p := Signalled], proc := if w.proc.Asleep? then Woken else w.proc)
    case PUnlock(p) => w.(posters := w.posters[p := Idle], owner := Free)
    case Lock => w.(proc := Checking, owner := ByProc)
    case TakeInternal =>
      if w.internal.waiting == [] then w.(proc := InternalEmpty)
      else w.(proc := Got(w.internal.waiting[0]), internal := Take(w.internal))
    case TakeExternal =>
      if w.external.waiting == [] then w.(proc := NothingToDo)
      else w.(proc := Got(w.external.waiting[0]), external := Take(w.external))
    case Wait => w.(proc := Asleep, owner := Free)
    case Spurious => w.(proc := Woken)
    case Reacquire => w.(proc := Reacquired, owner := ByProc)
    case UnlockAfterWait => w.(proc := AtLock, owner := Free)
    case UnlockGot => w.(proc := Running(w.proc.e), owner := Free)
    case Finish => w.(proc := AtLock)
  }

  ghost predicate Start(w: World) {
    && w.internal == Queue([], [], []) && w.external == Queue([], [], [])
    && w.owner.Free? && w.proc.AtLock? && forall p | 0 <= p < |w.posters| :: w.posters[p].Idle?
  }

  // -------------------------------------------------------------------- invariant

  predicate ProcHolds(c: Proc) {
    c.Checking? || c.InternalEmpty? || c.NothingToDo? || c.Got? || c.Reacquired?
  }

  predicate PosterHolds(c: Poster) { c.Holding? || c.Enqueued? || c.Signalled? }

  ghost predicate Inv(w: World) {
    && w.internal.posted == w.internal.taken + w.internal.waiting
    && w.external.posted == w.external.taken + w.external.waiting
    && (w.owner.ByProc? <==> ProcHolds(w.proc))
    && (forall p | 0 <= p < |w.posters| :: PosterHolds(w.posters[p]) <==> w.owner == ByPoster(p))
    && (w.owner.ByPoster? ==> w.owner.p < |w.posters|)
    && (w.proc.InternalEmpty? || w.proc.NothingToDo? ==> w.internal.waiting == [])
    && (w.proc.NothingToDo? ==> w.external.waiting == [])
    && (w.proc.Asleep? && (w.internal.waiting != [] || w.external.waiting != []) ==>
          exists p :: 0 <= p < |w.posters| && w.posters[p].Enqueued?)
  }

  lemma StepInv(w: World, a: Action)
    requires Inv(w) && Enabled(w, a)
    ensures Inv(Next(w, a)) && |Next(w, a).posters| == |w.posters|
  {
    var t := Next(w, a);
    if a.PEnqueue? {
      assert t.posters[a.p].Enqueued?;
    }
    if t.proc.Asleep? && w.proc.Asleep? && (w.internal.waiting != [] || w.external.waiting != []) {
      var p :| 0 <= p < |w.posters| && w.posters[p].Enqueued?;
      assert t.posters[p] == w.posters[p] || a.PSignal?;
    }
  }

  // ------------------------------------------------------------------------- runs

  ghost predicate Legal(w: World, run: seq<Action>)
    decreases |run|
  {
    run == [] || (Enabled(w, run[0]) && Legal(Next(w, run[0]), run[1..]))
  }

  ghost function After(w: World, run: seq<Action>): World
    requires Legal(w, run)
    decreases |run|
  {
    if run == [] then w else After(Next(w, run[0]), run[1..])
  }

  lemma {:induction false} RunInv(w: World, run: seq<Action>)
    requires Inv(w) && Legal(w, run)
    ensures Inv(After(w, run))
    decreases |run|
  {
    if run != [] {
      StepInv(w, run[0]);
      RunInv(Next(w, run[0]), run[1..]);
    }
  }

  /** For every interleaving: what was taken from each queue is a prefix of what was posted to
      it, and a sleeping thread with work waiting is about to be signalled. */
  lemma Interleavings(w: World, run: seq<Action>)
    requires Start(w) && Legal(w, run)
    ensures var t := After(w, run);
      && t.internal.taken <= t.internal.posted && t.external.taken <= t.external.posted
      && (t.proc.Asleep? && (t.internal.waiting != [] || t.external.waiting != []) ==>
            exists p :: 0 <= p < |t.posters| && t.posters[p].Enqueued? && t.owner == ByPoster(p))
  {
    assert Inv(w);
    RunInv(w, run);
  }

  /** Whenever an external event is taken, no internal event is waiting: all internal events
      posted so far have been taken. */
  lemma InternalFirst(w: World, run: seq<Action>)
    requires Start(w) && Legal(w, run) && Enabled(After(w, run), TakeExternal)
    ensures var t := After(w, run); t.internal.waiting == [] && t.internal.taken == t.internal.posted
  {
    assert Inv(w);
    RunInv(w, run);
  }

  // -------------------------------------------------------------------- all drains

  function PosterRank(c: Poster): nat {
    match c
    case Idle => 0 case Signalled => 1 case Enqueued => 8 case Holding(_) => 17 case Ready(_) => 18
  }

  function ProcRank(c: Proc): nat {
    match c
    case Asleep => 0 case NothingToDo => 1 case InternalEmpty => 2 case Checking => 3 case AtLock => 4
    case Running(_) => 5 case Reacquired => 5 case Got(_) => 6 case Woken => 6
  }

  function PostersRank(ps: seq<Poster>): nat {
    if ps == [] then 0 else PostersRank(ps[..|ps| - 1]) + PosterRank(ps[|ps| - 1])
  }

  function Rank(w: World): nat {
    PostersRank(w.posters) + 8 * (|w.internal.waiting| + |w.external.waiting|) + ProcRank(w.proc)
  }

  lemma {:induction false} PostersRankUpdate(ps: seq<Poster>, p: nat, c: Poster)
    requires p < |ps|
    ensures PostersRank(ps[p := c]) == PostersRank(ps) - PosterRank(ps[p]) + PosterRank(c)
  {
    var n := |ps| - 1;
    if p == n {
      assert ps[p := c][..n] == ps[..n];
    } else {
      assert ps[p := c][..n] == ps[..n][p := c];
      PostersRankUpdate(ps[..n], p, c);
    }
  }

  /** Neither a new post nor a wake-up out of nothing. */
  predicate Work(a: Action) { !a.Post? && !a.Spurious? }

  lemma WorkDecreases(w: World, a: Action)
    requires Inv(w) && Enabled(w, a) && Work(a)
    ensures Rank(Next(w, a)) < Rank(w)
  {
    if a.PLock? || a.PEnqueue? || a.PSignal? || a.PUnlock? {
      PostersRankUpdate(w.posters, a.p, Next(w, a).posters[a.p]);
    }
  }

  /** If no work step is enabled, everything posted has been taken and the thread sleeps. */
  lemma StuckMeansDone(w: World)
    requires Inv(w) && forall a | Work(a) :: !Enabled(w, a)
    ensures w.proc.Asleep? && w.internal.taken == w.internal.posted && w.external.taken == w.external.posted
    ensures forall p | 0 <= p < |w.posters| :: w.posters[p].Idle?
  {
    assert !Enabled(w, Lock) && !Enabled(w, TakeInternal) && !Enabled(w, TakeExternal) && !Enabled(w, Wait);
    assert !Enabled(w, Reacquire) && !Enabled(w, UnlockAfterWait) && !Enabled(w, UnlockGot) && !Enabled(w, Finish);
    forall p | 0 <= p < |w.posters| ensures !PosterHolds(w.posters[p]) {
      assert !Enabled(w, PEnqueue(p)) && !Enabled(w, PSignal(p)) && !Enabled(w, PUnlock(p));
    }
    forall p | 0 <= p < |w.posters| ensures w.posters[p].Idle? {
      assert !Enabled(w, PLock(p));
    }
  }

  /** Every schedule of work steps is bounded, so once posting stops the queues drain. */
  lemma {:induction false} DrainBound(w: World, run: seq<Action>)
    requires Inv(w) && Legal(w, run) && forall i | 0 <= i < |run| :: Work(run[i])
    ensures |run| + Rank(After(w, run)) <= Rank(w)
    decreases |run|
  {
    if run != [] {
      WorkDecreases(w, run[0]);
      StepInv(w, run[0]);
      DrainBound(Next(w, run[0]), run[1..]);
    }
  }

  /** From any reachable state, every schedule of work steps that cannot be continued has taken
      every posted event, each queue in the order of posting. */
  lemma AllDrained(w: World, before: seq<Action>, run: seq<Action>)
    requires Start(w) && Legal(w, before) && Legal(After(w, before), run)
    requires forall i | 0 <= i < |run| :: Work(run[i])
    requires forall a | Work(a) :: !Enabled(After(After(w, before), run), a)
    ensures |run| <= Rank(After(w, before))
    ensures var t := After(After(w, before), run);
      t.proc.Asleep? && t.internal.taken == t.internal.posted && t.external.taken == t.external.posted
  {
    assert Inv(w);
    RunInv(w, before);
    var m := After(w, before);
    RunInv(m, run);
    DrainBound(m, run);
    StuckMeansDone(After(m, run));
  }
}
