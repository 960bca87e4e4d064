/** Event dispatch over a listener list that callbacks change while it is being walked.
    The walk keeps a copy of the current node, so after a callback it continues with the
    successor the node had before the callback, wherever that node is by then. */
module Dispatch {

  datatype Reg = Reg(event: nat, obj: nat)

  /** What a callback may do to the list. */
  datatype Action = Append(r: Reg) | Remove(obj: nat)

  /** The order-preserving filter that deregistration is. */
  function Without(l: seq<Reg>, obj: nat): seq<Reg> {
    if l == [] then []
    else Without(l[..|l| - 1], obj) + if l[|l| - 1].obj == obj then [] else [l[|l| - 1]]
  }

  function Matching(l: seq<Reg>, ev: nat): seq<Reg> {
    if l == [] then [] else (if l[0].event == ev then [l[0]] else []) + Matching(l[1..], ev)
  }

  /** The list split at the saved successor: nodes before it, and the nodes from it on. */
  datatype Walk = Walk(done: seq<Reg>, rest: seq<Reg>) | Freed

  function Act(w: Walk, a: Action): Walk {
    if w.Freed? then w
    else match a
      case Append(r) => if w.rest == [] then w.(done := w.done + [r]) else w.(rest := w.rest + [r])
      case Remove(o) =>
        if w.rest != [] && w.rest[0].obj == o then Freed else Walk(Without(w.done, o), Without(w.rest, o))
  }

  function ActAll(w: Walk, acts: seq<Action>): Walk
    decreases |acts|
  {
    if acts == [] then w else ActAll(Act(w, acts[0]), acts[1..])
  }

  /** How a dispatch ends: with the final list and the calls made, or by reading a freed node. */
  datatype Outcome = Done(list: seq<Reg>, calls: seq<Reg>) | UseAfterFree

  /** Dispatch of `ev`; `script[k]` is what the k-th callback does, later callbacks do nothing. */
  function Process(w: Walk, ev: nat, script: seq<seq<Action>>): Outcome
    decreases |script|, if w.Walk? then |w.rest| + 1 else 0
  {
    if w.Freed? then UseAfterFree
    else if w.rest == [] then Done(w.done, [])
    else
      var n := w.rest[0];
      var w1 := Walk(w.done + [n], w.rest[1..]);
      if n.event != ev then Process(w1, ev, script)
      else
        var r := if script == [] then Process(w1, ev, []) else Process(ActAll(w1, script[0]), ev, script[1..]);
        if r.UseAfterFree? then r else r.(calls := [n] + r.calls)
  }

  // ----------------------------------------------------------------------- filter

  lemma {:induction false} WithoutConcat(a: seq<Reg>, b: seq<Reg>, obj: nat)
    ensures Without(a + b, obj) == Without(a, obj) + Without(b, obj)
  {
    if b == [] {
      assert a + b == a;
    } else {
      assert (a + b)[..|a + b| - 1] == a + b[..|b| - 1];
      WithoutConcat(a, b[..|b| - 1], obj);
    }
  }

  lemma {:induction false} WithoutNone(l: seq<Reg>, obj: nat)
    requires forall i | 0 <= i < |l| :: l[i].obj != obj
    ensures Without(l, obj) == l
  {
    if l != [] {
      WithoutNone(l[..|l| - 1], obj);
      assert l == l[..|l| - 1] + [l[|l| - 1]];
    }
  }

  lemma {:induction false} WithoutExact(l: seq<Reg>, obj: nat)
    ensures forall i | 0 <= i < |Without(l, obj)| :: Without(l, obj)[i].obj != obj
    ensures forall r: Reg :: multiset(Without(l, obj))[r] == if r.obj == obj then 0 else multiset(l)[r]
  {
    if l != [] {
      WithoutExact(l[..|l| - 1], obj);
      assert l == l[..|l| - 1] + [l[|l| - 1]];
    }
  }

  lemma {:induction false} MatchingConcat(a: seq<Reg>, b: seq<Reg>, ev: nat)
    ensures Matching(a + b, ev) == Matching(a, ev) + Matching(b, ev)
  {
    if a == [] {
      assert a + b == b;
    } else {
      var first := if a[0].event == ev then [a[0]] else [];
      assert (a + b)[0] == a[0] && (a + b)[1..] == a[1..] + b;
      MatchingConcat(a[1..], b, ev);
      var x, y := Matching(a[1..], ev), Matching(b, ev);
      assert Matching(a, ev) == first + x && Matching(a + b, ev) == first + Matching(a[1..] + b, ev);
      hide Matching;
      assert first + (x + y) == (first + x) + y;
    }
  }

  // ----------------------------------------------------------- exactly when it is safe

  ghost predicate Removes(acts: seq<Action>, obj: nat) { exists i :: 0 <= i < |acts| && acts[i] == Remove(obj) }

  lemma {:induction false} FreedStays(acts: seq<Action>)
    ensures ActAll(Freed, acts).Freed?
    decreases |acts|
  {
    if acts != [] {
      FreedStays(acts[1..]);
    }
  }

  /** A callback frees the node the walk continues with exactly when it deregisters that
      node's listener. */
  lemma {:induction false} FreedIff(w: Walk, acts: seq<Action>)
    requires w.Walk? && w.rest != []
    ensures ActAll(w, acts).Freed? <==> Removes(acts, w.rest[0].obj)
    ensures !Removes(acts, w.rest[0].obj) ==> ActAll(w, acts).rest != [] && ActAll(w, acts).rest[0] == w.rest[0]
    decreases |acts|
  {
    if acts != [] {
      var o := w.rest[0].obj;
      if acts[0] == Remove(o) {
        FreedStays(acts[1..]);
      } else {
        if acts[0].Remove? {
          assert w.rest == [w.rest[0]] + w.rest[1..];
          WithoutConcat([w.rest[0]], w.rest[1..], acts[0].obj);
          WithoutNone([w.rest[0]], acts[0].obj);
        }
        FreedIff(Act(w, acts[0]), acts[1..]);
        assert Removes(acts, o) <==> Removes(acts[1..], o) by {
          if Removes(acts, o) {
            var i :| 0 <= i < |acts| && acts[i] == Remove(o);
            assert acts[1..][i - 1] == Remove(o);
          }
          if Removes(acts[1..], o) {
            var i :| 0 <= i < |acts[1..]| && acts[1..][i] == Remove(o);
            assert acts[i + 1] == Remove(o);
          }
        }
      }
    }
  }

  /** With no successor left nothing can be freed under the walk. */
  lemma {:induction false} LastNodeSafe(w: Walk, acts: seq<Action>)
    requires w.Walk? && w.rest == []
    ensures ActAll(w, acts).Walk? && ActAll(w, acts).rest == []
    decreases |acts|
  {
    if acts != [] {
      LastNodeSafe(Act(w, acts[0]), acts[1..]);
    }
  }

  /** The walk after `n` has been copied and its callback has made `acts`. */
  function Called(w: Walk, acts: seq<Action>): Walk
    requires w.Walk? && w.rest != []
  {
    ActAll(Walk(w.done + [w.rest[0]], w.rest[1..]), acts)
  }

  /** The walk when it stands on its next node for `ev`, or at the end. */
  function ToCall(w: Walk, ev: nat): Walk
    decreases if w.Walk? then |w.rest| else 0
  {
    if w.Freed? || w.rest == [] || w.rest[0].event == ev then w else ToCall(Walk(w.done + [w.rest[0]], w.rest[1..]), ev)
  }

  /** The walk just before callback `k`: it stands on the node that is called, if it gets there. */
  function AtCall(w: Walk, ev: nat, script: seq<seq<Action>>, k: nat): Walk
    requires k < |script|
    decreases k
  {
    var v := ToCall(w, ev);
    if k == 0 || v.Freed? || v.rest == [] then v else AtCall(Called(v, script[0]), ev, script[1..], k - 1)
  }

  /** Callback `k` is made and deregisters the listener of the node that follows the called one. */
  ghost predicate FreesNext(w: Walk, ev: nat, script: seq<seq<Action>>, k: nat)
    requires k < |script|
  {
    var v := AtCall(w, ev, script, k);
    v.Walk? && |v.rest| > 1 && Removes(script[k], v.rest[1].obj)
  }

  lemma {:induction false} ProcessToCall(w: Walk, ev: nat, script: seq<seq<Action>>)
    requires w.Walk?
    ensures Process(w, ev, script) == Process(ToCall(w, ev), ev, script)
    ensures var v := ToCall(w, ev); v.Walk? && (v.rest == [] || v.rest[0].event == ev)
    decreases |w.rest|
  {
    if w.rest != [] && w.rest[0].event != ev {
      ProcessToCall(Walk(w.done + [w.rest[0]], w.rest[1..]), ev, script);
    }
  }

  /** A dispatch reads a freed node if and only if one of the callbacks it makes deregisters
      the listener of the node that follows the called one. */
  lemma {:induction false} UseAfterFreeIff(w: Walk, ev: nat, script: seq<seq<Action>>)
    requires w.Walk?
    ensures Process(w, ev, script).UseAfterFree? <==> exists k :: 0 <= k < |script| && FreesNext(w, ev, script, k)
    decreases |script|
  {
    ProcessToCall(w, ev, script);
    var v := ToCall(w, ev);
    if script == [] {
      QuietProcess(w, ev);
    } else if v.rest == [] {
      assert forall k | 0 <= k < |script| :: AtCall(w, ev, script, k) == v;
    } else {
      var v1 := Walk(v.done + [v.rest[0]], v.rest[1..]);
      var u := Called(v, script[0]);
      assert FreesNext(w, ev, script, 0) <==> v1.rest != [] && Removes(script[0], v1.rest[0].obj);
      if v1.rest != [] { FreedIff(v1, script[0]); } else { LastNodeSafe(v1, script[0]); }
      assert u.Freed? <==> FreesNext(w, ev, script, 0);
      if u.Walk? {
        UseAfterFreeIff(u, ev, script[1..]);
        forall k | 0 < k < |script| ensures FreesNext(w, ev, script, k) <==> FreesNext(u, ev, script[1..], k - 1) {
        }
        if k :| 0 <= k < |script[1..]| && FreesNext(u, ev, script[1..], k) {
          assert FreesNext(w, ev, script, k + 1);
        }
      }
    }
  }

  // ------------------------------------------------------- who is called, in every dispatch

  function Appended(acts: seq<Action>): seq<Reg> {
    if acts == [] then [] else (if acts[0].Append? then [acts[0].r] else []) + Appended(acts[1..])
  }

  /** What the first `n` callbacks append. */
  function AppendedBy(script: seq<seq<Action>>, n: nat): seq<Reg>
    decreases |script|
  {
    if n == 0 || script == [] then [] else Appended(script[0]) + AppendedBy(script[1..], n - 1)
  }

  ghost predicate EverRemoved(script: seq<seq<Action>>, obj: nat) { exists k :: 0 <= k < |script| && Removes(script[k], obj) }

  lemma {:induction false} MatchingExact(l: seq<Reg>, ev: nat)
    ensures forall r: Reg :: multiset(Matching(l, ev))[r] == if r.event == ev then multiset(l)[r] else 0
  {
    if l != [] {
      MatchingExact(l[1..], ev);
      assert l == [l[0]] + l[1..];
    }
  }

  /** How often `r` stands in `l`. */
  ghost function Count(l: seq<Reg>, r: Reg): nat { multiset(l)[r] }

  lemma CountConcat(a: seq<Reg>, b: seq<Reg>, r: Reg)
    ensures Count(a + b, r) == Count(a, r) + Count(b, r)
  {
  }

  lemma CountOne(n: Reg, l: seq<Reg>, r: Reg)
    ensures Count([n] + l, r) == Count(l, r) + if n == r then 1 else 0
  {
  }

  /** How one list change affects the number of nodes still to be visited for `r`. */
  lemma ActCount(w: Walk, a: Action, r: Reg)
    requires w.Walk? && Act(w, a).Walk?
    ensures Count(Act(w, a).rest, r) <= Count(w.rest, r) + if a == Append(r) then 1 else 0
    ensures a != Remove(r.obj) ==> Count(w.rest, r) <= Count(Act(w, a).rest, r)
  {
    if a.Remove? {
      WithoutExact(w.rest, a.obj);
    } else {
      CountConcat(w.rest, [a.r], r);
    }
  }

  lemma {:induction false} ActAllCount(w: Walk, acts: seq<Action>, r: Reg)
    requires w.Walk? && ActAll(w, acts).Walk?
    ensures Count(ActAll(w, acts).rest, r) <= Count(w.rest, r) + Count(Appended(acts), r)
    ensures !Removes(acts, r.obj) ==> Count(w.rest, r) <= Count(ActAll(w, acts).rest, r)
    decreases |acts|
  {
    if acts != [] {
      var a := acts[0];
      if Act(w, a).Freed? {
        FreedStays(acts[1..]);
        assert false;
      }
      ActCount(w, a, r);
      ActAllCount(Act(w, a), acts[1..], r);
      if a.Append? { CountOne(a.r, Appended(acts[1..]), r); }
      if Removes(acts[1..], r.obj) {
        var i :| 0 <= i < |acts[1..]| && acts[1..][i] == Remove(r.obj);
        assert acts[i + 1] == Remove(r.obj);
      }
    }
  }

  /** The bounds on the calls for `r` of a dispatch over `rest`. */
  ghost predicate CallBounds(rest: seq<Reg>, calls: seq<Reg>, ev: nat, script: seq<seq<Action>>, r: Reg) {
    if r.event != ev then Count(calls, r) == 0
    else
      && Count(calls, r) <= Count(rest, r) + Count(AppendedBy(script, |calls|), r)
      && (!EverRemoved(script, r.obj) ==> Count(rest, r) <= Count(calls, r))
  }

  /** Every dispatch that reads no freed node, whatever its callbacks do: only registrations for
      the event are called, each no more often than it was on the list ahead or was appended by
      a callback that was made, and one that no callback deregisters at least once per node. */
  lemma {:induction false} CalledCount(w: Walk, ev: nat, script: seq<seq<Action>>, r: Reg)
    requires w.Walk? && Process(w, ev, script).Done?
    ensures CallBounds(w.rest, Process(w, ev, script).calls, ev, script, r)
    decreases |script|, |w.rest|
  {
    if script == [] {
      QuietProcess(w, ev);
      MatchingExact(w.rest, ev);
    } else if w.rest != [] {
      var n := w.rest[0];
      var w1 := Walk(w.done + [n], w.rest[1..]);
      assert w.rest == [n] + w1.rest;
      CountOne(n, w1.rest, r);
      if n.event != ev {
        CalledCount(w1, ev, script, r);
      } else {
        var w2 := ActAll(w1, script[0]);
        CalledCount(w2, ev, script[1..], r);
        ActAllCount(w1, script[0], r);
        CallBoundsStep(w1.rest, w2.rest, n, Process(w2, ev, script[1..]).calls, ev, script, r);
      }
    }
  }

  lemma CallBoundsStep(before: seq<Reg>, after: seq<Reg>, n: Reg, calls: seq<Reg>, ev: nat, script: seq<seq<Action>>, r: Reg)
    requires script != [] && n.event == ev && CallBounds(after, calls, ev, script[1..], r)
    requires Count(after, r) <= Count(before, r) + Count(Appended(script[0]), r)
    requires !Removes(script[0], r.obj) ==> Count(before, r) <= Count(after, r)
    ensures CallBounds([n] + before, [n] + calls, ev, script, r)
  {
    hide Count;
    CountOne(n, before, r);
    CountOne(n, calls, r);
    CountConcat(Appended(script[0]), AppendedBy(script[1..], |calls|), r);
    if EverRemoved(script[1..], r.obj) {
      var k :| 0 <= k < |script[1..]| && Removes(script[1..][k], r.obj);
      assert Removes(script[k + 1], r.obj);
    }
    assert Removes(script[0], r.obj) ==> EverRemoved(script, r.obj);
  }

  // ------------------------------------------------------------------- the discipline

  /** A callback of listener `obj` only appends, or deregisters `obj` itself, and the latter
      only when `obj` owns no node further on. */
  ghost predicate Polite(obj: nat, rest: seq<Reg>, acts: seq<Action>) {
    forall i | 0 <= i < |acts| && acts[i].Remove? ::
      acts[i].obj == obj && forall j | 0 <= j < |rest| :: rest[j].obj != obj
  }

  ghost predicate Disciplined(w: Walk, ev: nat, script: seq<seq<Action>>)
    decreases |script|, if w.Walk? then |w.rest| + 1 else 0
  {
    w.Walk? && (w.rest == [] ||
      var n := w.rest[0];
      var w1 := Walk(w.done + [n], w.rest[1..]);
      if n.event != ev then Disciplined(w1, ev, script)
      else if script == [] then true
      else Polite(n.obj, w1.rest, script[0]) && (ActAll(w1, script[0]).Walk? ==> Disciplined(ActAll(w1, script[0]), ev, script[1..])))
  }

  /** Under the discipline the nodes still to be visited are only ever extended. */
  lemma {:induction false} PoliteExtends(w: Walk, base: seq<Reg>, obj: nat, acts: seq<Action>)
    requires w.Walk? && base <= w.rest && Polite(obj, base, acts) && (base == [] ==> w.rest == [])
    ensures var r := ActAll(w, acts); r.Walk? && base <= r.rest && (base == [] ==> r.rest == [])
    decreases |acts|
  {
    if acts != [] {
      var a := acts[0];
      if a.Remove? {
        var extra := w.rest[|base|..];
        assert w.rest == base + extra;
        WithoutConcat(base, extra, obj);
        WithoutNone(base, obj);
      }
      assert forall i | 0 <= i < |acts[1..]| :: acts[1..][i] == acts[i + 1];
      PoliteExtends(Act(w, a), base, obj, acts[1..]);
    }
  }

  lemma {:induction false} QuietProcess(w: Walk, ev: nat)
    requires w.Walk?
    ensures Process(w, ev, []) == Done(w.done + w.rest, Matching(w.rest, ev))
    decreases |w.rest|
  {
    if w.rest != [] {
      var w1 := Walk(w.done + [w.rest[0]], w.rest[1..]);
      QuietProcess(w1, ev);
      assert w1.done + w1.rest == w.done + w.rest;
    } else {
      assert w.done + w.rest == w.done;
    }
  }

  /** The calls of a disciplined dispatch begin with the registrations present at the start. */
  lemma {:induction false} DispatchPrefix(w: Walk, ev: nat, script: seq<seq<Action>>)
    requires Disciplined(w, ev, script)
    ensures var r := Process(w, ev, script); r.Done? && Matching(w.rest, ev) <= r.calls
    decreases |script|, |w.rest|
  {
    if w.rest != [] {
      var n := w.rest[0];
      var w1 := Walk(w.done + [n], w.rest[1..]);
      if n.event != ev {
        DispatchPrefix(w1, ev, script);
      } else if script == [] {
        QuietProcess(w1, ev);
      } else {
        var w2 := ActAll(w1, script[0]);
        PoliteExtends(w1, w1.rest, n.obj, script[0]);
        DispatchPrefix(w2, ev, script[1..]);
        var extra := w2.rest[|w1.rest|..];
        assert w2.rest == w1.rest + extra;
        MatchingConcat(w1.rest, extra, ev);
      }
    }
  }

  /** Disciplined callbacks: no freed node is read, and the calls are every registration for the
      event that was on the list at the start, exactly once and in list order, followed by
      registrations that callbacks appended for the event, each no more often than appended.
      If they append none for the event, the calls are exactly those of the start. */
  lemma DispatchSafe(w: Walk, ev: nat, script: seq<seq<Action>>)
    requires Disciplined(w, ev, script)
    ensures var r := Process(w, ev, script);
      && r.Done? && Matching(w.rest, ev) <= r.calls
      && (forall i | 0 <= i < |r.calls| :: r.calls[i].event == ev)
      && multiset(r.calls[|Matching(w.rest, ev)|..]) <= multiset(AppendedBy(script, |r.calls|))
      && ((forall a | a in AppendedBy(script, |r.calls|) :: a.event != ev) ==> r.calls == Matching(w.rest, ev))
  {
    DispatchPrefix(w, ev, script);
    var calls := Process(w, ev, script).calls;
    var m := Matching(w.rest, ev);
    var extra := calls[|m|..];
    assert calls == m + extra;
    forall r ensures Count(extra, r) <= Count(AppendedBy(script, |calls|), r) && (r.event != ev ==> Count(calls, r) == 0) {
      CalledCount(w, ev, script, r);
      ExtraCount(w.rest, extra, ev, script, r);
    }
    hide Process, Disciplined, Matching, AppendedBy;
    NoOthers(calls, ev);
    ExtraCalls(m, extra, AppendedBy(script, |calls|), ev);
  }

  lemma ExtraCount(rest: seq<Reg>, extra: seq<Reg>, ev: nat, script: seq<seq<Action>>, r: Reg)
    requires CallBounds(rest, Matching(rest, ev) + extra, ev, script, r)
    ensures Count(extra, r) <= Count(AppendedBy(script, |Matching(rest, ev) + extra|), r)
  {
    MatchingExact(rest, ev);
    CountConcat(Matching(rest, ev), extra, r);
  }

  lemma NoOthers(calls: seq<Reg>, ev: nat)
    requires forall r: Reg :: r.event != ev ==> Count(calls, r) == 0
    ensures forall i | 0 <= i < |calls| :: calls[i].event == ev
  {
    forall i | 0 <= i < |calls| ensures calls[i].event == ev {
      assert Count(calls, calls[i]) > 0;
    }
  }

  lemma ExtraCalls(m: seq<Reg>, extra: seq<Reg>, added: seq<Reg>, ev: nat)
    requires forall r: Reg :: Count(extra, r) <= Count(added, r)
    requires forall i | 0 <= i < |m + extra| :: (m + extra)[i].event == ev
    ensures multiset(extra) <= multiset(added)
    ensures (forall a | a in added :: a.event != ev) ==> m + extra == m
  {
    forall r: Reg ensures multiset(extra)[r] <= multiset(added)[r] {
      assert Count(extra, r) <= Count(added, r);
    }
    if extra != [] {
      assert extra[0] == (m + extra)[|m|];
      assert Count(extra, extra[0]) > 0;
      assert extra[0] in added;
    }
  }

  // ------------------------------------------------------------- one loop iteration

  ghost function NextWalk(w: Walk, ev: nat, script: seq<seq<Action>>): Walk
    requires w.Walk? && w.rest != []
  {
    var w1 := Walk(w.done + [w.rest[0]], w.rest[1..]);
    if w.rest[0].event != ev || script == [] then w1 else ActAll(w1, script[0])
  }

  ghost function NextScript(w: Walk, ev: nat, script: seq<seq<Action>>): seq<seq<Action>>
    requires w.Walk? && w.rest != []
  {
    if w.rest[0].event != ev || script == [] then script else script[1..]
  }

  ghost function Prepend(calls: seq<Reg>, o: Outcome): Outcome {
    if o.Done? then o.(calls := calls + o.calls) else o
  }

  lemma PrependTwice(a: seq<Reg>, b: seq<Reg>, o: Outcome)
    ensures Prepend(a, Prepend(b, o)) == Prepend(a + b, o)
  {
    if o.Done? {
      assert a + (b + o.calls) == (a + b) + o.calls;
    }
  }

  lemma ProcessStep(w: Walk, ev: nat, script: seq<seq<Action>>)
    requires w.Walk? && w.rest != [] && Process(w, ev, script).Done?
    ensures NextWalk(w, ev, script).Walk?
    ensures Process(NextWalk(w, ev, script), ev, NextScript(w, ev, script)).Done?
    ensures Process(w, ev, script) == Prepend(if w.rest[0].event == ev then [w.rest[0]] else [],
                                              Process(NextWalk(w, ev, script), ev, NextScript(w, ev, script)))
  {
    var o := Process(NextWalk(w, ev, script), ev, NextScript(w, ev, script));
    assert o.Done? ==> [] + o.calls == o.calls;
  }
}
