/**
 * `setupMutationObserver` and `stopMutationObserver`: re-running detection
 * after the page changes, debounced by two seconds.
 *
 * Time is a discrete clock in milliseconds. Every `setupMutationObserver`
 * call starts a new subscription with its own `debounceTimer`; a DOM
 * mutation seen by the connected observer cancels that subscription's
 * pending timer and schedules a new one. Disconnecting an observer stops
 * its mutations but cancels no timer.
 *
 * What a timer runs when it fires (the job: the fingerprints and callback
 * the setup call captured) does not affect the timing, so it is a type
 * parameter here; the `Rescan` module gives it meaning.
 */
module Debounce {
  import opened Wrappers
  import opened Seqs

  /** The `setTimeout` delay of a rescan. */
  const DebounceMs: int := 2000

  /** A connected observer: its subscription and the job its timers run. */
  datatype Observer<J> = Observer(sub: nat, job: J)

  /** A pending timer of subscription `sub`, due at `due`. */
  datatype Timer<J> = Timer(sub: nat, due: int, job: J)

  /**
   * The controller: the clock, the number of the next subscription, the
   * connected observer (`this.mutationObserver`), and the pending timers in
   * the order they were scheduled.
   */
  datatype Controller<J> = Controller(now: int, nextSub: nat, observer: Option<Observer<J>>, pending: seq<Timer<J>>)

  /** What can happen at a moment: a setup call with its job, a DOM mutation, a stop call. */
  datatype Event<J> = Setup(job: J) | Mutation | Stop

  datatype Input<J> = Input(at: int, event: Event<J>)

  /** A detector that has no observer and no pending timer. */
  function Start<J>(t: int): (c: Controller<J>)
    ensures Inv(c)
  {
    Controller(t, 0, None, [])
  }

  /** Timers are held in order of their due times. */
  predicate SortedByDue<J>(ts: seq<Timer<J>>)
  {
    forall i, j :: 0 <= i < j < |ts| ==> ts[i].due <= ts[j].due
  }

  /** A subscription has at most one pending timer. */
  predicate OnePerSub<J>(ts: seq<Timer<J>>)
  {
    forall i, j :: 0 <= i < j < |ts| ==> ts[i].sub != ts[j].sub
  }

  /** Every timer is due after `lo` and no later than `hi`. */
  predicate DueWithin<J>(ts: seq<Timer<J>>, lo: int, hi: int)
  {
    forall i :: 0 <= i < |ts| ==> lo < ts[i].due <= hi
  }

  /** Every timer belongs to a subscription numbered below `n`. */
  predicate SubsBelow<J>(ts: seq<Timer<J>>, n: nat)
  {
    forall i :: 0 <= i < |ts| ==> ts[i].sub < n
  }

  /**
   * What every reachable controller satisfies: pending timers are due
   * within the next two seconds, in due order, one per subscription, and
   * belong to subscriptions already started.
   */
  predicate Inv<J>(c: Controller<J>)
  {
    && SortedByDue(c.pending)
    && OnePerSub(c.pending)
    && DueWithin(c.pending, c.now, c.now + DebounceMs)
    && SubsBelow(c.pending, c.nextSub)
    && (c.observer.Some? ==> c.observer.value.sub < c.nextSub)
  }

  /** `clearTimeout(debounceTimer)`: drops the pending timer of `sub`, if any. */
  function Cancel<J>(ts: seq<Timer<J>>, sub: nat): seq<Timer<J>>
  {
    if |ts| == 0 then []
    else if ts[0].sub == sub then Cancel(ts[1..], sub)
    else [ts[0]] + Cancel(ts[1..], sub)
  }

  /** `Cancel` keeps exactly the timers of other subscriptions. */
  lemma {:induction false} CancelIn<J>(ts: seq<Timer<J>>, sub: nat)
    ensures forall i :: 0 <= i < |Cancel(ts, sub)| ==> Cancel(ts, sub)[i] in ts && Cancel(ts, sub)[i].sub != sub
    ensures forall i :: 0 <= i < |ts| && ts[i].sub != sub ==> ts[i] in Cancel(ts, sub)
  {
    if |ts| > 0 {
      CancelIn(ts[1..], sub);
      var rest := Cancel(ts[1..], sub);
      var r := Cancel(ts, sub);
      assert forall i :: 0 < i < |ts| ==> ts[i] == ts[1..][i - 1];
      assert forall x :: x in rest ==> x in r;
      assert forall x :: x in ts[1..] ==> x in ts;
    }
  }

  /** Every timer left by `Cancel` is one of the list's, so bounds on the list carry over. */
  lemma CancelWithin<J>(ts: seq<Timer<J>>, sub: nat, lo: int, hi: int, n: nat)
    requires DueWithin(ts, lo, hi) && SubsBelow(ts, n)
    ensures DueWithin(Cancel(ts, sub), lo, hi) && SubsBelow(Cancel(ts, sub), n)
  {
    var r := Cancel(ts, sub);
    CancelIn(ts, sub);
    forall i | 0 <= i < |r| ensures lo < r[i].due <= hi && r[i].sub < n {
      var j :| 0 <= j < |ts| && ts[j] == r[i];
    }
  }

  /** Cancelling keeps the remaining timers in order and one per subscription. */
  lemma {:induction false} CancelKeepsShape<J>(ts: seq<Timer<J>>, sub: nat)
    ensures SortedByDue(ts) ==> SortedByDue(Cancel(ts, sub))
    ensures OnePerSub(ts) ==> OnePerSub(Cancel(ts, sub))
  {
    if |ts| > 0 {
      CancelKeepsShape(ts[1..], sub);
      CancelIn(ts[1..], sub);
      var rest := Cancel(ts[1..], sub);
      if ts[0].sub != sub {
        var r := [ts[0]] + rest;
        assert Cancel(ts, sub) == r;
        forall j | 0 < j < |r| ensures exists m :: 0 < m < |ts| && ts[m] == r[j] {
          assert r[j] == rest[j - 1];
          var m :| 0 <= m < |ts[1..]| && ts[1..][m] == r[j];
          assert ts[m + 1] == r[j];
        }
      }
    }
  }

  /** The timers due by `t` lead the list. */
  function DueCount<J>(ts: seq<Timer<J>>, t: int): (k: nat)
    ensures k <= |ts|
    ensures forall i :: 0 <= i < k ==> ts[i].due <= t
    ensures k < |ts| ==> ts[k].due > t
  {
    if |ts| == 0 || ts[0].due > t then 0 else 1 + DueCount(ts[1..], t)
  }

  /**
   * Letting the clock run to `t`: the timers due by then fire, in due
   * order, and the others stay pending. The result is the controller and
   * the timers that fired.
   */
  function Advance<J>(c: Controller<J>, t: int): (r: (Controller<J>, seq<Timer<J>>))
    ensures r.0.now == t && r.0.nextSub == c.nextSub && r.0.observer == c.observer
    ensures forall i :: 0 <= i < |r.1| ==> r.1[i].due <= t
  {
    var k := DueCount(c.pending, t);
    (c.(now := t, pending := c.pending[k..]), c.pending[..k])
  }

  /** Letting the clock run forward keeps the invariant: what stays pending is due after the new time. */
  lemma AdvanceInv<J>(c: Controller<J>, t: int)
    requires Inv(c) && c.now <= t
    ensures Inv(Advance(c, t).0)
  {
    var ts := c.pending;
    var k := DueCount(ts, t);
    SuffixKeepsShape(ts, k, c.nextSub, c.now + DebounceMs);
    SuffixDueAfter(ts, k, t);
  }

  /** A suffix of a timer list keeps its order, one timer per subscription, and its bounds. */
  lemma SuffixKeepsShape<J>(ts: seq<Timer<J>>, k: nat, n: nat, hi: int)
    requires k <= |ts| && SortedByDue(ts) && OnePerSub(ts) && SubsBelow(ts, n)
    requires forall i :: 0 <= i < |ts| ==> ts[i].due <= hi
    ensures SortedByDue(ts[k..]) && OnePerSub(ts[k..]) && SubsBelow(ts[k..], n)
    ensures forall i :: 0 <= i < |ts[k..]| ==> ts[k..][i].due <= hi
  {
    var rest := ts[k..];
    forall i, j | 0 <= i < j < |rest| ensures rest[i].due <= rest[j].due && rest[i].sub != rest[j].sub {
      assert rest[i] == ts[k + i] && rest[j] == ts[k + j];
    }
    forall i | 0 <= i < |rest| ensures rest[i].sub < n && rest[i].due <= hi {
      assert rest[i] == ts[k + i];
    }
  }

  /** In a list in due order, what follows the timers due by `t` is due after `t`. */
  lemma SuffixDueAfter<J>(ts: seq<Timer<J>>, k: nat, t: int)
    requires SortedByDue(ts) && k == DueCount(ts, t)
    ensures forall i :: 0 <= i < |ts[k..]| ==> t < ts[k..][i].due
  {
    var rest := ts[k..];
    forall i | 0 <= i < |rest| ensures t < rest[i].due {
      assert rest[i] == ts[k + i] && rest[0] == ts[k];
    }
  }


  /** The timers that fire and those that stay pending make up the pending list, in order. */
  lemma AdvanceSplits<J>(c: Controller<J>, t: int)
    ensures c.pending == Advance(c, t).1 + Advance(c, t).0.pending
  {
    var k := DueCount(c.pending, t);
    assert c.pending == c.pending[..k] + c.pending[k..];
  }

  /** The effect of an event at the current time. */
  function Apply<J>(c: Controller<J>, ev: Event<J>): (r: Controller<J>)
    ensures r.now == c.now
    ensures ev.Setup? ==> r.nextSub == c.nextSub + 1
    ensures !ev.Setup? ==> r.nextSub == c.nextSub
  {
    match ev
    case Setup(job) =>
      c.(nextSub := c.nextSub + 1, observer := Some(Observer(c.nextSub, job)))
    case Mutation =>
      if c.observer.None? then c
      else Reschedule(c, c.observer.value)
    case Stop =>
      c.(observer := None)
  }

  /** The observer's mutation callback: its timer is replaced by one due two seconds from now. */
  function Reschedule<J>(c: Controller<J>, o: Observer<J>): (r: Controller<J>)
    ensures r.now == c.now && r.nextSub == c.nextSub && r.observer == c.observer
  {
    c.(pending := Cancel(c.pending, o.sub) + [Timer(o.sub, c.now + DebounceMs, o.job)])
  }

  /** Rescheduling the connected observer's timer keeps the invariant. */
  lemma RescheduleInv<J>(c: Controller<J>, o: Observer<J>)
    requires Inv(c) && c.observer == Some(o)
    ensures Inv(Reschedule(c, o))
  {
    CancelIn(c.pending, o.sub);
    CancelKeepsShape(c.pending, o.sub);
    CancelWithin(c.pending, o.sub, c.now, c.now + DebounceMs, c.nextSub);
  }

  /** Every event keeps the invariant. */
  lemma ApplyInv<J>(c: Controller<J>, ev: Event<J>)
    requires Inv(c)
    ensures Inv(Apply(c, ev))
  {
    if ev.Mutation? && c.observer.Some? {
      RescheduleInv(c, c.observer.value);
    }
  }

  /** One input: the clock runs to its time, then the event happens. */
  function Step<J>(c: Controller<J>, inp: Input<J>): (r: (Controller<J>, seq<Timer<J>>))
    ensures r.0.now == inp.at
  {
    var (c1, fired) := Advance(c, inp.at);
    (Apply(c1, inp.event), fired)
  }

  /** Inputs whose times never go back, starting no earlier than `t`. */
  predicate Chronological<J>(t: int, inputs: seq<Input<J>>)
  {
    && (|inputs| > 0 ==> t <= inputs[0].at)
    && forall i :: 0 <= i < |inputs| - 1 ==> inputs[i].at <= inputs[i + 1].at
  }

  /** A run of inputs, with the timers that fired along the way, in firing order. */
  function Run<J>(c: Controller<J>, inputs: seq<Input<J>>): (r: (Controller<J>, seq<Timer<J>>))
    ensures |inputs| > 0 ==> r.0.now == inputs[|inputs| - 1].at
    decreases |inputs|
  {
    if |inputs| == 0 then (c, [])
    else
      var (c1, f1) := Step(c, inputs[0]);
      var (c2, f2) := Run(c1, inputs[1..]);
      (c2, f1 + f2)
  }

  /** A step forward in time keeps the invariant. */
  lemma StepInv<J>(c: Controller<J>, inp: Input<J>)
    requires Inv(c) && c.now <= inp.at
    ensures Inv(Step(c, inp).0)
  {
    AdvanceInv(c, inp.at);
    ApplyInv(Advance(c, inp.at).0, inp.event);
  }

  /** Every controller reached from a valid one by inputs in chronological order is valid. */
  lemma {:induction false} RunInv<J>(c: Controller<J>, inputs: seq<Input<J>>)
    requires Inv(c) && Chronological(c.now, inputs)
    ensures Inv(Run(c, inputs).0)
    decreases |inputs|
  {
    if |inputs| > 0 {
      StepInv(c, inputs[0]);
      var rest := inputs[1..];
      assert forall i :: 0 <= i < |rest| ==> rest[i] == inputs[i + 1];
      RunInv(Step(c, inputs[0]).0, rest);
    }
  }

  /**
   * Setting up replaces the connected observer by one with a fresh
   * subscription; from then on mutations reschedule only the new
   * subscription's timer. Timers already pending are kept.
   */
  lemma SetupReplaces<J>(c: Controller<J>, job: J)
    requires Inv(c)
    ensures var r := Apply(c, Setup(job));
      && r.observer == Some(Observer(c.nextSub, job))
      && r.pending == c.pending
      && forall i :: 0 <= i < |c.pending| ==> c.pending[i].sub != c.nextSub
    ensures var m := Apply(Apply(c, Setup(job)), Mutation);
      forall tm: Timer<J> :: tm.sub != c.nextSub ==> (tm in m.pending <==> tm in c.pending)
  {
    var r := Apply(c, Setup(job));
    ApplyInv(c, Setup(job));
    MutationReschedules(r);
  }

  /**
   * A mutation seen by the connected observer leaves its subscription
   * exactly one timer, due two seconds from now and last in line; the
   * other timers stay as they were.
   */
  lemma MutationReschedules<J>(c: Controller<J>)
    requires Inv(c) && c.observer.Some?
    ensures var o := c.observer.value; var r := Apply(c, Mutation);
      && |r.pending| > 0
      && r.pending[|r.pending| - 1] == Timer(o.sub, c.now + DebounceMs, o.job)
      && (forall k :: 0 <= k < |r.pending| - 1 ==> r.pending[k].sub != o.sub)
      && (forall tm: Timer<J> :: tm.sub != o.sub ==> (tm in r.pending <==> tm in c.pending))
  {
    var o := c.observer.value;
    var r := Apply(c, Mutation);
    var kept := Cancel(c.pending, o.sub);
    var tm := Timer(o.sub, c.now + DebounceMs, o.job);
    CancelIn(c.pending, o.sub);
    assert r.pending == kept + [tm];
    forall k | 0 <= k < |r.pending| - 1 ensures r.pending[k].sub != o.sub {
      assert r.pending[k] == kept[k];
    }
    forall x: Timer<J> | x.sub != o.sub ensures x in r.pending <==> x in c.pending {
      if x in r.pending {
        var k :| 0 <= k < |r.pending| && r.pending[k] == x;
        assert k < |kept| && kept[k] == x;
      }
    }
  }

  /** Without a connected observer, a mutation changes nothing. */
  lemma MutationUnobserved<J>(c: Controller<J>)
    requires Inv(c) && c.observer.None?
    ensures Apply(c, Mutation) == c
  {
  }

  /**
   * Stopping disconnects the observer and cancels no timer; with no
   * observer connected it is a no-op.
   */
  lemma StopKeepsTimers<J>(c: Controller<J>)
    requires Inv(c)
    ensures Apply(c, Stop).observer.None? && Apply(c, Stop).pending == c.pending
    ensures c.observer.None? ==> Apply(c, Stop) == c
  {
  }

  /** Letting the clock run to `t` fires exactly the pending timers due by `t`. */
  lemma AdvanceFires<J>(c: Controller<J>, t: int, tm: Timer<J>)
    requires Inv(c) && c.now <= t && tm in c.pending
    ensures tm in Advance(c, t).1 <==> tm.due <= t
  {
    var a := Advance(c, t);
    AdvanceSplits(c, t);
    assert tm in a.1 || tm in a.0.pending;
    if tm in a.0.pending {
      var j :| 0 <= j < |a.0.pending| && a.0.pending[j] == tm;
      assert tm.due > t;
    }
    if tm in a.1 {
      var j :| 0 <= j < |a.1| && a.1[j] == tm;
      assert tm.due <= t;
    }
  }

  /** A timer pending when the observer is stopped still fires when it is due. */
  lemma StoppedTimerFires<J>(c: Controller<J>, t: int, tm: Timer<J>)
    requires Inv(c) && c.now <= t && tm in c.pending && t < tm.due
    ensures var s := Step(c, Input(t, Stop)).0;
      && s.observer.None?
      && tm in s.pending
      && tm in Advance(s, tm.due).1
  {
    var a := Advance(c, t);
    AdvanceFires(c, t, tm);
    AdvanceSplits(c, t);
    var s := Step(c, Input(t, Stop)).0;
    assert s.pending == a.0.pending;
    StepInv(c, Input(t, Stop));
    AdvanceFires(s, tm.due, tm);
  }

  /** Mutation inputs whose times never go back and are less than two seconds apart. */
  predicate Burst<J>(inputs: seq<Input<J>>)
  {
    && (forall i :: 0 <= i < |inputs| ==> inputs[i].event.Mutation?)
    && (forall i :: 0 <= i < |inputs| - 1 ==> inputs[i].at <= inputs[i + 1].at < inputs[i].at + DebounceMs)
  }

  /** When nothing is due by `t`, letting the clock run to `t` only moves the clock. */
  lemma AdvanceNothingDue<J>(c: Controller<J>, t: int)
    requires |c.pending| == 0 || t < c.pending[0].due
    ensures Advance(c, t) == (c.(now := t), [])
  {
    assert DueCount(c.pending, t) == 0;
    assert c.pending[0..] == c.pending;
  }

  /** Every timer of a list due by `t` counts as due. */
  lemma {:induction false} DueCountAll<J>(ts: seq<Timer<J>>, t: int)
    requires forall i :: 0 <= i < |ts| ==> ts[i].due <= t
    ensures DueCount(ts, t) == |ts|
  {
    if |ts| > 0 {
      DueCountAll(ts[1..], t);
    }
  }

  /** When everything is due by `t`, everything fires. */
  lemma AdvanceAllDue<J>(c: Controller<J>, t: int)
    requires forall i :: 0 <= i < |c.pending| ==> c.pending[i].due <= t
    ensures Advance(c, t) == (c.(now := t, pending := []), c.pending)
  {
    DueCountAll(c.pending, t);
    assert c.pending[..|c.pending|] == c.pending;
    assert c.pending[|c.pending|..] == [];
  }

  /** Cancelling a subscription's timers from a list holding only its timers leaves nothing. */
  lemma {:induction false} CancelOnly<J>(ts: seq<Timer<J>>, sub: nat)
    requires forall i :: 0 <= i < |ts| ==> ts[i].sub == sub
    ensures Cancel(ts, sub) == []
  {
    if |ts| > 0 {
      CancelOnly(ts[1..], sub);
    }
  }

  /** The replacement timer of a subscription that had no other. */
  lemma RescheduleAlone<J>(c: Controller<J>, o: Observer<J>)
    requires forall i :: 0 <= i < |c.pending| ==> c.pending[i].sub == o.sub
    ensures Reschedule(c, o) == c.(pending := [Timer(o.sub, c.now + DebounceMs, o.job)])
  {
    CancelOnly(c.pending, o.sub);
    assert [] + [Timer(o.sub, c.now + DebounceMs, o.job)] == [Timer(o.sub, c.now + DebounceMs, o.job)];
  }

  /** A step is the clock running to the input's time, then the event. */
  lemma StepIs<J>(c: Controller<J>, inp: Input<J>)
    ensures Step(c, inp) == (Apply(Advance(c, inp.at).0, inp.event), Advance(c, inp.at).1)
  {
  }

  /** A mutation at `t` when only the observer's own timer, due after `t`, may be pending. */
  lemma BurstStep<J>(c: Controller<J>, o: Observer<J>, t: int)
    requires c.observer == Some(o)
    requires |c.pending| == 0 || (|c.pending| == 1 && c.pending[0].sub == o.sub && t < c.pending[0].due)
    ensures Step(c, Input(t, Mutation)) ==
      (c.(now := t, pending := [Timer(o.sub, t + DebounceMs, o.job)]), [])
  {
    StepIs(c, Input(t, Mutation));
    AdvanceNothingDue(c, t);
    var c1 := c.(now := t);
    assert forall i :: 0 <= i < |c1.pending| ==> c1.pending[i].sub == o.sub;
    RescheduleAlone(c1, o);
    assert Apply(c1, Mutation) == Reschedule(c1, o);
    assert Advance(c, t).0 == c1;
  }

  /**
   * During a burst the observer's subscription keeps exactly one timer,
   * due two seconds after the latest mutation, and nothing fires.
   */
  lemma {:induction false} BurstPending<J>(c: Controller<J>, o: Observer<J>, inputs: seq<Input<J>>)
    requires c.observer == Some(o) && |inputs| > 0 && Burst(inputs)
    requires |c.pending| == 0 || (|c.pending| == 1 && c.pending[0].sub == o.sub && inputs[0].at < c.pending[0].due)
    ensures var last := inputs[|inputs| - 1].at;
      Run(c, inputs) == (c.(now := last, pending := [Timer(o.sub, last + DebounceMs, o.job)]), [])
    decreases |inputs|
  {
    var t := inputs[0].at;
    assert inputs[0] == Input(t, Mutation);
    BurstStep(c, o, t);
    var c1 := c.(now := t, pending := [Timer(o.sub, t + DebounceMs, o.job)]);
    RunQuietStart(c, inputs, c1);
    if |inputs| > 1 {
      BurstTail(inputs);
      BurstPending(c1, o, inputs[1..]);
    } else {
      assert inputs[1..] == [];
    }
  }

  /** What remains of a burst after its first mutation. */
  lemma BurstTail<J>(inputs: seq<Input<J>>)
    requires |inputs| > 1 && Burst(inputs)
    ensures Burst(inputs[1..]) && inputs[0].at <= inputs[1].at < inputs[0].at + DebounceMs
  {
    var rest := inputs[1..];
    forall i | 0 <= i < |rest| - 1 ensures rest[i].at <= rest[i + 1].at < rest[i].at + DebounceMs {
      assert rest[i] == inputs[i + 1] && rest[i + 1] == inputs[i + 2];
    }
  }

  /** A run whose first step fires nothing is the run from the state after that step. */
  lemma RunQuietStart<J>(c: Controller<J>, inputs: seq<Input<J>>, c1: Controller<J>)
    requires |inputs| > 0 && Step(c, inputs[0]) == (c1, [])
    ensures Run(c, inputs) == Run(c1, inputs[1..])
  {
    assert [] + Run(c1, inputs[1..]).1 == Run(c1, inputs[1..]).1;
  }

  /**
   * A burst of mutations less than two seconds apart, on a controller with
   * nothing pending, fires once, two seconds after the last mutation, with
   * the observer's job; nothing fires during it.
   */
  lemma BurstFiresOnce<J>(c: Controller<J>, o: Observer<J>, inputs: seq<Input<J>>, t: int)
    requires c.observer == Some(o) && c.pending == []
    requires |inputs| > 0 && Burst(inputs)
    requires inputs[|inputs| - 1].at + DebounceMs <= t
    ensures var (c1, during) := Run(c, inputs);
      && during == []
      && Advance(c1, t).1 == [Timer(o.sub, inputs[|inputs| - 1].at + DebounceMs, o.job)]
      && Advance(c1, t).0 == c.(now := t)
  {
    BurstPending(c, o, inputs);
    var last := inputs[|inputs| - 1].at;
    var tm := Timer(o.sub, last + DebounceMs, o.job);
    var c1 := c.(now := last, pending := [tm]);
    assert Run(c, inputs).0 == c1;
    assert forall i :: 0 <= i < |c1.pending| ==> c1.pending[i].due <= t;
    AdvanceAllDue(c1, t);
  }

  /** A mutation at `t` once the observer's own timer is due: the timer fires and a new one is set. */
  lemma QuietStep<J>(c: Controller<J>, o: Observer<J>, t: int)
    requires c.observer == Some(o)
    requires |c.pending| == 1 && c.pending[0].sub == o.sub && c.pending[0].due <= t
    ensures Step(c, Input(t, Mutation)) ==
      (c.(now := t, pending := [Timer(o.sub, t + DebounceMs, o.job)]), c.pending)
  {
    StepIs(c, Input(t, Mutation));
    AdvanceAllDue(c, t);
    var c1 := c.(now := t, pending := []);
    RescheduleAlone(c1, o);
    assert Apply(c1, Mutation) == Reschedule(c1, o);
  }

  /** A run whose first step fires `f` fires `f`, then what the rest of the run fires. */
  lemma RunStart<J>(c: Controller<J>, inputs: seq<Input<J>>, c1: Controller<J>, f: seq<Timer<J>>)
    requires |inputs| > 0 && Step(c, inputs[0]) == (c1, f)
    ensures Run(c, inputs) == (Run(c1, inputs[1..]).0, f + Run(c1, inputs[1..]).1)
  {
  }

  /**
   * Running two input lists one after the other is running their
   * concatenation: the second starts from where the first left off, and
   * the timers fired are those of the first, then those of the second.
   */
  lemma {:induction false} RunAppend<J>(c: Controller<J>, a: seq<Input<J>>, b: seq<Input<J>>)
    ensures var (ca, fa) := Run(c, a);
      Run(c, a + b) == (Run(ca, b).0, fa + Run(ca, b).1)
    decreases |a|
  {
    if |a| == 0 {
      assert a + b == b;
      ConcatEmpty(Run(c, b).1);
    } else {
      var (c1, f1) := Step(c, a[0]);
      assert (a + b)[0] == a[0] && (a + b)[1..] == a[1..] + b;
      RunStart(c, a + b, c1, f1);
      RunStart(c, a, c1, f1);
      RunAppend(c1, a[1..], b);
      var (ca, fa) := Run(c1, a[1..]);
      ConcatAssoc(f1, fa, Run(ca, b).1);
    }
  }

  /**
   * A burst that starts once the observer's earlier timer is due: that
   * timer fires at the burst's first mutation, and the burst then leaves
   * one timer, two seconds after its last mutation.
   */
  lemma BurstAfterQuiet<J>(c: Controller<J>, o: Observer<J>, inputs: seq<Input<J>>)
    requires c.observer == Some(o) && |inputs| > 0 && Burst(inputs)
    requires |c.pending| == 1 && c.pending[0].sub == o.sub && c.pending[0].due <= inputs[0].at
    ensures var last := inputs[|inputs| - 1].at;
      Run(c, inputs) == (c.(now := last, pending := [Timer(o.sub, last + DebounceMs, o.job)]), c.pending)
  {
    var t := inputs[0].at;
    assert inputs[0] == Input(t, Mutation);
    QuietStep(c, o, t);
    var c1 := c.(now := t, pending := [Timer(o.sub, t + DebounceMs, o.job)]);
    RunStart(c, inputs, c1, c.pending);
    var rest := inputs[1..];
    if |rest| > 0 {
      BurstTail(inputs);
      BurstPending(c1, o, rest);
      assert rest[|rest| - 1] == inputs[|inputs| - 1];
    } else {
      assert Run(c1, rest) == (c1, []);
    }
    assert c.pending + [] == c.pending;
  }

  /**
   * Over two bursts separated by at least two seconds of quiet, the first
   * burst's timer fires when the second burst begins, and the second
   * burst leaves its own timer pending.
   */
  lemma TwoBurstsRun<J>(c: Controller<J>, o: Observer<J>, b1: seq<Input<J>>, b2: seq<Input<J>>)
    requires c.observer == Some(o) && c.pending == []
    requires |b1| > 0 && Burst(b1) && |b2| > 0 && Burst(b2)
    requires b1[|b1| - 1].at + DebounceMs <= b2[0].at
    ensures var last1 := b1[|b1| - 1].at;
      var last2 := b2[|b2| - 1].at;
      Run(c, b1 + b2) ==
        (c.(now := last2, pending := [Timer(o.sub, last2 + DebounceMs, o.job)]),
         [Timer(o.sub, last1 + DebounceMs, o.job)])
  {
    var last1 := b1[|b1| - 1].at;
    var c1 := c.(now := last1, pending := [Timer(o.sub, last1 + DebounceMs, o.job)]);
    assert Run(c, b1) == (c1, []) by {
      BurstPending(c, o, b1);
    }
    BurstAfterQuiet(c1, o, b2);
    RunAppend(c, b1, b2);
    ConcatEmpty(c1.pending);
  }

  /**
   * Two bursts separated by at least two seconds of quiet fire twice: the
   * first burst's timer fires when the second burst begins, and the second
   * burst's timer once its own quiet period is over.
   */
  lemma TwoBurstsFireTwice<J>(c: Controller<J>, o: Observer<J>, b1: seq<Input<J>>, b2: seq<Input<J>>, t: int)
    requires c.observer == Some(o) && c.pending == []
    requires |b1| > 0 && Burst(b1) && |b2| > 0 && Burst(b2)
    requires b1[|b1| - 1].at + DebounceMs <= b2[0].at
    requires b2[|b2| - 1].at + DebounceMs <= t
    ensures var (c2, during) := Run(c, b1 + b2);
      && during == [Timer(o.sub, b1[|b1| - 1].at + DebounceMs, o.job)]
      && Advance(c2, t).1 == [Timer(o.sub, b2[|b2| - 1].at + DebounceMs, o.job)]
      && Advance(c2, t).0 == c.(now := t)
  {
    TwoBurstsRun(c, o, b1, b2);
    var last2 := b2[|b2| - 1].at;
    var c2 := c.(now := last2, pending := [Timer(o.sub, last2 + DebounceMs, o.job)]);
    assert c2.pending[0].due <= t;
    AdvanceAllDue(c2, t);
  }
}
