/** The fault registry and the single-slot result callback of a fault handle, as atomic steps: a
    starter runs StartOrJoin while the fault's own goroutine may already be sending its result. */
module Registry {
  import opened Base

  /** What Handle.onResult holds. */
  datatype Slot = Empty | Span | Callback

  /** How far StartOrJoin has got: the handle exists, the registry has counted the fault, the
      registry's callback is in the slot. */
  datatype Start = Begun | Counted | Registered

  /** How far the fault's Send has got.  Loaded is what it read from the slot. */
  datatype Sending = Running | Loaded(slot: Slot) | KeyFreed | Finished

  datatype Fault = Fault(key: string, dedup: bool, start: Start, slot: Slot, send: Sending)

  /** lock is the fault whose starter holds the registry's mutex. */
  datatype State = State(
    faults: map<nat, Fault>,
    active: map<string, nat>,
    lock: Option<nat>,
    wg: int)

  datatype Step =
    | Begin(f: nat, key: string, dedup: bool, fails: bool) // check active under the lock, run startFn
    | StoreSpan(f: nat)      // startFn: the span's SetOnResult
    | Count(f: nat)          // active[key] = f, wg.Add(1), unlock
    | Register(f: nat)       // the registry's SetOnResult
    | Load(f: nat)           // Send: read the slot
    | FreeKey(f: nat)        // registry callback: delete(active, key) under the lock
    | Done(f: nat)           // registry callback: wg.Done

  const INITIAL := State(map[], map[], None, 0)

  function BeginNext(s: State, f: nat, key: string, dedup: bool, fails: bool): State {
    if f in s.faults || fails then s
    else if !dedup then s.(faults := s.faults[f := Fault(key, false, Begun, Empty, Running)])
    else if s.lock.Some? || key in s.active then s
    else s.(faults := s.faults[f := Fault(key, true, Begun, Empty, Running)], lock := Some(f))
  }

  /** The effect of one step; a step that is not enabled changes nothing. */
  function Next(s: State, a: Step): State {
    if a.Begin? then BeginNext(s, a.f, a.key, a.dedup, a.fails)
    else if a.f !in s.faults then s
    else
      var x := s.faults[a.f];
      match a
      case StoreSpan(f) =>
        if x.start == Begun then s.(faults := s.faults[f := x.(slot := Span)]) else s
      case Count(f) =>
        if x.start != Begun then s
        else
          var s1 := s.(faults := s.faults[f := x.(start := Counted)], wg := s.wg + 1);
          if x.dedup then s1.(active := s.active[x.key := f], lock := None) else s1
      case Register(f) =>
        if x.start == Counted then s.(faults := s.faults[f := x.(start := Registered, slot := Callback)]) else s
      case Load(f) =>
        if x.send == Running then s.(faults := s.faults[f := x.(send := Loaded(x.slot))]) else s
      case FreeKey(f) =>
        if x.dedup && x.send == Loaded(Callback) && s.lock.None? then
          s.(faults := s.faults[f := x.(send := KeyFreed)], active := s.active - {x.key})
        else s
      case Done(f) =>
        if x.send == (if x.dedup then KeyFreed else Loaded(Callback)) then
          s.(faults := s.faults[f := x.(send := Finished)], wg := s.wg - 1)
        else s
  }

  function Run(steps: seq<Step>): State {
    if steps == [] then INITIAL else Next(Run(steps[..|steps| - 1]), steps[|steps| - 1])
  }

  // ---------------------------------------------------------------- invariants

  /** A deduplicated fault that owns its key: counted, and its key not yet freed. */
  predicate Owns(x: Fault) {
    x.dedup && x.start != Begun && x.send != KeyFreed && x.send != Finished
  }

  /** The send read the slot before the registry's callback was there: that callback never runs. */
  predicate Missed(x: Fault) {
    x.send == Loaded(Empty) || x.send == Loaded(Span)
  }

  predicate FaultOk(x: Fault) {
    && (x.slot == Callback <==> x.start == Registered)
    && (x.send == Loaded(Callback) || x.send == KeyFreed || x.send == Finished ==> x.start == Registered)
  }

  /** active holds exactly the owned keys, each for its owner. */
  ghost predicate ActiveExact(s: State) {
    && (forall k :: k in s.active ==>
          s.active[k] in s.faults && s.faults[s.active[k]].key == k && Owns(s.faults[s.active[k]]))
    && (forall f :: f in s.faults && Owns(s.faults[f]) ==>
          s.faults[f].key in s.active && s.active[s.faults[f].key] == f)
  }

  ghost predicate LockOk(s: State) {
    && (forall f :: f in s.faults && s.faults[f].dedup && s.faults[f].start == Begun ==> s.lock == Some(f))
    && (s.lock.Some? ==>
          && s.lock.value in s.faults
          && var x := s.faults[s.lock.value]; x.dedup && x.start == Begun && x.key !in s.active)
  }

  predicate Waits(x: Fault) { x.start != Begun && x.send != Finished }

  /** The faults the WaitGroup is waiting for. */
  function Waited(s: State): set<nat> {
    set f | f in s.faults && Waits(s.faults[f])
  }

  ghost predicate Inv(s: State) {
    && (forall f :: f in s.faults ==> FaultOk(s.faults[f]))
    && ActiveExact(s) && LockOk(s) && s.wg == |Waited(s)|
  }

  /** Only Count and Done change which faults are waited for. */
  lemma WaitedNext(s: State, a: Step)
    requires a.f in s.faults ==> FaultOk(s.faults[a.f])
    ensures var s' := Next(s, a);
            && (s'.wg == s.wg + 1 ==> Waited(s') == Waited(s) + {a.f} && a.f !in Waited(s))
            && (s'.wg == s.wg - 1 ==> Waited(s') == Waited(s) - {a.f} && a.f in Waited(s))
            && (s'.wg == s.wg ==> Waited(s') == Waited(s))
            && -1 <= s'.wg - s.wg <= 1
  {
  }

  lemma WaitedStep(s: State, a: Step)
    requires a.f in s.faults ==> FaultOk(s.faults[a.f])
    requires s.wg == |Waited(s)|
    ensures Next(s, a).wg == |Waited(Next(s, a))|
  {
    WaitedNext(s, a);
  }

  lemma BeginStep(s: State, a: Step)
    requires a.Begin? && ActiveExact(s) && LockOk(s)
    ensures ActiveExact(Next(s, a)) && LockOk(Next(s, a))
  {
  }

  lemma CountStep(s: State, f: nat)
    requires f in s.faults && FaultOk(s.faults[f]) && ActiveExact(s) && LockOk(s)
    ensures ActiveExact(Next(s, Count(f))) && LockOk(Next(s, Count(f)))
  {
    var x := s.faults[f];
    if x.start == Begun && x.dedup {
      assert s.lock == Some(f) && x.key !in s.active;
    }
  }

  lemma FreeStep(s: State, f: nat)
    requires f in s.faults && FaultOk(s.faults[f]) && ActiveExact(s) && LockOk(s)
    ensures ActiveExact(Next(s, FreeKey(f))) && LockOk(Next(s, FreeKey(f)))
  {
  }

  /** Steps that touch neither ownership nor the start of a deduplicated fault. */
  lemma QuietStep(s: State, a: Step)
    requires a.StoreSpan? || a.Register? || a.Load? || a.Done?
    requires a.f in s.faults && FaultOk(s.faults[a.f]) && ActiveExact(s) && LockOk(s)
    ensures ActiveExact(Next(s, a)) && LockOk(Next(s, a))
  {
    var s' := Next(s, a);
    var x, y := s.faults[a.f], s'.faults[a.f];
    assert s'.faults == s.faults[a.f := y] && s'.active == s.active && s'.lock == s.lock;
    assert y.key == x.key && y.dedup == x.dedup && (y.start == Begun <==> x.start == Begun) && (Owns(y) <==> Owns(x));
  }

  lemma ActiveStep(s: State, a: Step)
    requires forall f :: f in s.faults ==> FaultOk(s.faults[f])
    requires ActiveExact(s) && LockOk(s)
    ensures ActiveExact(Next(s, a)) && LockOk(Next(s, a))
  {
    if a.Begin? {
      BeginStep(s, a);
    } else if a.f in s.faults {
      match a
      case Count(f) => CountStep(s, f);
      case FreeKey(f) => FreeStep(s, f);
      case _ => QuietStep(s, a);
    }
  }

  lemma NextInv(s: State, a: Step)
    requires Inv(s)
    ensures Inv(Next(s, a))
  {
    WaitedStep(s, a);
    ActiveStep(s, a);
  }

  lemma {:induction false} RunInv(steps: seq<Step>)
    ensures Inv(Run(steps))
  {
    if steps != [] {
      RunInv(steps[..|steps| - 1]);
      NextInv(Run(steps[..|steps| - 1]), steps[|steps| - 1]);
    }
  }

  /** At most one deduplicated fault per key is running or has yet to give its key back. */
  lemma Exclusive(steps: seq<Step>, f: nat, g: nat)
    requires var s := Run(steps);
             && f in s.faults && g in s.faults && s.faults[f].key == s.faults[g].key
             && s.faults[f].dedup && s.faults[g].dedup
             && s.faults[f].send != KeyFreed && s.faults[f].send != Finished
             && s.faults[g].send != KeyFreed && s.faults[g].send != Finished
    ensures f == g
  {
    RunInv(steps);
    var s := Run(steps);
    assert s.faults[f].start == Begun || Owns(s.faults[f]);
    assert s.faults[g].start == Begun || Owns(s.faults[g]);
  }

  /** active holds exactly the keys of counted faults that are still running, whose callback is about
      to free them, or whose Send missed the callback; and the WaitGroup counts exactly the counted
      faults whose callback has not finished. */
  lemma ExactAccounting(steps: seq<Step>, k: string)
    ensures var s := Run(steps);
            && (k in s.active <==>
                  exists f :: f in s.faults && s.faults[f].key == k && s.faults[f].dedup && s.faults[f].start != Begun
                    && (s.faults[f].send == Running || s.faults[f].send == Loaded(Callback) || Missed(s.faults[f])))
            && s.wg == |Waited(s)| >= 0
  {
    RunInv(steps);
    var s := Run(steps);
    if k in s.active {
      var x := s.faults[s.active[k]];
      assert x.key == k && Owns(x);
    }
  }

  // ---------------------------------------------------------------- missed callbacks

  lemma MissedStays(s: State, a: Step, f: nat)
    requires f in s.faults && Missed(s.faults[f])
    ensures f in Next(s, a).faults && Missed(Next(s, a).faults[f])
    ensures Next(s, a).faults[f].key == s.faults[f].key && Next(s, a).faults[f].dedup == s.faults[f].dedup
    ensures s.faults[f].start != Begun ==> Next(s, a).faults[f].start != Begun
  {
  }

  lemma {:induction false} MissedForever(steps: seq<Step>, more: seq<Step>, f: nat)
    requires f in Run(steps).faults && Missed(Run(steps).faults[f]) && Run(steps).faults[f].start != Begun
    ensures var x, s := Run(steps).faults[f], Run(steps + more);
            && f in s.faults && Missed(s.faults[f]) && s.faults[f].start != Begun
            && s.faults[f].key == x.key && s.faults[f].dedup == x.dedup
    decreases |more|
  {
    if more == [] {
      assert steps + more == steps;
    } else {
      var n := |more| - 1;
      MissedForever(steps, more[..n], f);
      assert (steps + more)[..|steps + more| - 1] == steps + more[..n];
      MissedStays(Run(steps + more[..n]), more[n], f);
    }
  }

  /** A fault that completes before its starter has registered the callback keeps its key for ever:
      every later start under that key is joined to the dead fault, and Close never stops waiting. */
  lemma MissedKeyNeverFreed(steps: seq<Step>, more: seq<Step>, f: nat, g: nat)
    requires f in Run(steps).faults && Missed(Run(steps).faults[f]) && Run(steps).faults[f].start != Begun
    ensures var s := Run(steps + more);
            && s.wg >= 1
            && (Run(steps).faults[f].dedup ==>
                  var k := Run(steps).faults[f].key;
                  k in s.active && s.active[k] == f && Next(s, Begin(g, k, true, false)) == s)
  {
    MissedForever(steps, more, f);
    RunInv(steps + more);
    var s := Run(steps + more);
    assert f in Waited(s);
    if Run(steps).faults[f].dedup {
      assert Owns(s.faults[f]);
    }
  }

  /** Conversely a fault whose Send finds the callback frees its key and its count as soon as its two
      callback steps run with the mutex free. */
  lemma FoundKeyIsFreed(steps: seq<Step>, f: nat)
    requires f in Run(steps).faults && Run(steps).faults[f].dedup
    requires Run(steps).faults[f].send == Loaded(Callback) && Run(steps).lock.None?
    ensures var s := Run(steps);
            var s' := Next(Next(s, FreeKey(f)), Done(f));
            && s.faults[f].key !in s'.active && s'.wg == s.wg - 1
            && s'.active == s.active - {s.faults[f].key}
  {
  }

  /** The window is real: the fault may finish between Count and Register. */
  lemma MissedRun(k: string)
    ensures var s := Run([Begin(0, k, true, false), StoreSpan(0), Load(0), Count(0), Register(0)]);
            0 in s.faults && Missed(s.faults[0]) && s.faults[0].start == Registered && k in s.active
  {
    var a := [Begin(0, k, true, false)];
    var b := a + [StoreSpan(0)];
    var c := b + [Load(0)];
    var d := c + [Count(0)];
    RunSnoc([], a[0]);
    RunSnoc(a, StoreSpan(0));
    RunSnoc(b, Load(0));
    RunSnoc(c, Count(0));
    RunSnoc(d, Register(0));
    assert [] + [a[0]] == a;
    assert Run(a).faults[0] == Fault(k, true, Begun, Empty, Running);
    assert Run(c).faults[0] == Fault(k, true, Begun, Span, Loaded(Span));
    assert d + [Register(0)] == [Begin(0, k, true, false), StoreSpan(0), Load(0), Count(0), Register(0)];
  }

  lemma RunSnoc(steps: seq<Step>, a: Step)
    ensures Run(steps + [a]) == Next(Run(steps), a)
  {
  }

  /** Close may return exactly when every counted fault's callback has run to its end. */
  lemma CloseReturns(steps: seq<Step>)
    ensures Run(steps).wg == 0 <==>
            forall f :: f in Run(steps).faults && Run(steps).faults[f].start != Begun ==>
              Run(steps).faults[f].send == Finished
  {
    RunInv(steps);
    var s := Run(steps);
    if s.wg == 0 {
      forall f | f in s.faults && s.faults[f].start != Begun ensures s.faults[f].send == Finished {
        assert f !in Waited(s);
      }
    } else {
      assert Waited(s) != {};
      var f :| f in Waited(s);
    }
  }

  /** A start that fails leaves nothing behind, nor does one that joins; any other makes a running fault. */
  lemma BeginLaw(s: State, f: nat, key: string, dedup: bool)
    requires f !in s.faults
    ensures Next(s, Begin(f, key, dedup, true)) == s
    ensures dedup && key in s.active ==> Next(s, Begin(f, key, dedup, false)) == s
    ensures !dedup || (key !in s.active && s.lock.None?) ==>
              var s' := Next(s, Begin(f, key, dedup, false));
              && s'.faults == s.faults[f := Fault(key, dedup, Begun, Empty, Running)]
              && s'.active == s.active && s'.wg == s.wg
  {
  }

  // ---------------------------------------------------------------- the object

  /** The steps of an undisturbed start. */
  function StartCall(s: State, f: nat, key: string, dedup: bool): State {
    Next(Next(Next(Next(s, Begin(f, key, dedup, false)), StoreSpan(f)), Count(f)), Register(f))
  }

  lemma StartCallFacts(s: State, f: nat, key: string, dedup: bool)
    requires Inv(s) && s.lock.None? && f !in s.faults && (dedup ==> key !in s.active)
    ensures var s' := StartCall(s, f, key, dedup);
            && Inv(s') && s'.lock.None? && s'.wg == s.wg + 1
            && s'.active == (if dedup then s.active[key := f] else s.active)
            && s'.faults == s.faults[f := Fault(key, dedup, Registered, Callback, Running)]
  {
    var s1 := Next(s, Begin(f, key, dedup, false));
    var s2 := Next(s1, StoreSpan(f));
    var s3 := Next(s2, Count(f));
    assert s1.faults == s.faults[f := Fault(key, dedup, Begun, Empty, Running)];
    assert s2.faults == s.faults[f := Fault(key, dedup, Begun, Span, Running)];
    assert s3.faults == s.faults[f := Fault(key, dedup, Counted, Span, Running)];
    assert Inv(StartCall(s, f, key, dedup)) by {
      NextInv(s, Begin(f, key, dedup, false));
      NextInv(s1, StoreSpan(f));
      NextInv(s2, Count(f));
      NextInv(s3, Register(f));
    }
  }

  class FaultRegistry {
    var active: map<string, nat>
    var wg: int
    ghost var state: State

    /** Between undisturbed calls the mutex is free. */
    ghost predicate Valid()
      reads this
    {
      Inv(state) && state.lock.None? && active == state.active && wg == state.wg
    }

    constructor ()
      ensures Valid() && state == INITIAL
    {
      active, wg, state := map[], 0, INITIAL;
    }

    /** StartOrJoin run without interruption: f is the handle startFn makes, if it does not fail. */
    method StartOrJoin(key: string, dedup: bool, f: nat, fails: bool) returns (started: bool, joined: bool)
      requires Valid() && f !in state.faults
      modifies this
      ensures Valid()
      ensures joined <==> dedup && key in old(active)
      ensures started <==> !joined && !fails
      ensures state == if started then StartCall(old(state), f, key, dedup) else old(state)
      ensures started ==> wg == old(wg) + 1 && active == if dedup then old(active)[key := f] else old(active)
      ensures !started ==> wg == old(wg) && active == old(active)
    {
      if dedup && key in active {
        return false, true;
      }
      if fails {
        return false, false;
      }
      StartCallFacts(state, f, key, dedup);
      state := StartCall(state, f, key, dedup);
      if dedup {
        active := active[key := f];
      }
      wg := wg + 1;
      return true, false;
    }

    /** Send on a registered handle; key and dedup are what its callback closed over. */
    method Send(f: nat, key: string, dedup: bool)
      requires Valid() && f in state.faults
      requires state.faults[f] == Fault(key, dedup, Registered, Callback, Running)
      modifies this
      ensures Valid()
      ensures f in state.faults && state.faults[f].send == Finished && wg == old(wg) - 1
      ensures active == if dedup then old(active) - {key} else old(active)
    {
      ghost var s1 := Next(state, Load(f));
      ghost var s2 := Next(s1, FreeKey(f));
      NextInv(state, Load(f));
      NextInv(s1, FreeKey(f));
      NextInv(s2, Done(f));
      if dedup {
        active := active - {key};
      }
      state := Next(s2, Done(f));
      wg := wg - 1;
    }
  }
}
