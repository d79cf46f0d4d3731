/** The asynchronous recorder: a bounded queue between request paths and one drain goroutine, as a
    system of atomic steps that any scheduler may interleave. */
module Recorders {
  import opened Base
  import Lru
  import opened RequestKey
  import opened MemStores

  datatype Record = Record(
    request: Request,
    requestBody: seq<byte>,
    statusCode: int,
    responseHeader: Option<Header>,
    responseBody: seq<byte>,
    observedLatency: int,
    timestamp: int)

  type KeyFn = (Request, seq<byte>) -> string

  /** The entry the drain goroutine builds from a record. */
  function EntryOf(keyFn: KeyFn, rec: Record): Entry {
    Entry(keyFn(rec.request, rec.requestBody), rec.statusCode, rec.responseHeader, rec.responseBody,
          rec.observedLatency, rec.timestamp)
  }

  datatype Config = Config(store: Lru.Config, keyFn: KeyFn, bufSize: nat)

  /** NewRecorder's default for a missing buffer size. */
  function BufSize(requested: int): nat { if requested <= 0 then 1024 else requested }

  /** Who wrote to the shared store: the drain goroutine, or somebody else. */
  datatype StoreEvent = Drained(rec: Record) | External(op: Lru.Op)

  /** Where the drain goroutine is in its loop body. */
  datatype Phase = Idle | Holding(rec: Record) | Stored(rec: Record) | Exited

  /** The drain goroutine and the store it writes to; log and drained are history. */
  datatype Drain = Drain(
    store: Lru.Store,
    phase: Phase,
    recorded: nat,
    pushed: seq<Entry>,      // what the push hook has been given
    log: seq<StoreEvent>,
    drained: seq<Record>)

  datatype State = State(
    queue: seq<Record>,      // the buffered channel
    closed: bool,            // close(r.ch) has happened
    stopped: bool,           // the flag Stop swaps
    checking: seq<Record>,   // Record calls past the stopped check, before the send
    drain: Drain,
    stopReturned: bool,
    dropped: nat,
    // history
    accepted: seq<Record>,
    calls: nat,
    refused: nat,
    panicked: nat,           // sends on the closed channel
    losers: nat)             // Stop calls that found the flag set, and returned at once

  datatype Step =
    | Check(rec: Record)     // Record: load stopped
    | Send(i: nat)           // Record: the select
    | Receive                // drain: take the next record
    | Store                  // drain: store.Put
    | Count                  // drain: count it and call the push hook
    | Exit                   // drain: the channel is closed and empty
    | StopFlag               // Stop: the compare-and-swap
    | Close                  // Stop: close the channel
    | StopReturn             // Stop: the wait is over
    | Outside(op: Lru.Op)    // another user of the store

  const INITIAL := State([], false, false, [], Drain(Lru.EMPTY, Idle, 0, [], [], []), false, 0, [], 0, 0, 0, 0)

  function OpOf(c: Config, e: StoreEvent): Lru.Op {
    match e
    case Drained(rec) => var entry := EntryOf(c.keyFn, rec); Lru.Put(entry.key, Some(entry))
    case External(op) => op
  }

  /** A write to the store, by whomever. */
  function Write(c: Config, d: Drain, e: StoreEvent): Drain {
    d.(store := Lru.Step(c.store, d.store, OpOf(c, e)), log := d.log + [e])
  }

  function StoreHeld(c: Config, d: Drain): Drain
    requires d.phase.Holding?
  {
    var rec := d.phase.rec;
    Write(c, d, Drained(rec)).(drained := d.drained + [rec], phase := Stored(rec))
  }

  function CountStored(c: Config, d: Drain): Drain
    requires d.phase.Stored?
  {
    d.(recorded := d.recorded + 1, pushed := d.pushed + [EntryOf(c.keyFn, d.phase.rec)], phase := Idle)
  }

  function SendNext(c: Config, s: State, i: nat): State
    requires i < |s.checking|
  {
    var rec, left := s.checking[i], s.checking[..i] + s.checking[i + 1..];
    if s.closed then s.(checking := left, panicked := s.panicked + 1)
    else if |s.queue| < c.bufSize then
      s.(checking := left, queue := s.queue + [rec], accepted := s.accepted + [rec])
    else s.(checking := left, dropped := s.dropped + 1)
  }

  /** The effect of one step; a step that is not enabled changes nothing. */
  function Next(c: Config, s: State, a: Step): State {
    var d := s.drain;
    match a
    case Check(rec) =>
      if s.stopped then s.(calls := s.calls + 1, refused := s.refused + 1)
      else s.(calls := s.calls + 1, checking := s.checking + [rec])
    case Send(i) => if i < |s.checking| then SendNext(c, s, i) else s
    case Receive =>
      if d.phase != Idle || s.queue == [] then s
      else s.(drain := d.(phase := Holding(s.queue[0])), queue := s.queue[1..])
    case Store => if d.phase.Holding? then s.(drain := StoreHeld(c, d)) else s
    case Count => if d.phase.Stored? then s.(drain := CountStored(c, d)) else s
    case Exit =>
      if d.phase == Idle && s.closed && s.queue == [] then s.(drain := d.(phase := Exited)) else s
    case StopFlag => if s.stopped then s.(losers := s.losers + 1) else s.(stopped := true)
    case Close => if s.stopped then s.(closed := true) else s
    case StopReturn => if s.closed && d.phase == Exited then s.(stopReturned := true) else s
    case Outside(op) => s.(drain := Write(c, d, External(op)))
  }

  function Run(c: Config, steps: seq<Step>): State {
    if steps == [] then INITIAL
    else Next(c, Run(c, steps[..|steps| - 1]), steps[|steps| - 1])
  }

  // ---------------------------------------------------------------- what the histories mean

  function Ops(c: Config, log: seq<StoreEvent>): seq<Lru.Op> {
    if log == [] then [] else Ops(c, log[..|log| - 1]) + [OpOf(c, log[|log| - 1])]
  }

  function DrainedOf(log: seq<StoreEvent>): seq<Record> {
    if log == [] then []
    else
      var before := DrainedOf(log[..|log| - 1]);
      if log[|log| - 1].Drained? then before + [log[|log| - 1].rec] else before
  }

  function EntriesOf(c: Config, recs: seq<Record>): seq<Entry> {
    if recs == [] then []
    else EntriesOf(c, recs[..|recs| - 1]) + [EntryOf(c.keyFn, recs[|recs| - 1])]
  }

  function InHand(p: Phase): seq<Record> {
    if p.Holding? then [p.rec] else []
  }

  /** Order: what was accepted is what was drained, then what is in hand, then what is queued. */
  ghost predicate InOrder(s: State) {
    s.accepted == s.drain.drained + InHand(s.drain.phase) + s.queue
  }

  /** The store is what its log of writes makes it, and the push hook has seen what was counted. */
  ghost predicate Logged(c: Config, d: Drain) {
    && d.store == Lru.Run(c.store, Ops(c, d.log))
    && d.drained == DrainedOf(d.log)
    && |d.drained| == d.recorded + (if d.phase.Stored? then 1 else 0)
    && (d.phase.Stored? ==> d.drained[|d.drained| - 1] == d.phase.rec)
    && d.pushed == EntriesOf(c, d.drained[..d.recorded])
  }

  /** Every call is accounted for, the buffer bound holds, and Stop's stages come in order. */
  ghost predicate Accounted(c: Config, s: State) {
    && |s.queue| <= c.bufSize
    && s.calls == |s.accepted| + s.dropped + s.refused + |s.checking| + s.panicked
    && (s.closed ==> s.stopped)
    && (s.panicked > 0 ==> s.closed)
    && (s.drain.phase == Exited ==> s.closed && s.queue == [])
    && (s.stopReturned ==> s.closed && s.drain.phase == Exited)
  }

  ghost predicate Inv(c: Config, s: State) {
    InOrder(s) && Logged(c, s.drain) && Accounted(c, s)
  }

  lemma NextInOrder(c: Config, s: State, a: Step)
    requires InOrder(s)
    ensures InOrder(Next(c, s, a))
  {
    var d := s.drain;
    if a.Receive? && d.phase == Idle && s.queue != [] {
      assert s.accepted == d.drained + [s.queue[0]] + s.queue[1..];
    } else if a.Send? && a.i < |s.checking| {
      var rec := s.checking[a.i];
      assert s.accepted + [rec] == d.drained + InHand(d.phase) + (s.queue + [rec]);
    } else if a.Store? && d.phase.Holding? {
      assert s.accepted == (d.drained + [d.phase.rec]) + [] + s.queue;
    }
  }

  lemma NextAccounted(c: Config, s: State, a: Step)
    requires Accounted(c, s)
    ensures Accounted(c, Next(c, s, a))
  {
  }

  lemma WriteLogged(c: Config, d: Drain, e: StoreEvent)
    requires Logged(c, d)
    ensures var d' := Write(c, d, e);
            && d'.store == Lru.Run(c.store, Ops(c, d'.log))
            && DrainedOf(d'.log) == d.drained + if e.Drained? then [e.rec] else []
  {
  }

  lemma StoreHeldLogged(c: Config, d: Drain)
    requires Logged(c, d) && d.phase.Holding?
    ensures Logged(c, StoreHeld(c, d))
  {
    WriteLogged(c, d, Drained(d.phase.rec));
    assert (d.drained + [d.phase.rec])[..d.recorded] == d.drained[..d.recorded];
  }

  lemma CountStoredLogged(c: Config, d: Drain)
    requires Logged(c, d) && d.phase.Stored?
    ensures Logged(c, CountStored(c, d))
  {
    var n := d.recorded;
    assert d.drained[..n + 1][..n] == d.drained[..n];
  }

  lemma NextLogged(c: Config, s: State, a: Step)
    requires Logged(c, s.drain)
    ensures Logged(c, Next(c, s, a).drain)
  {
    if a.Outside? {
      WriteLogged(c, s.drain, External(a.op));
    } else if a.Store? && s.drain.phase.Holding? {
      StoreHeldLogged(c, s.drain);
    } else if a.Count? && s.drain.phase.Stored? {
      CountStoredLogged(c, s.drain);
    }
  }

  lemma NextInv(c: Config, s: State, a: Step)
    requires Inv(c, s)
    ensures Inv(c, Next(c, s, a))
  {
    NextInOrder(c, s, a);
    NextLogged(c, s, a);
    NextAccounted(c, s, a);
  }

  lemma {:induction false} RunInv(c: Config, steps: seq<Step>)
    ensures Inv(c, Run(c, steps))
  {
    if steps != [] {
      RunInv(c, steps[..|steps| - 1]);
      NextInv(c, Run(c, steps[..|steps| - 1]), steps[|steps| - 1]);
    }
  }

  /** Everything ever accepted has been stored, counted and pushed, in the order of acceptance. */
  ghost predicate AllStored(c: Config, s: State) {
    s.drain.drained == s.accepted && s.drain.recorded == |s.accepted| && s.drain.pushed == EntriesOf(c, s.accepted)
  }

  /** When the Stop that set the flag has returned, all that was ever accepted is stored, nothing is
      pending, and no later step accepts anything more. */
  lemma AfterStop(c: Config, steps: seq<Step>, a: Step)
    requires Run(c, steps).stopReturned
    ensures var s := Run(c, steps);
            AllStored(c, s) && s.queue == [] && Next(c, s, a).accepted == s.accepted
  {
    RunInv(c, steps);
    var s := Run(c, steps);
    assert s.drain.drained[..s.drain.recorded] == s.drain.drained;
  }

  /** A Stop that finds the flag set returns at once, waiting for nothing: then everything accepted is
      stored exactly when the channel happens to be empty and the drain goroutine between records. */
  lemma LosingStop(c: Config, steps: seq<Step>)
    requires Run(c, steps).stopped
    ensures var s := Run(c, steps);
            && Next(c, s, StopFlag) == s.(losers := s.losers + 1)
            && (AllStored(c, s) <==> s.queue == [] && (s.drain.phase == Idle || s.drain.phase == Exited))
  {
    RunInv(c, steps);
    var s := Run(c, steps);
    assert s.drain.drained[..|s.drain.drained|] == s.drain.drained;
    assert |s.accepted| == |s.drain.drained| + |InHand(s.drain.phase)| + |s.queue|;
    if s.queue == [] && InHand(s.drain.phase) == [] {
      assert s.accepted == s.drain.drained;
    }
  }

  lemma RunSnoc(c: Config, steps: seq<Step>, a: Step)
    ensures Run(c, steps + [a]) == Next(c, Run(c, steps), a)
  {
  }

  /** It does return with records still queued, while the first Stop waits. */
  lemma LosingStopReturnsEarly(c: Config, rec: Record)
    requires c.bufSize >= 1
    ensures var s := Run(c, [Check(rec), Send(0), StopFlag, Close, StopFlag]);
            s.losers == 1 && s.accepted == [rec] == s.queue && s.drain.drained == [] && !s.stopReturned
  {
    var l1, l2 := [Check(rec)], [Check(rec), Send(0)];
    var l3, l4 := l2 + [StopFlag], l2 + [StopFlag] + [Close];
    RunSnoc(c, [], Check(rec));
    RunSnoc(c, l1, Send(0));
    assert [] + l1 == l1 && l1 + [Send(0)] == l2;
    assert Run(c, l1) == INITIAL.(calls := 1, checking := [rec]);
    assert Run(c, l2) == INITIAL.(calls := 1, queue := [rec], accepted := [rec]);
    RunSnoc(c, l2, StopFlag);
    RunSnoc(c, l3, Close);
    RunSnoc(c, l4, StopFlag);
    assert Run(c, l4) == Run(c, l2).(stopped := true, closed := true);
    assert l4 + [StopFlag] == [Check(rec), Send(0), StopFlag, Close, StopFlag];
  }

  /** With no other user of the store it is the fold of Put over the drained records, which are the
      first of the accepted ones. */
  lemma StoreIsFold(c: Config, steps: seq<Step>)
    requires forall i :: 0 <= i < |steps| ==> !steps[i].Outside?
    ensures var s := Run(c, steps);
            && s.drain.store == Lru.Run(c.store, Ops(c, AllDrained(s.drain.drained)))
            && s.drain.drained <= s.accepted
  {
    RunInv(c, steps);
    OnlyDrained(c, steps);
  }

  function AllDrained(recs: seq<Record>): seq<StoreEvent> {
    if recs == [] then [] else AllDrained(recs[..|recs| - 1]) + [Drained(recs[|recs| - 1])]
  }

  lemma DrainedStep(c: Config, s: State, a: Step)
    requires !a.Outside? && s.drain.log == AllDrained(s.drain.drained)
    ensures Next(c, s, a).drain.log == AllDrained(Next(c, s, a).drain.drained)
  {
    var d := s.drain;
    if a.Store? && d.phase.Holding? {
      var rec := d.phase.rec;
      assert (d.drained + [rec])[..|d.drained|] == d.drained;
      assert AllDrained(d.drained + [rec]) == AllDrained(d.drained) + [Drained(rec)];
      assert Next(c, s, a).drain == StoreHeld(c, d) && StoreHeld(c, d).log == d.log + [Drained(rec)];
    } else {
      assert Next(c, s, a).drain.log == d.log && Next(c, s, a).drain.drained == d.drained;
    }
  }

  lemma {:induction false} OnlyDrained(c: Config, steps: seq<Step>)
    requires forall i :: 0 <= i < |steps| ==> !steps[i].Outside?
    ensures Run(c, steps).drain.log == AllDrained(Run(c, steps).drain.drained)
  {
    if steps != [] {
      var init := steps[..|steps| - 1];
      OnlyDrained(c, init);
      DrainedStep(c, Run(c, init), steps[|steps| - 1]);
    }
  }

  // ---------------------------------------------------------------- Record straddling Stop

  ghost predicate NoLateCall(s: State) {
    s.panicked == 0 && (s.closed ==> s.stopped && s.checking == [])
  }

  lemma NoLateCallStep(c: Config, s: State, a: Step)
    requires NoLateCall(s) && (a == Close ==> s.checking == [])
    ensures NoLateCall(Next(c, s, a)) && (s.closed ==> Next(c, s, a).closed)
  {
  }

  /** If no Record call is between its two steps when the channel is closed, none ever panics. */
  lemma {:induction false} NoStraddleNoPanic(c: Config, steps: seq<Step>)
    requires forall i :: 0 <= i < |steps| && steps[i] == Close ==> Run(c, steps[..i]).checking == []
    ensures NoLateCall(Run(c, steps))
  {
    if steps != [] {
      var n := |steps| - 1;
      var init := steps[..n];
      forall i | 0 <= i < |init| && init[i] == Close ensures Run(c, init[..i]).checking == [] {
        assert init[i] == steps[i] && init[..i] == steps[..i];
      }
      NoStraddleNoPanic(c, init);
      NoLateCallStep(c, Run(c, init), steps[n]);
    }
  }

  /** The last step of a continued run. */
  lemma RunOn(c: Config, steps: seq<Step>, post: seq<Step>)
    requires post != []
    ensures Run(c, steps + post) == Next(c, Run(c, steps + post[..|post| - 1]), post[|post| - 1])
  {
    assert (steps + post)[..|steps + post| - 1] == steps + post[..|post| - 1];
  }

  lemma {:induction false} NoLateCallRun(c: Config, steps: seq<Step>, post: seq<Step>)
    requires NoLateCall(Run(c, steps)) && Run(c, steps).closed
    ensures NoLateCall(Run(c, steps + post)) && Run(c, steps + post).closed
    decreases |post|
  {
    if post == [] {
      assert steps + post == steps;
    } else {
      NoLateCallRun(c, steps, post[..|post| - 1]);
      NoLateCallStep(c, Run(c, steps + post[..|post| - 1]), post[|post| - 1]);
      RunOn(c, steps, post);
    }
  }

  /** After a Stop, what follows the close can make a Record call panic if and only if, at the close,
      some call is between its check of the flag and its send. */
  lemma PanicIffStraddle(c: Config, pre: seq<Step>)
    requires Run(c, pre).stopped && !Run(c, pre).closed
    ensures (exists post: seq<Step> :: Run(c, pre + [Close] + post).panicked > 0) <==> Run(c, pre).checking != []
  {
    RunInv(c, pre);
    RunSnoc(c, pre, Close);
    if Run(c, pre).checking == [] {
      forall post: seq<Step> ensures Run(c, pre + [Close] + post).panicked == 0 {
        NoLateCallRun(c, pre + [Close], post);
      }
    } else {
      RunSnoc(c, pre + [Close], Send(0));
      assert Run(c, pre + [Close] + [Send(0)]).panicked > 0;
    }
  }

  /** The straddle is real: check, stop, close, send. */
  lemma StraddlePanics(c: Config, rec: Record)
    ensures Run(c, [Check(rec), StopFlag, Close, Send(0)]).panicked == 1
    ensures var pre := [Check(rec), StopFlag];
            Run(c, pre).stopped && !Run(c, pre).closed && Run(c, pre).checking == [rec]
  {
    RunSnoc(c, [], Check(rec));
    RunSnoc(c, [Check(rec)], StopFlag);
    RunSnoc(c, [Check(rec), StopFlag], Close);
    RunSnoc(c, [Check(rec), StopFlag, Close], Send(0));
    assert [] + [Check(rec)] == [Check(rec)] && [Check(rec)] + [StopFlag] == [Check(rec), StopFlag];
    assert [Check(rec), StopFlag] + [Close] == [Check(rec), StopFlag, Close];
    assert [Check(rec), StopFlag, Close] + [Send(0)] == [Check(rec), StopFlag, Close, Send(0)];
  }

  lemma StoppedStep(c: Config, s: State, a: Step)
    requires s.stopped
    ensures Next(c, s, a).stopped
    ensures forall x :: x in Next(c, s, a).checking ==> x in s.checking
  {
  }

  /** Such a call has passed the check before the flag was set. */
  lemma {:induction false} CheckedBeforeStop(c: Config, pre: seq<Step>, post: seq<Step>)
    requires Run(c, pre).stopped
    ensures Run(c, pre + post).stopped
    ensures forall x :: x in Run(c, pre + post).checking ==> x in Run(c, pre).checking
    decreases |post|
  {
    if post == [] {
      assert pre + post == pre;
    } else {
      CheckedBeforeStop(c, pre, post[..|post| - 1]);
      StoppedStep(c, Run(c, pre + post[..|post| - 1]), post[|post| - 1]);
      RunOn(c, pre, post);
    }
  }

  // ---------------------------------------------------------------- undisturbed sequences of steps

  /** A whole Record call. */
  function RecordCall(c: Config, s: State, rec: Record): State {
    Next(c, Next(c, s, Check(rec)), Send(|s.checking|))
  }

  /** One turn of the drain loop. */
  function DrainTurn(c: Config, s: State): State {
    Next(c, Next(c, Next(c, s, Receive), Store), Count)
  }

  lemma RecordCallFacts(c: Config, s: State, rec: Record)
    requires Inv(c, s) && s.closed == s.stopped
    ensures var s', fits := RecordCall(c, s, rec), !s.stopped && |s.queue| < c.bufSize;
            && Inv(c, s')
            && s'.checking == s.checking && s'.drain == s.drain
            && s'.closed == s.closed && s'.stopped == s.stopped 
            && s'.queue == s.queue + (if fits then [rec] else [])
            && s'.accepted == s.accepted + (if fits then [rec] else [])
            && s'.dropped == s.dropped + if !s.stopped && !fits then 1 else 0
  {
    NextInv(c, s, Check(rec));
    NextInv(c, Next(c, s, Check(rec)), Send(|s.checking|));
    if s.stopped {
      assert RecordCall(c, s, rec) == Next(c, s, Check(rec));
    }
  }

  lemma OutsideFacts(c: Config, s: State, op: Lru.Op)
    requires Inv(c, s)
    ensures var s' := Next(c, s, Outside(op));
            && Inv(c, s') && s' == s.(drain := s'.drain)
            && s'.drain.store == Lru.Step(c.store, s.drain.store, op)
            && s'.drain.phase == s.drain.phase && s'.drain.recorded == s.drain.recorded
  {
    NextInv(c, s, Outside(op));
  }

  lemma DrainTurnFacts(c: Config, s: State)
    requires Inv(c, s) && s.drain.phase == Idle && s.queue != []
    ensures var s', e := DrainTurn(c, s), EntryOf(c.keyFn, s.queue[0]);
            && Inv(c, s')
            && s'.checking == s.checking && s'.drain.phase == Idle && s'.dropped == s.dropped
            && s'.closed == s.closed && s'.stopped == s.stopped && s'.accepted == s.accepted
            && s'.queue == s.queue[1..] && s'.drain.recorded == s.drain.recorded + 1
            && s'.drain.store == Lru.Step(c.store, s.drain.store, Lru.Put(e.key, Some(e)))
  {
    var rec := s.queue[0];
    var s1 := Next(c, s, Receive);
    var s2 := Next(c, s1, Store);
    assert s1 == s.(drain := s.drain.(phase := Holding(rec)), queue := s.queue[1..]);
    assert s2.drain.phase == Stored(rec);
    assert Inv(c, DrainTurn(c, s)) by {
      NextInv(c, s, Receive);
      NextInv(c, s1, Store);
      NextInv(c, s2, Count);
    }
  }

  /** Stop up to the wait. */
  function StopBegin(c: Config, s: State): State {
    Next(c, Next(c, s, StopFlag), Close)
  }

  /** The end of the wait. */
  function StopEnd(c: Config, s: State): State {
    Next(c, Next(c, s, Exit), StopReturn)
  }

  lemma StopBeginFacts(c: Config, s: State)
    requires Inv(c, s) && s.drain.phase == Idle && !s.stopped
    ensures Inv(c, StopBegin(c, s)) && StopBegin(c, s) == s.(stopped := true, closed := true)
  {
  }

  lemma LoserFacts(c: Config, s: State)
    requires Inv(c, s) && s.stopped
    ensures var s' := Next(c, s, StopFlag);
            && Inv(c, s') && s'.drain == s.drain && s'.queue == s.queue && s'.checking == s.checking
            && s'.closed == s.closed && s'.stopped && s'.dropped == s.dropped
  {
    NextInv(c, s, StopFlag);
  }

  lemma StopEndFacts(c: Config, s: State)
    requires Inv(c, s) && s.drain.phase == Idle && s.closed && s.queue == []
    ensures var s' := StopEnd(c, s);
            && Inv(c, s') && s'.drain.drained == s'.accepted
            && s' == s.(drain := s.drain.(phase := Exited), stopReturned := true)
  {
    NextInv(c, s, Exit);
    NextInv(c, Next(c, s, Exit), StopReturn);
  }

  // ---------------------------------------------------------------- the object

  class Recorder {
    const cfg: Config
    const store: MemStore
    var ch: seq<Record>
    var closed: bool
    var stopped: bool
    var recorded: nat
    var dropped: nat
    ghost var state: State

    /** The fields agree with a step-system state in which no call is half way. */
    ghost predicate Valid()
      reads this, store
    {
      && store.Valid() && store.cfg == cfg.store && store.View() == state.drain.store
      && Inv(cfg, state)
      && ch == state.queue && closed == state.closed && stopped == state.stopped
      && recorded == state.drain.recorded && dropped == state.dropped
      && state.checking == [] && (state.drain.phase == Idle || state.drain.phase == Exited)
      && closed == stopped
    }

    constructor (store: MemStore, keyFn: KeyFn, bufSize: int)
      requires store.Valid() && store.View() == Lru.EMPTY
      ensures Valid() && this.store == store && state == INITIAL
      ensures cfg == Config(store.cfg, keyFn, BufSize(bufSize))
      ensures cfg.bufSize == if bufSize <= 0 then 1024 else bufSize
    {
      cfg := Config(store.cfg, keyFn, BufSize(bufSize));
      this.store := store;
      ch, closed, stopped, recorded, dropped := [], false, false, 0, 0;
      state := INITIAL;
    }

    /** One undisturbed Record call. */
    method Record(rec: Record) returns (ok: bool)
      requires Valid()
      modifies this
      ensures Valid()
      ensures state == RecordCall(cfg, old(state), rec)
      ensures ok <==> !old(stopped) && |old(ch)| < cfg.bufSize
      ensures state.accepted == old(state).accepted + if ok then [rec] else []
    {
      RecordCallFacts(cfg, state, rec);
      state := RecordCall(cfg, state, rec);
      if stopped {
        return false;
      }
      if |ch| < cfg.bufSize {
        ch := ch + [rec];
        return true;
      }
      dropped := dropped + 1;
      return false;
    }

    /** A lookup on the shared store. */
    method Lookup(key: string, now: int) returns (r: Option<Entry>)
      requires Valid()
      modifies this`state, store
      ensures Valid()
      ensures state == Next(cfg, old(state), Outside(Lru.Get(key, now)))
      ensures r == Lru.Lookup(cfg.store, old(state).drain.store, key, now)
    {
      OutsideFacts(cfg, state, Lru.Get(key, now));
      state := Next(cfg, state, Outside(Lru.Get(key, now)));
      r := store.Get(key, now);
    }

    /** One turn of the drain loop. */
    method DrainOne()
      requires Valid() && ch != []
      modifies this, store
      ensures Valid() && stopped == old(stopped) && state.drain.phase == Idle
      ensures state == DrainTurn(cfg, old(state))
      ensures state.accepted == old(state).accepted
      ensures ch == old(ch)[1..]
    {
      DrainTurnFacts(cfg, state);
      state := DrainTurn(cfg, state);
      var rec := ch[0];
      ch := ch[1..];
      var entry := EntryOf(cfg.keyFn, rec);
      store.Put(entry.key, Some(entry));
      recorded := recorded + 1;
    }

    /** Stop: set the flag, close the channel and wait until the drain loop has emptied it. */
    method Stop()
      requires Valid()
      modifies this, store
      ensures Valid() && stopped
      ensures old(stopped) ==> state == Next(cfg, old(state), StopFlag) && ch == old(ch)
      ensures !old(stopped) ==> state.stopReturned && ch == []
      ensures !old(stopped) ==> state.drain.drained == state.accepted == old(state).accepted
    {
      if stopped {
        LoserFacts(cfg, state);
        state := Next(cfg, state, StopFlag);
        return;
      }
      StopBeginFacts(cfg, state);
      state := StopBegin(cfg, state);
      stopped, closed := true, true;
      DrainAll();
      StopEndFacts(cfg, state);
      state := StopEnd(cfg, state);
    }

    /** The rest of the drain loop, once the channel is closed. */
    method DrainAll()
      requires Valid() && stopped && state.drain.phase == Idle
      modifies this, store
      ensures Valid() && stopped && state.drain.phase == Idle && ch == []
      ensures state.accepted == old(state).accepted
    {
      while ch != []
        invariant Valid() && stopped && state.drain.phase == Idle
        invariant state.accepted == old(state).accepted
        decreases |ch|
      {
        DrainOne();
      }
    }
  }
}
