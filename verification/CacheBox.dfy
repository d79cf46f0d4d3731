/** The cache-box dispatcher: serve, forward or record, and what a replayed response can be. */
module CacheBox {
  import opened Base
  import opened BodyCapture
  import opened RequestKey
  import opened Recorders
  import Lru

  datatype Mode = Passthrough | Replay | ReplayDelay | Unknown

  const CACHE_KEY := "X-Atropos-Cache-Key"
  const CACHE_MODE := "X-Atropos-Cache-Mode"
  const CACHE_LATENCY := "X-Atropos-Cache-Latency-Us"

  function ModeName(m: Mode): string {
    match m
    case Passthrough => "passthrough"
    case Replay => "replay"
    case ReplayDelay => "replay_with_delay"
    case Unknown => "cachebox"
  }

  function Decimal(n: int): string {
    if n < 0 then "-" + Digits(-n) else Digits(n)
  }

  function Digits(n: nat): string {
    (if n < 10 then [] else Digits(n / 10)) + ["0123456789"[n % 10]]
  }

  function Micros(ns: int): string { Decimal(TruncDiv(ns, 1000)) }

  /** cacheBoxServe's header: the entry's own, with the three tags set. */
  function ServedHeader(e: Entry, key: string, m: Mode, delay: int): Header {
    var h := if e.header.Some? then e.header.value else map[];
    h[CACHE_KEY := [key]][CACHE_MODE := [ModeName(m)]]
     [CACHE_LATENCY := [Micros(if delay > 0 then delay else e.observedLatency)]]
  }

  /** The passthrough tags. */
  function TaggedHeader(h: Header, key: string, latency: int): Header {
    h[CACHE_KEY := [key]][CACHE_LATENCY := [Micros(latency)]]
  }

  function DigitsValue(s: string): int {
    if s == [] then 0 else 10 * DigitsValue(s[..|s| - 1]) + (s[|s| - 1] as int - '0' as int)
  }

  lemma DigitChar(d: nat)
    requires d < 10
    ensures "0123456789"[d] as int - '0' as int == d
  {
  }

  /** The printed latency reads back as the number printed. */
  lemma {:induction false} DigitsRoundTrip(n: nat)
    ensures DigitsValue(Digits(n)) == n && Digits(n) != [] && Digits(n)[0] != '-'
  {
    var tens := if n < 10 then [] else Digits(n / 10);
    assert Digits(n)[..|tens|] == tens;
    DigitChar(n % 10);
    if n >= 10 { DigitsRoundTrip(n / 10); }
  }

  lemma DecimalRoundTrip(n: int)
    ensures var s := Decimal(n);
            n == if s[0] == '-' then -DigitsValue(s[1..]) else DigitsValue(s)
  {
    DigitsRoundTrip(if n < 0 then -n else n);
  }

  /** So a latency tag reads back as the whole microseconds of the latency. */
  lemma MicrosRoundTrip(ns: int)
    ensures var s := Micros(ns);
            var v := if s[0] == '-' then -DigitsValue(s[1..]) else DigitsValue(s);
            if ns >= 0 then 0 <= ns - 1000 * v < 1000 else -1000 < ns - 1000 * v <= 0
  {
    DecimalRoundTrip(TruncDiv(ns, 1000));
    TruncDivLaw(ns, 1000, TruncDiv(ns, 1000));
  }

  function Untagged(h: Header): Header { h - {CACHE_KEY, CACHE_MODE, CACHE_LATENCY} }

  /** Serving changes the three tags and nothing else, and sets them to key, mode and latency. */
  lemma TagsOnly(e: Entry, key: string, m: Mode, delay: int)
    ensures var h := ServedHeader(e, key, m, delay);
            && CACHE_KEY in h && h[CACHE_KEY] == [key]
            && CACHE_MODE in h && h[CACHE_MODE] == [ModeName(m)]
            && CACHE_LATENCY in h
            && h[CACHE_LATENCY] == [Micros(if delay > 0 then delay else e.observedLatency)]
    ensures Untagged(ServedHeader(e, key, m, delay))
            == Untagged(if e.header.Some? then e.header.value else map[])
  {
  }

  /** A passthrough reply gets the key and latency tags, and is otherwise as upstream sent it. */
  lemma PassthroughTags(h: Header, key: string, latency: int)
    ensures var t := TaggedHeader(h, key, latency);
            && t.Keys == h.Keys + {CACHE_KEY, CACHE_LATENCY}
            && t[CACHE_KEY] == [key] && t[CACHE_LATENCY] == [Micros(latency)]
            && forall k :: k in h && k != CACHE_KEY && k != CACHE_LATENCY ==> t[k] == h[k]
  {
    assert CACHE_KEY[16] != CACHE_LATENCY[16];
  }

  // ---------------------------------------------------------------- concurrent runs

  /** The body a key is derived from: nothing unless the strategy reads bodies and this one is captured. */
  function Captured(s: Strategy, cap: nat, stream: Stream): seq<byte> {
    if s.ExactWithBody? && Capture(stream, cap).Some? then stream.Contents() else []
  }

  /** The body left on the request to be forwarded. */
  function Onward(s: Strategy, cap: nat, stream: Stream): seq<byte> {
    if s.ExactWithBody? then stream.Contents()[Lost(ReadAll, stream, cap)..] else stream.Contents()
  }

  /** What the downstream service does with one forwarded request. */
  datatype Upstream =
    | Down
    | Answer(statusCode: int, header: Header, body: Stream, latency: int, at: int)

  datatype Response = Response(statusCode: int, header: Header, body: seq<byte>)

  /** A request given to RoundTrip, with the body it carried. */
  datatype Sent = Sent(id: nat, req: Request, body: seq<byte>)

  /** A dispatched request.  `seen` is the log of store writes when the store was consulted. */
  datatype Call =
    | Serving(req: Request, body: seq<byte>, key: string, mode: Mode, entry: Entry, seen: seq<StoreEvent>)
    | Served(req: Request, body: seq<byte>, key: string, mode: Mode, entry: Entry, seen: seq<StoreEvent>,
             wait: int, reply: Option<Response>)
    | Missed(req: Request, stream: Stream, key: string, mode: Mode)
    | Forwarded(req: Request, stream: Stream, key: string, mode: Mode)
    | Answered(req: Request, stream: Stream, reply: Option<Response>)

  datatype System = System(
    recorder: Recorders.State,
    calls: map<nat, Call>,
    sent: seq<Sent>,             // one element per RoundTrip
    offered: seq<Record>)        // what upstream answered, as handed to the recorder

  datatype Action =
    | Arrive(id: nat, req: Request, stream: Stream, mode: Mode, now: int)
    | Serve(id: nat, delay: int, cancelled: bool)
    | Forward(id: nat)
    | Return(id: nat, up: Upstream)
    | Background(step: Recorders.Step)   // the recorder's own steps
    | SeedOne(entry: Entry)
    | ClearStore

  datatype Setup = Setup(recorder: Recorders.Config, strategy: Strategy, maxBody: nat)

  const START := System(Recorders.INITIAL, map[], [], [])

  function RecordOf(req: Request, body: seq<byte>, up: Upstream): Record
    requires up.Answer?
  {
    Record(req, body, up.statusCode, Some(up.header), up.body.Contents(), up.latency, up.at)
  }

  predicate Looks(m: Mode) { m.Replay? || m.ReplayDelay? }

  function ArriveNext(c: Setup, s: System, a: Action): System
    requires a.Arrive?
  {
    var body := Captured(c.strategy, c.maxBody, a.stream);
    var key := c.recorder.keyFn(a.req, body);
    var found := Lru.Lookup(c.recorder.store, s.recorder.drain.store, key, a.now);
    var r := if Looks(a.mode) then Recorders.Next(c.recorder, s.recorder, Outside(Lru.Get(key, a.now))) else s.recorder;
    s.(recorder := r,
       calls := s.calls[a.id :=
         if Looks(a.mode) && found.Some? then Serving(a.req, body, key, a.mode, found.value, s.recorder.drain.log)
         else Missed(a.req, a.stream, key, a.mode)])
  }

  /** An answer that is read whole within the cap. */
  predicate Fits(cap: nat, up: Upstream) { up.Answer? && Capture(up.body, cap).Some? }

  /** A passthrough's reply: none if the service gives none or its body cannot be peeked at. */
  function Passed(cap: nat, key: string, up: Upstream): Option<Response> {
    if up.Down? || PeekFails(CopyN, up.body, cap) then None
    else
      var header := if Fits(cap, up) then TaggedHeader(up.header, key, up.latency) else up.header;
      Some(Response(up.statusCode, header, up.body.Contents()))
  }

  predicate Offers(cap: nat, mode: Mode, up: Upstream) { !mode.Unknown? && Fits(cap, up) }

  /** The reply to a forwarded call; an unknown mode returns what RoundTrip does. */
  function ReplyTo(cap: nat, mode: Mode, key: string, up: Upstream): Option<Response> {
    if !mode.Unknown? then Passed(cap, key, up)
    else if up.Down? then None
    else Some(Response(up.statusCode, up.header, up.body.Contents()))
  }

  function ReturnNext(c: Setup, s: System, id: nat, up: Upstream): System
    requires id in s.calls && s.calls[id].Forwarded?
  {
    var call := s.calls[id];
    var reply := ReplyTo(c.maxBody, call.mode, call.key, up);
    var s' := s.(calls := s.calls[id := Answered(call.req, call.stream, reply)]);
    if !Offers(c.maxBody, call.mode, up) then s'
    else
      var rec := RecordOf(call.req, Captured(c.strategy, c.maxBody, call.stream), up);
      s'.(recorder := Recorders.Next(c.recorder, s.recorder, Check(rec)), offered := s.offered + [rec])
  }

  function ForwardNext(c: Setup, s: System, id: nat): System
    requires id in s.calls && s.calls[id].Missed?
  {
    var call := s.calls[id];
    s.(calls := s.calls[id := Forwarded(call.req, call.stream, call.key, call.mode)],
       sent := s.sent + [Sent(id, call.req, Onward(c.strategy, c.maxBody, call.stream))])
  }

  function ServeNext(s: System, id: nat, delay: int, cancelled: bool): System
    requires id in s.calls && s.calls[id].Serving?
  {
    var call := s.calls[id];
    var wait := if call.mode.ReplayDelay? then delay else 0;
    var reply :=
      if wait > 0 && cancelled then None
      else Some(Response(call.entry.statusCode, ServedHeader(call.entry, call.key, call.mode, wait), call.entry.body));
    s.(calls := s.calls[id := Served(call.req, call.body, call.key, call.mode, call.entry, call.seen, wait, reply)])
  }

  function Next(c: Setup, s: System, a: Action): System {
    match a
    case Arrive(id, _, _, _, _) => if id in s.calls then s else ArriveNext(c, s, a)
    case Serve(id, delay, cancelled) =>
      if id in s.calls && s.calls[id].Serving? then ServeNext(s, id, delay, cancelled) else s
    case Forward(id) => if id in s.calls && s.calls[id].Missed? then ForwardNext(c, s, id) else s
    case Return(id, up) => if id in s.calls && s.calls[id].Forwarded? then ReturnNext(c, s, id, up) else s
    case Background(step) =>
      if step.Check? || step.Outside? then s
      else s.(recorder := Recorders.Next(c.recorder, s.recorder, step))
    case SeedOne(e) =>
      s.(recorder := Recorders.Next(c.recorder, s.recorder, Outside(Lru.Put(e.key, Some(e)))))
    case ClearStore =>
      s.(recorder := Recorders.Next(c.recorder, s.recorder, Outside(Lru.Clear)))
  }

  function Run(c: Setup, actions: seq<Action>): System {
    if actions == [] then START
    else Next(c, Run(c, actions[..|actions| - 1]), actions[|actions| - 1])
  }

  // ---------------------------------------------------------------- invariants

  predicate FromCache(call: Call) { call.Serving? || call.Served? }

  /** The entry a hit holds was the live value under its key when the store was consulted. */
  ghost predicate HitIsLive(c: Recorders.Config, call: Call) {
    FromCache(call) ==> Lru.LiveValue(c.store, Ops(c, call.seen), call.key) == Some(call.entry)
  }

  /** The reply repeats this status, body and header, apart from the three tags, which name the key,
      the mode, and the time waited or else the recorded latency. */
  ghost predicate Repeats(call: Call, statusCode: int, header: Option<Header>, body: seq<byte>, latency: int)
    requires call.Served? && call.reply.Some?
  {
    var r := call.reply.value;
    && r.statusCode == statusCode && r.body == body
    && Untagged(r.header) == Untagged(if header.Some? then header.value else map[])
    && CACHE_KEY in r.header && r.header[CACHE_KEY] == [call.key]
    && CACHE_MODE in r.header && r.header[CACHE_MODE] == [ModeName(call.mode)]
    && CACHE_LATENCY in r.header
    && r.header[CACHE_LATENCY] == [Micros(if call.wait > 0 then call.wait else latency)]
  }

  ghost predicate ReplyIsEntry(call: Call) {
    call.Served? && call.reply.Some? ==>
      Repeats(call, call.entry.statusCode, call.entry.header, call.entry.body, call.entry.observedLatency)
  }

  ghost predicate CallOk(c: Recorders.Config, log: seq<StoreEvent>, call: Call) {
    && HitIsLive(c, call) && ReplyIsEntry(call)
    && (FromCache(call) ==> call.seen <= log)
    && (FromCache(call) ==> call.key == c.keyFn(call.req, call.body))
  }

  /** Everything the recorder holds or has drained was answered by the real service. */
  ghost predicate OnlyOffered(r: Recorders.State, offered: seq<Record>) {
    && (forall x :: x in r.checking ==> x in offered)
    && (forall x :: x in r.accepted ==> x in offered)
  }

  /** The upstream calls made for one request. */
  function SentFor(sent: seq<Sent>, id: nat): seq<Sent> {
    if sent == [] then []
    else SentFor(sent[..|sent| - 1], id) + if sent[|sent| - 1].id == id then [sent[|sent| - 1]] else []
  }

  /** What should have been sent for a request by now: one call with its own body, once forwarded. */
  function Due(c: Setup, s: System, id: nat): seq<Sent> {
    if id in s.calls && (s.calls[id].Forwarded? || s.calls[id].Answered?) then
      [Sent(id, s.calls[id].req, Onward(c.strategy, c.maxBody, s.calls[id].stream))]
    else []
  }

  ghost predicate SentExact(c: Setup, s: System) {
    forall id: nat :: SentFor(s.sent, id) == Due(c, s, id)
  }

  /** A call on its way upstream is tagged with the key its record will be stored under. */
  ghost predicate KeyKept(c: Setup, call: Call) {
    call.Missed? || call.Forwarded? ==>
      call.key == c.recorder.keyFn(call.req, Captured(c.strategy, c.maxBody, call.stream))
  }

  ghost predicate Inv(c: Setup, s: System) {
    && Recorders.Inv(c.recorder, s.recorder)
    && (forall id :: id in s.calls ==> CallOk(c.recorder, s.recorder.drain.log, s.calls[id]) && KeyKept(c, s.calls[id]))
    && OnlyOffered(s.recorder, s.offered)
    && SentExact(c, s)
  }

  lemma RecorderGrows(c: Recorders.Config, r: Recorders.State, a: Recorders.Step)
    ensures r.drain.log <= Recorders.Next(c, r, a).drain.log
  {
  }

  lemma OfferedStep(c: Recorders.Config, r: Recorders.State, a: Recorders.Step, offered: seq<Record>, more: seq<Record>)
    requires OnlyOffered(r, offered)
    requires a.Check? ==> a.rec in more
    ensures OnlyOffered(Recorders.Next(c, r, a), offered + more)
  {
  }

  /** A growing log keeps every call in order. */
  lemma CallsOk(c: Recorders.Config, log: seq<StoreEvent>, log': seq<StoreEvent>, calls: map<nat, Call>)
    requires log <= log' && forall id :: id in calls ==> CallOk(c, log, calls[id])
    ensures forall id :: id in calls ==> CallOk(c, log', calls[id])
  {
  }

  lemma RecorderInv(c: Setup, s: System, a: Recorders.Step, more: seq<Record>)
    requires Inv(c, s) && (a.Check? ==> a.rec in more)
    ensures Inv(c, s.(recorder := Recorders.Next(c.recorder, s.recorder, a), offered := s.offered + more))
  {
    Recorders.NextInv(c.recorder, s.recorder, a);
    RecorderGrows(c.recorder, s.recorder, a);
    OfferedStep(c.recorder, s.recorder, a, s.offered, more);
    CallsOk(c.recorder, s.recorder.drain.log, Recorders.Next(c.recorder, s.recorder, a).drain.log, s.calls);
    var s' := s.(recorder := Recorders.Next(c.recorder, s.recorder, a), offered := s.offered + more);
    assert forall id: nat :: Due(c, s', id) == Due(c, s, id);
  }

  /** One call changes, and nothing is sent. */
  lemma CallInv(c: Setup, s: System, id: nat, call: Call)
    requires Inv(c, s) && CallOk(c.recorder, s.recorder.drain.log, call) && KeyKept(c, call)
    requires Due(c, s.(calls := s.calls[id := call]), id) == Due(c, s, id)
    ensures Inv(c, s.(calls := s.calls[id := call]))
  {
    var s' := s.(calls := s.calls[id := call]);
    forall x: nat ensures SentFor(s'.sent, x) == Due(c, s', x) {
      assert SentFor(s.sent, x) == Due(c, s, x);
    }
  }

  /** The lookup an arriving replay makes. */
  lemma ArriveLookupInv(c: Setup, s: System, a: Action)
    requires Inv(c, s) && a.Arrive?
    ensures Inv(c, s.(recorder := ArriveNext(c, s, a).recorder))
    ensures s.recorder.drain.log <= ArriveNext(c, s, a).recorder.drain.log
  {
    if Looks(a.mode) {
      var get := Outside(Lru.Get(c.recorder.keyFn(a.req, Captured(c.strategy, c.maxBody, a.stream)), a.now));
      RecorderInv(c, s, get, []);
      assert s.offered + [] == s.offered;
      RecorderGrows(c.recorder, s.recorder, get);
    }
  }

  lemma ArriveCallOk(c: Setup, s: System, a: Action)
    requires Recorders.Inv(c.recorder, s.recorder) && a.Arrive?
    requires s.recorder.drain.log <= ArriveNext(c, s, a).recorder.drain.log
    ensures CallOk(c.recorder, ArriveNext(c, s, a).recorder.drain.log, ArriveNext(c, s, a).calls[a.id])
    ensures KeyKept(c, ArriveNext(c, s, a).calls[a.id])
  {
    var call := ArriveNext(c, s, a).calls[a.id];
    if FromCache(call) {
      Lru.HitIsLastPut(c.recorder.store, Ops(c.recorder, s.recorder.drain.log), call.key, a.now);
    }
  }

  lemma ArriveInv(c: Setup, s: System, a: Action)
    requires Inv(c, s) && a.Arrive? && a.id !in s.calls
    ensures Inv(c, ArriveNext(c, s, a))
  {
    var s' := ArriveNext(c, s, a);
    ArriveLookupInv(c, s, a);
    ArriveCallOk(c, s, a);
    CallInv(c, s.(recorder := s'.recorder), a.id, s'.calls[a.id]);
  }

  lemma ForwardInv(c: Setup, s: System, id: nat)
    requires Inv(c, s) && id in s.calls && s.calls[id].Missed?
    ensures Inv(c, ForwardNext(c, s, id))
  {
    var s' := ForwardNext(c, s, id);
    assert s'.sent[..|s'.sent| - 1] == s.sent;
    forall x: nat ensures SentFor(s'.sent, x) == Due(c, s', x) {
      assert SentFor(s.sent, x) == Due(c, s, x);
    }
  }

  lemma ReturnInv(c: Setup, s: System, id: nat, up: Upstream)
    requires Inv(c, s) && id in s.calls && s.calls[id].Forwarded?
    ensures Inv(c, ReturnNext(c, s, id, up))
  {
    var call := s.calls[id];
    var answered := Answered(call.req, call.stream, ReplyTo(c.maxBody, call.mode, call.key, up));
    if Offers(c.maxBody, call.mode, up) {
      var rec := RecordOf(call.req, Captured(c.strategy, c.maxBody, call.stream), up);
      RecorderInv(c, s, Check(rec), [rec]);
      var s1 := s.(recorder := Recorders.Next(c.recorder, s.recorder, Check(rec)), offered := s.offered + [rec]);
      CallInv(c, s1, id, answered);
    } else {
      CallInv(c, s, id, answered);
    }
  }

  lemma ServeInv(c: Setup, s: System, id: nat, delay: int, cancelled: bool)
    requires Inv(c, s) && id in s.calls && s.calls[id].Serving?
    ensures Inv(c, ServeNext(s, id, delay, cancelled))
  {
    var call := s.calls[id];
    TagsOnly(call.entry, call.key, call.mode, if call.mode.ReplayDelay? then delay else 0);
    CallInv(c, s, id, ServeNext(s, id, delay, cancelled).calls[id]);
  }

  lemma NextInv(c: Setup, s: System, a: Action)
    requires Inv(c, s)
    ensures Inv(c, Next(c, s, a))
  {
    assert s.offered + [] == s.offered;
    match a
    case Arrive(id, _, _, _, _) => if id !in s.calls { ArriveInv(c, s, a); }
    case Serve(id, delay, cancelled) =>
      if id in s.calls && s.calls[id].Serving? { ServeInv(c, s, id, delay, cancelled); }
    case Forward(id) => if id in s.calls && s.calls[id].Missed? { ForwardInv(c, s, id); }
    case Return(id, up) => if id in s.calls && s.calls[id].Forwarded? { ReturnInv(c, s, id, up); }
    case Background(step) => if !step.Check? { RecorderInv(c, s, step, []); }
    case SeedOne(e) => RecorderInv(c, s, Outside(Lru.Put(e.key, Some(e))), []);
    case ClearStore => RecorderInv(c, s, Outside(Lru.Clear), []);
  }

  lemma {:induction false} RunInv(c: Setup, actions: seq<Action>)
    ensures Inv(c, Run(c, actions))
  {
    if actions != [] {
      RunInv(c, actions[..|actions| - 1]);
      NextInv(c, Run(c, actions[..|actions| - 1]), actions[|actions| - 1]);
    }
  }

  // ---------------------------------------------------------------- replay soundness

  lemma {:induction false} OpsAt(c: Recorders.Config, log: seq<StoreEvent>, i: nat)
    requires i < |log|
    ensures |Ops(c, log)| == |log| && Ops(c, log)[i] == OpOf(c, log[i])
  {
    OpsLength(c, log);
    if i < |log| - 1 {
      OpsAt(c, log[..|log| - 1], i);
    } else {
      OpsLength(c, log[..|log| - 1]);
    }
  }

  lemma {:induction false} OpsLength(c: Recorders.Config, log: seq<StoreEvent>)
    ensures |Ops(c, log)| == |log|
  {
    if log != [] { OpsLength(c, log[..|log| - 1]); }
  }

  lemma {:induction false} DrainedIn(log: seq<StoreEvent>, i: nat)
    requires i < |log| && log[i].Drained?
    ensures log[i].rec in DrainedOf(log)
  {
    if i < |log| - 1 { DrainedIn(log[..|log| - 1], i); }
  }

  /** rec is what the service answered, at action m, to the request that arrived at action k and was
      waiting for it, and it was offered to the recorder. */
  ghost predicate RecordedAt(c: Setup, actions: seq<Action>, rec: Record, k: nat, m: nat) {
    && k < m < |actions| && actions[m].Return? && actions[m].up.Answer?
    && ArrivesAt(actions, actions[m].id, k)
    && actions[m].id in Run(c, actions[..m]).calls && Run(c, actions[..m]).calls[actions[m].id].Forwarded?
    && Offers(c.maxBody, actions[k].mode, actions[m].up)
    && rec == RecordOf(actions[k].req, Captured(c.strategy, c.maxBody, actions[k].stream), actions[m].up)
  }

  lemma RecordedLater(c: Setup, actions: seq<Action>, n: nat, rec: Record, k: nat, m: nat)
    requires n <= |actions| && RecordedAt(c, actions[..n], rec, k, m)
    ensures RecordedAt(c, actions, rec, k, m)
  {
    assert actions[..n][..m] == actions[..m];
    assert forall j :: 0 <= j < n ==> actions[..n][j] == actions[j];
  }

  lemma OfferedGrows(c: Setup, s: System, a: Action)
    ensures var s' := Next(c, s, a);
            s'.offered == s.offered
            || (a.Return? && a.id in s.calls && s.calls[a.id].Forwarded? && Offers(c.maxBody, s.calls[a.id].mode, a.up)
                && s'.offered == s.offered
                     + [RecordOf(s.calls[a.id].req, Captured(c.strategy, c.maxBody, s.calls[a.id].stream), a.up)])
  {
  }

  /** Whatever the recorder was offered is the answer to a request of the run. */
  lemma {:induction false} OfferedFrom(c: Setup, actions: seq<Action>, rec: Record) returns (k: nat, m: nat)
    requires rec in Run(c, actions).offered
    ensures RecordedAt(c, actions, rec, k, m)
  {
    var n := |actions| - 1;
    var init, a := actions[..n], actions[n];
    OfferedGrows(c, Run(c, init), a);
    if rec in Run(c, init).offered {
      k, m := OfferedFrom(c, init, rec);
      RecordedLater(c, actions, n, rec, k, m);
    } else {
      m := n;
      k := ArrivalOf(c, init, a.id);
      assert ArrivesAt(actions, a.id, k) by {
        assert forall j :: 0 <= j < n ==> init[j] == actions[j];
      }
    }
  }

  /** Action k seeds the store with e. */
  ghost predicate SeededAt(actions: seq<Action>, e: Entry, k: nat) {
    k < |actions| && actions[k] == SeedOne(e)
  }

  /** A write that puts something, and is not the drain goroutine's, is the seeding by a. */
  ghost predicate PutBy(w: StoreEvent, a: Action) {
    w.External? && w.op.Put? ==> a.SeedOne? && w.op == Lru.Put(a.entry.key, Some(a.entry))
  }

  function LogOf(c: Setup, actions: seq<Action>): seq<StoreEvent> { Run(c, actions).recorder.drain.log }

  lemma LogGrows(c: Setup, s: System, a: Action)
    ensures var log, log' := s.recorder.drain.log, Next(c, s, a).recorder.drain.log;
            log' == log || (log' != [] && log'[..|log'| - 1] == log && PutBy(log'[|log'| - 1], a))
  {
    match a
    case Arrive(_, _, _, _, now) => WrittenBy(c.recorder, s.recorder, Outside(Lru.Get(KeyedOf(c, a).key, now)));
    case Return(id, up) =>
      if id in s.calls && s.calls[id].Forwarded? && up.Answer? {
        var call := s.calls[id];
        WrittenBy(c.recorder, s.recorder, Check(RecordOf(call.req, Captured(c.strategy, c.maxBody, call.stream), up)));
      }
    case Background(step) => WrittenBy(c.recorder, s.recorder, step);
    case SeedOne(e) => WrittenBy(c.recorder, s.recorder, Outside(Lru.Put(e.key, Some(e))));
    case ClearStore => WrittenBy(c.recorder, s.recorder, Outside(Lru.Clear));
    case _ =>
  }

  /** What one step of the recorder adds to the log. */
  lemma WrittenBy(c: Recorders.Config, r: Recorders.State, step: Recorders.Step)
    ensures var log, log' := r.drain.log, Recorders.Next(c, r, step).drain.log;
            || log' == log
            || (log' != [] && log'[..|log'| - 1] == log
                && var w := log'[|log'| - 1]; if step.Outside? then w == External(step.op) else w.Drained?)
  {
  }

  /** Whatever else was put into the store was seeded by an action of the run. */
  lemma {:induction false} PutFrom(c: Setup, actions: seq<Action>, i: nat) returns (k: nat)
    requires i < |LogOf(c, actions)| && LogOf(c, actions)[i].External? && LogOf(c, actions)[i].op.Put?
    ensures k < |actions| && actions[k].SeedOne? && PutBy(LogOf(c, actions)[i], actions[k])
  {
    k := |actions| - 1;
    var log, before := LogOf(c, actions), LogOf(c, actions[..k]);
    LogGrows(c, Run(c, actions[..k]), actions[k]);
    if i < |before| {
      assert before[i] == log[i];
      k := PutFrom(c, actions[..k], i);
    }
  }

  /** The store write a replayed reply comes from, and the actions of the run behind it: a request's
      arrival k and the service's answer m to it, drained since; or the seeding k of an entry. */
  ghost predicate Source(c: Setup, actions: seq<Action>, w: StoreEvent, call: Call, k: nat, m: nat)
    requires call.Served? && call.reply.Some?
  {
    match w
    case Drained(rec) =>
      && RecordedAt(c, actions, rec, k, m) && c.recorder.keyFn(rec.request, rec.requestBody) == call.key
      && var up := actions[m].up; Repeats(call, up.statusCode, Some(up.header), up.body.Contents(), up.latency)
    case External(op) =>
      && op.Put? && op.entry.Some? && SeededAt(actions, op.entry.value, k) && op.entry.value.key == op.key == call.key
      && var e := op.entry.value; Repeats(call, e.statusCode, e.header, e.body, e.observedLatency)
  }

  /** The last write of a key before a hit's look, as the log alone has it. */
  lemma SourceInLog(c: Setup, s: System, call: Call) returns (i: nat)
    requires Recorders.Inv(c.recorder, s.recorder) && CallOk(c.recorder, s.recorder.drain.log, call) && FromCache(call)
    ensures i < |call.seen| && OpOf(c.recorder, call.seen[i]) == Lru.Put(call.key, Some(call.entry))
    ensures forall j :: i < j < |call.seen| ==> !Lru.Overwrites(OpOf(c.recorder, call.seen[j]), call.key)
  {
    i := Lru.LiveSince(c.recorder.store, Ops(c.recorder, call.seen), call.key);
    OpsLength(c.recorder, call.seen);
    OpsAt(c.recorder, call.seen, i);
    forall j | i < j < |call.seen|
      ensures !Lru.Overwrites(OpOf(c.recorder, call.seen[j]), call.key)
    {
      OpsAt(c.recorder, call.seen, j);
    }
  }

  lemma DrainedWasOffered(c: Setup, actions: seq<Action>, i: nat)
    requires var log := Run(c, actions).recorder.drain.log; i < |log| && log[i].Drained?
    ensures Run(c, actions).recorder.drain.log[i].rec in Run(c, actions).offered
  {
    RunInv(c, actions);
    var r := Run(c, actions).recorder;
    DrainedIn(r.drain.log, i);
    assert r.drain.log[i].rec in r.accepted;
  }

  /** Where a write of a run's log comes from. */
  lemma WriteFrom(c: Setup, actions: seq<Action>, i: nat, call: Call) returns (k: nat, m: nat)
    requires call.Served? && call.reply.Some? && ReplyIsEntry(call)
    requires var log := Run(c, actions).recorder.drain.log;
             i < |log| && OpOf(c.recorder, log[i]) == Lru.Put(call.key, Some(call.entry))
    ensures Source(c, actions, Run(c, actions).recorder.drain.log[i], call, k, m)
  {
    var w := Run(c, actions).recorder.drain.log[i];
    if w.Drained? {
      DrainedWasOffered(c, actions, i);
      k, m := OfferedFrom(c, actions, w.rec);
    } else {
      k := PutFrom(c, actions, i);
      m := 0;
    }
  }

  /** A request served from the cache, by its id. */
  ghost predicate ServedIn(c: Setup, actions: seq<Action>, id: nat) {
    var calls := Run(c, actions).calls;
    id in calls && calls[id].Served? && calls[id].reply.Some?
  }

  /** The run behind a replayed reply: the request arrived at action a; the log it saw then ends, as far
      as its key goes, with write i; and that write comes from actions k and m, all before a. */
  ghost predicate ReplayOf(c: Setup, actions: seq<Action>, id: nat, a: nat, i: nat, k: nat, m: nat)
    requires ServedIn(c, actions, id)
  {
    var call := Run(c, actions).calls[id];
    && ArrivesAt(actions, id, a) && call.req == actions[a].req
    && call.key == c.recorder.keyFn(call.req, Captured(c.strategy, c.maxBody, actions[a].stream))
    && call.seen == Run(c, actions[..a]).recorder.drain.log
    && i < |call.seen| && Source(c, actions[..a], call.seen[i], call, k, m)
    && forall j :: i < j < |call.seen| ==> !Lru.Overwrites(OpOf(c.recorder, call.seen[j]), call.key)
  }

  /** Every replayed reply, in every interleaving, repeats the last response drained or seeded under
      its key before its request arrived: the service's answer to an earlier request of the run, or an
      entry seeded in it.  It costs no upstream call. */
  lemma ReplaySound(c: Setup, actions: seq<Action>, id: nat) returns (a: nat, i: nat, k: nat, m: nat)
    requires ServedIn(c, actions, id)
    ensures ReplayOf(c, actions, id, a, i, k, m)
    ensures SentFor(Run(c, actions).sent, id) == []
  {
    RunInv(c, actions);
    var s := Run(c, actions);
    assert CallOk(c.recorder, s.recorder.drain.log, s.calls[id]);
    assert SentFor(s.sent, id) == Due(c, s, id);
    a := ArrivalOf(c, actions, id);
    i := SourceInLog(c, s, s.calls[id]);
    k, m := WriteFrom(c, actions[..a], i, s.calls[id]);
  }

  // ---------------------------------------------------------------- equivalence on true bodies

  /** A strategy that reads no bodies captures none; the other captures the whole body or nothing, and the
      whole of one that fits and does not break. */
  lemma CapturedLaw(strategy: Strategy, cap: nat, stream: Stream)
    ensures !strategy.ExactWithBody? ==> Captured(strategy, cap, stream) == []
    ensures strategy.ExactWithBody? ==>
              Captured(strategy, cap, stream)
              == if |stream.Contents()| <= cap && !exists i: nat :: BreaksPeek(ReadAll, stream, cap, i)
                 then stream.Contents() else []
  {
    CapturedIff(ReadAll, stream, cap);
  }

  /** The strategy sees the request's own body: it reads none, or what it has captured is the body. */
  predicate SeesBody(strategy: Strategy, cap: nat, stream: Stream) {
    strategy.ExactWithBody? ==> Captured(strategy, cap, stream) == stream.Contents()
  }

  /** It does so exactly when the body is empty, or fits with no read breaking. */
  lemma SeesBodyIff(strategy: Strategy, cap: nat, stream: Stream)
    ensures SeesBody(strategy, cap, stream) <==>
              || !strategy.ExactWithBody? || stream.Contents() == []
              || (|stream.Contents()| <= cap && !exists i: nat :: BreaksPeek(ReadAll, stream, cap, i))
  {
    CapturedIff(ReadAll, stream, cap);
  }

  /** Two arrivals, compared by request and by the whole bodies they carried. */
  ghost predicate SameOnBodies(strategy: Strategy, sum64: seq<byte> -> nat, a: Action, b: Action)
    requires a.Arrive? && b.Arrive?
  {
    Equivalent(strategy, sum64, a.req, a.stream.Contents(), b.req, b.stream.Contents())
  }

  /** With a built-in strategy a drained response had been given for a request that agrees with this one
      in everything but the body; and in the body as well if the strategy saw both bodies, else exactly
      when the two bodies have the same hash. */
  lemma ReplayedForEquivalentRequest(c: Setup, sum64: seq<byte> -> nat, actions: seq<Action>, id: nat)
    returns (a: nat, i: nat, k: nat, m: nat)
    requires forall r, b :: c.recorder.keyFn(r, b) == KeyOf(c.strategy, sum64, r, b)
    requires ServedIn(c, actions, id)
    ensures ReplayOf(c, actions, id, a, i, k, m)
    ensures Run(c, actions).calls[id].seen[i].Drained?
            && Delimited(c.strategy, actions[a].req) && Delimited(c.strategy, actions[k].req) ==>
              && (SeesBody(c.strategy, c.maxBody, actions[a].stream)
                  && SeesBody(c.strategy, c.maxBody, actions[k].stream) ==>
                    SameOnBodies(c.strategy, sum64, actions[a], actions[k]))
              && (SameOnBodies(c.strategy, sum64, actions[a], actions[k]) <==>
                    (c.strategy.ExactWithBody? ==>
                       sum64(actions[a].stream.Contents()) == sum64(actions[k].stream.Contents())))
  {
    a, i, k, m := ReplaySound(c, actions, id);
    var call := Run(c, actions).calls[id];
    if call.seen[i].Drained? && Delimited(c.strategy, actions[a].req) && Delimited(c.strategy, actions[k].req) {
      assert actions[..a][k] == actions[k];
      KeyCanonical(c.strategy, sum64, actions[a].req, Captured(c.strategy, c.maxBody, actions[a].stream),
                   actions[k].req, Captured(c.strategy, c.maxBody, actions[k].stream));
    }
  }

  /** For one hash: the keys of two arrivals agree exactly when the arrivals do. */
  ghost predicate KeysTell(sum64: seq<byte> -> nat, cap: nat, r: Request, s1: Stream, s2: Stream) {
    KeyOf(ExactWithBody, sum64, r, Captured(ExactWithBody, cap, s1))
    == KeyOf(ExactWithBody, sum64, r, Captured(ExactWithBody, cap, s2))
    <==> sum64(s1.Contents()) == sum64(s2.Contents())
  }

  /** Sharing a key tells bodies apart, whatever the hash, if and only if the strategy saw both bodies, or
      both the captures and the bodies are the same. */
  lemma KeysTellIff(cap: nat, r: Request, s1: Stream, s2: Stream)
    ensures (forall sum64 :: KeysTell(sum64, cap, r, s1, s2)) <==>
              || (SeesBody(ExactWithBody, cap, s1) && SeesBody(ExactWithBody, cap, s2))
              || (Captured(ExactWithBody, cap, s1) == Captured(ExactWithBody, cap, s2)
                  && s1.Contents() == s2.Contents())
  {
    var c1, c2 := Captured(ExactWithBody, cap, s1), Captured(ExactWithBody, cap, s2);
    forall sum64: seq<byte> -> nat
      ensures KeysTell(sum64, cap, r, s1, s2) <==>
                (sum64(c1) == sum64(c2) <==> sum64(s1.Contents()) == sum64(s2.Contents()))
    {
      SameRequestKeys(sum64, r, c1, c2);
    }
    var one := (b: seq<byte>) => if b == s1.Contents() then 1 else 0;
    var two := (b: seq<byte>) => if b == s2.Contents() then 1 else 0;
    assert KeysTell(one, cap, r, s1, s2) <==> (one(c1) == one(c2) <==> one(s1.Contents()) == one(s2.Contents()));
    assert KeysTell(two, cap, r, s1, s2) <==> (two(c1) == two(c2) <==> two(s1.Contents()) == two(s2.Contents()));
  }

  /** Whatever a strategy does not see it takes for empty: an unseen body shares the key of an empty one,
      and of any other unseen one. */
  lemma UnseenBodiesCollide(sum64: seq<byte> -> nat, cap: nat, r: Request, s1: Stream, s2: Stream)
    requires Capture(s1, cap).None? || s1.Contents() == []
    requires Capture(s2, cap).None? || s2.Contents() == []
    ensures KeyOf(ExactWithBody, sum64, r, Captured(ExactWithBody, cap, s1))
            == KeyOf(ExactWithBody, sum64, r, Captured(ExactWithBody, cap, s2))
            == KeyOf(ExactWithBody, sum64, r, [])
  {
  }

  // ---------------------------------------------------------------- what goes upstream

  /** Action k is the arrival of request id. */
  ghost predicate ArrivesAt(actions: seq<Action>, id: nat, k: nat) {
    && k < |actions| && actions[k].Arrive? && actions[k].id == id
    && forall j :: 0 <= j < k && actions[j].Arrive? ==> actions[j].id != id
  }

  /** The cache is consulted in the two replay modes and in no other. */
  function Consulted(c: Setup, before: System, a: Action): Option<Entry>
    requires a.Arrive?
  {
    if a.mode == Replay || a.mode == ReplayDelay then
      Lru.Lookup(c.recorder.store, before.recorder.drain.store,
                 c.recorder.keyFn(a.req, Captured(c.strategy, c.maxBody, a.stream)), a.now)
    else None
  }

  /** A call keeps the request, the body and the mode it arrived with; a hit's log is the one it saw, and
      its entry what the cache held then. */
  ghost predicate IsArrival(c: Setup, before: System, call: Call, a: Action) {
    && a.Arrive? && FromCache(call) == Consulted(c, before, a).Some?
    && (FromCache(call) ==> Consulted(c, before, a) == Some(call.entry))
    && call.req == a.req && (!call.Answered? ==> call.mode == a.mode)
    && if FromCache(call) then
         call.body == Captured(c.strategy, c.maxBody, a.stream) && call.seen == before.recorder.drain.log
       else call.stream == a.stream
  }

  lemma ArrivalStep(c: Setup, s: System, b: Action, id: nat, before: System, a: Action)
    requires a.Arrive? && id in Next(c, s, b).calls
    requires if id in s.calls then IsArrival(c, before, s.calls[id], a) else b == a && s == before
    ensures IsArrival(c, before, Next(c, s, b).calls[id], a)
  {
  }

  lemma {:induction false} ArrivalOf(c: Setup, actions: seq<Action>, id: nat) returns (k: nat)
    requires id in Run(c, actions).calls
    ensures ArrivesAt(actions, id, k)
    ensures IsArrival(c, Run(c, actions[..k]), Run(c, actions).calls[id], actions[k])
  {
    var n := |actions| - 1;
    var init := actions[..n];
    if id in Run(c, init).calls {
      k := ArrivalOf(c, init, id);
      assert init[..k] == actions[..k];
    } else {
      k := n;
      forall j | 0 <= j < n && actions[j].Arrive? ensures actions[j].id != id {
        ArrivedStays(c, init, j);
      }
    }
    ArrivalStep(c, Run(c, init), actions[n], id, Run(c, actions[..k]), actions[k]);
  }

  lemma {:induction false} ArrivedStays(c: Setup, actions: seq<Action>, j: nat)
    requires j < |actions| && actions[j].Arrive?
    ensures actions[j].id in Run(c, actions).calls
  {
    if j < |actions| - 1 { ArrivedStays(c, actions[..|actions| - 1], j); }
  }

  /** A hit sends nothing upstream; any other request sends exactly one call, the request it arrived as
      with its own body, less what a read error lost while the body was being captured. */
  lemma OneTripPerMiss(c: Setup, actions: seq<Action>, id: nat) returns (k: nat)
    requires id in Run(c, actions).calls
    ensures ArrivesAt(actions, id, k)
    ensures var s, a := Run(c, actions), actions[k];
            SentFor(s.sent, id)
            == if FromCache(s.calls[id]) || s.calls[id].Missed? then []
               else [Sent(id, a.req, Onward(c.strategy, c.maxBody, a.stream))]
  {
    RunInv(c, actions);
    k := ArrivalOf(c, actions, id);
    assert SentFor(Run(c, actions).sent, id) == Due(c, Run(c, actions), id);
  }

  /** The body goes upstream whole unless the strategy reads bodies and a read breaks in the capture
      after something has been read; then what was taken by then is missing in front. */
  lemma OnwardWholeIff(strategy: Strategy, cap: nat, stream: Stream)
    ensures forall i: nat :: strategy.ExactWithBody? && LosesAt(ReadAll, stream, cap, i) ==>
              Onward(strategy, cap, stream) == stream.Contents()[TakenBy(stream, cap, i)..]
    ensures Onward(strategy, cap, stream) == stream.Contents()
            <==> !(strategy.ExactWithBody? && exists i: nat :: LosesAt(ReadAll, stream, cap, i))
  {
    LosesIff(ReadAll, stream, cap);
    assert stream.Contents()[0..] == stream.Contents();
    assert |stream.Contents()[Lost(ReadAll, stream, cap)..]| == |stream.Contents()| - Lost(ReadAll, stream, cap);
  }

  // ---------------------------------------------------------------- what the caller gets

  /** A request is served from the cache, with the entry found and nothing sent upstream, exactly when its
      mode is one of the two replay modes and an entry that has not expired is there under its key when
      it arrives; in any other mode, and without such an entry, it goes upstream, once. */
  lemma ServedIffFound(c: Setup, actions: seq<Action>, id: nat) returns (a: nat)
    requires id in Run(c, actions).calls
    ensures ArrivesAt(actions, id, a)
    ensures var arrival, before := actions[a], Run(c, actions[..a]);
            var key := c.recorder.keyFn(arrival.req, Captured(c.strategy, c.maxBody, arrival.stream));
            var look := Lru.Lookup(c.recorder.store, before.recorder.drain.store, key, arrival.now);
            var call, sent := Run(c, actions).calls[id], SentFor(Run(c, actions).sent, id);
            if (arrival.mode == Replay || arrival.mode == ReplayDelay) && look.Some? then
              (call.Serving? || call.Served?) && call.entry == look.value && sent == []
            else
              || (call.Missed? && sent == [])
              || ((call.Forwarded? || call.Answered?)
                  && sent == [Sent(id, arrival.req, Onward(c.strategy, c.maxBody, arrival.stream))])
  {
    RunInv(c, actions);
    a := ArrivalOf(c, actions, id);
    assert SentFor(Run(c, actions).sent, id) == Due(c, Run(c, actions), id);
  }

  /** Action j serves request id, which was waiting for it. */
  ghost predicate ServesAt(c: Setup, actions: seq<Action>, id: nat, j: nat) {
    && j < |actions| && actions[j].Serve? && actions[j].id == id
    && id in Run(c, actions[..j]).calls && Run(c, actions[..j]).calls[id].Serving?
  }

  lemma ServeStep(c: Setup, s: System, a: Action, id: nat)
    requires id in Next(c, s, a).calls && Next(c, s, a).calls[id].Served?
    ensures id in s.calls
    ensures if s.calls[id].Served? then Next(c, s, a).calls[id] == s.calls[id]
            else s.calls[id].Serving? && a.Serve? && a.id == id
                 && Next(c, s, a) == ServeNext(s, id, a.delay, a.cancelled)
  {
  }

  /** A hit's reply is its entry, tagged with its mode, unless it waits in replay_with_delay and is
      cancelled in the wait, and then there is none. */
  lemma {:induction false} HitReply(c: Setup, actions: seq<Action>, id: nat) returns (j: nat)
    requires id in Run(c, actions).calls && Run(c, actions).calls[id].Served?
    ensures ServesAt(c, actions, id, j)
    ensures var call, serve := Run(c, actions).calls[id], actions[j];
            if call.mode == ReplayDelay && serve.delay > 0 && serve.cancelled then call.reply == None
            else
              && call.reply.Some? && call.reply.value.statusCode == call.entry.statusCode
              && call.reply.value.body == call.entry.body
              && "X-Atropos-Cache-Mode" in call.reply.value.header
              && (call.mode == Replay ==> call.reply.value.header["X-Atropos-Cache-Mode"] == ["replay"])
              && (call.mode == ReplayDelay ==>
                    call.reply.value.header["X-Atropos-Cache-Mode"] == ["replay_with_delay"])
  {
    j := |actions| - 1;
    var s := Run(c, actions[..j]);
    ServeStep(c, s, actions[j], id);
    if s.calls[id].Served? {
      j := HitReply(c, actions[..j], id);
      assert actions[..|actions| - 1][..j] == actions[..j];
    } else {
      var call := s.calls[id];
      TagsOnly(call.entry, call.key, call.mode, if call.mode.ReplayDelay? then actions[j].delay else 0);
    }
  }

  /** Action m is the service's answer to request id, which was waiting for it. */
  ghost predicate ReturnsAt(c: Setup, actions: seq<Action>, id: nat, m: nat) {
    && m < |actions| && actions[m].Return? && actions[m].id == id
    && id in Run(c, actions[..m]).calls && Run(c, actions[..m]).calls[id].Forwarded?
  }

  lemma AnswerStep(c: Setup, s: System, a: Action, id: nat)
    requires id in Next(c, s, a).calls && Next(c, s, a).calls[id].Answered?
    ensures id in s.calls
    ensures if s.calls[id].Answered? then Next(c, s, a).calls[id] == s.calls[id]
            else s.calls[id].Forwarded? && a.Return? && a.id == id && Next(c, s, a) == ReturnNext(c, s, id, a.up)
  {
  }

  /** What a forwarded call's reply is, by the answer alone: none exactly when there is no answer or, in a
      known mode, a read of its body breaks in the peek; else upstream's status, all of its body, and
      its header, to which only an answer that fits, in a known mode, adds the key and latency tags. */
  ghost predicate AnswersWith(cap: nat, mode: Mode, key: string, up: Upstream, reply: Option<Response>) {
    && (reply.None? <==> up.Down? || (mode != Unknown && exists i: nat :: BreaksPeek(CopyN, up.body, cap, i)))
    && (reply.Some? ==>
          && reply.value.statusCode == up.statusCode && reply.value.body == up.body.Contents()
          && var h := reply.value.header;
             if mode == Unknown || |up.body.Contents()| > cap then h == up.header
             else
               && "X-Atropos-Cache-Key" in h && h["X-Atropos-Cache-Key"] == [key]
               && "X-Atropos-Cache-Latency-Us" in h && h["X-Atropos-Cache-Latency-Us"] == [Micros(up.latency)]
               && forall k :: k != "X-Atropos-Cache-Key" && k != "X-Atropos-Cache-Latency-Us" ==>
                    (k in h <==> k in up.header) && (k in h ==> h[k] == up.header[k]))
  }

  lemma ReplyAnswers(cap: nat, mode: Mode, key: string, up: Upstream)
    ensures AnswersWith(cap, mode, key, up, ReplyTo(cap, mode, key, up))
  {
    if up.Answer? {
      PeekFailsIff(CopyN, up.body, cap);
      CapturedIff(CopyN, up.body, cap);
      PassthroughTags(up.header, key, up.latency);
    }
  }

  /** Every forwarded call's reply, in every interleaving, is the service's answer handed on; and an answer
      that is handed on within the cap in a known mode has been offered to the recorder, with the
      request it answers. */
  lemma {:induction false} AnswerHandedOn(c: Setup, actions: seq<Action>, id: nat) returns (a: nat, m: nat)
    requires id in Run(c, actions).calls && Run(c, actions).calls[id].Answered?
    ensures ArrivesAt(actions, id, a) && ReturnsAt(c, actions, id, m)
    ensures var arrival, up, reply := actions[a], actions[m].up, Run(c, actions).calls[id].reply;
            var body := Captured(c.strategy, c.maxBody, arrival.stream);
            && AnswersWith(c.maxBody, arrival.mode, c.recorder.keyFn(arrival.req, body), up, reply)
            && (arrival.mode != Unknown && reply.Some? && |up.body.Contents()| <= c.maxBody ==>
                  Record(arrival.req, body, up.statusCode, Some(up.header), up.body.Contents(), up.latency, up.at)
                  in Run(c, actions).offered)
  {
    var n := |actions| - 1;
    var s := Run(c, actions[..n]);
    AnswerStep(c, s, actions[n], id);
    if s.calls[id].Answered? {
      a, m := AnswerHandedOn(c, actions[..n], id);
      assert actions[..n][..m] == actions[..m];
      assert forall j :: 0 <= j < n ==> actions[..n][j] == actions[j];
      OfferedGrows(c, s, actions[n]);
    } else {
      m := n;
      a := ArrivalOf(c, actions[..n], id);
      assert forall j :: 0 <= j < n ==> actions[..n][j] == actions[j];
      AnsweredNow(c, actions[..n], id, a, actions[n].up);
    }
  }

  lemma AnsweredNow(c: Setup, init: seq<Action>, id: nat, a: nat, up: Upstream)
    requires id in Run(c, init).calls && Run(c, init).calls[id].Forwarded?
    requires ArrivesAt(init, id, a) && IsArrival(c, Run(c, init[..a]), Run(c, init).calls[id], init[a])
    ensures var s' := ReturnNext(c, Run(c, init), id, up);
            var reply, body := s'.calls[id].reply, Captured(c.strategy, c.maxBody, init[a].stream);
            && AnswersWith(c.maxBody, init[a].mode, c.recorder.keyFn(init[a].req, body), up, reply)
            && (init[a].mode != Unknown && reply.Some? && |up.body.Contents()| <= c.maxBody ==>
                  Record(init[a].req, body, up.statusCode, Some(up.header), up.body.Contents(), up.latency, up.at)
                  in s'.offered)
  {
    RunInv(c, init);
    var call := Run(c, init).calls[id];
    assert KeyKept(c, call);
    ReplyAnswers(c.maxBody, call.mode, call.key, up);
    if up.Answer? {
      CapturedIff(CopyN, up.body, c.maxBody);
    }
  }

  /** The drain goroutine gets on beside the requests: three steps of its own take the oldest record into
      the store, count it and leave it ready for the next. */
  lemma DrainGetsOn(c: Setup, s: System)
    requires Recorders.Inv(c.recorder, s.recorder) && s.recorder.drain.phase == Idle && s.recorder.queue != []
    ensures var s' := Next(c, Next(c, Next(c, s, Background(Receive)), Background(Store)), Background(Count));
            var e := EntryOf(c.recorder.keyFn, s.recorder.queue[0]);
            && s'.calls == s.calls && s'.sent == s.sent
            && s'.recorder.queue == s.recorder.queue[1..] && s'.recorder.drain.phase == Idle
            && s'.recorder.drain.recorded == s.recorder.drain.recorded + 1
            && s'.recorder.drain.store == Lru.Step(c.recorder.store, s.recorder.drain.store, Lru.Put(e.key, Some(e)))
  {
    DrainTurnFacts(c.recorder, s.recorder);
  }

  /** Seeding puts the entry in front; clearing leaves nothing. */
  lemma SeedAndClear(c: Setup, s: System, e: Entry)
    ensures var seeded := Next(c, s, SeedOne(e)).recorder.drain.store.lru;
            var cleared := Next(c, s, ClearStore).recorder.drain.store.lru;
            seeded != [] && seeded[0] == Lru.Node(e.key, e) && cleared == []
  {
  }

  // ---------------------------------------------------------------- a miss warms the cache

  lemma {:induction false} OpsTail(c: Recorders.Config, log: seq<StoreEvent>, i: nat)
    requires i <= |log|
    ensures |Ops(c, log)| == |log| && Ops(c, log)[i..] == Ops(c, log[i..])
    decreases |log|
  {
    OpsLength(c, log);
    if i < |log| {
      var n := |log| - 1;
      OpsTail(c, log[..n], i);
      assert log[i..][..n - i] == log[..n][i..];
      assert Ops(c, log) == Ops(c, log[..n]) + [OpOf(c, log[n])];
      OpsLength(c, log[..n]);
      assert Ops(c, log)[i..] == Ops(c, log[..n])[i..] + [OpOf(c, log[n])];
    }
  }

  /** The store event at index i of a log leaves an entry that later events spare. */
  ghost predicate Undisturbed(c: Recorders.Config, log: seq<StoreEvent>, i: nat, e: Entry)
    requires i < |log|
  {
    && (forall j :: i < j < |log| ==> Lru.Spares(c.store, OpOf(c, log[j]), e.key, e))
    && (c.store.maxEntries <= 0 || |Lru.Touched(Ops(c, log[i + 1..])) - {e.key}| < c.store.maxEntries)
  }

  lemma PutIsFound(cfg: Lru.Config, ops: seq<Lru.Op>, i: nat, k: string, e: Entry)
    requires i < |ops| && ops[i] == Lru.Put(k, Some(e))
    ensures Lru.Find(Lru.Run(cfg, ops[..i + 1]).lru, k) == Some(e)
  {
    Lru.RunValid(cfg, ops[..i]);
    Lru.StepValid(cfg, Lru.Run(cfg, ops[..i]), ops[i]);
    Lru.RunSnoc(cfg, ops[..i], ops[i]);
    assert ops[..i] + [ops[i]] == ops[..i + 1];
  }

  lemma DrainedIsResident(c: Recorders.Config, log: seq<StoreEvent>, i: nat)
    requires i < |log| && log[i].Drained? && Undisturbed(c, log, i, EntryOf(c.keyFn, log[i].rec))
    ensures var e := EntryOf(c.keyFn, log[i].rec);
            Lru.Find(Lru.Run(c.store, Ops(c, log)).lru, e.key) == Some(e)
  {
    var e, ops := EntryOf(c.keyFn, log[i].rec), Ops(c, log);
    OpsTail(c, log, i + 1);
    OpsAt(c, log, i);
    forall j | i < j < |ops| ensures Lru.Spares(c.store, ops[j], e.key, e) {
      OpsAt(c, log, j);
    }
    Lru.UsedIsFirst(c.store, ops, i, e.key);
    PutIsFound(c.store, ops, i, e.key, e);
    Lru.StaysResident(c.store, ops, i, e.key, e);
  }

  /** Once the answer to a miss has been recorded and drained, every replay under the miss's key is
      served that answer, in any run, until it expires, until the key is written or removed, or until
      as many other keys as the store holds have been written or looked up. */
  lemma MissThenHit(c: Setup, actions: seq<Action>, k: nat, i: nat, again: Action)
    requires k < |actions| && actions[k].Return?
    requires var s, id := Run(c, actions[..k]), actions[k].id;
             id in s.calls && s.calls[id].Forwarded? && Offers(c.maxBody, s.calls[id].mode, actions[k].up)
    requires var call, log := Run(c, actions[..k]).calls[actions[k].id], Run(c, actions).recorder.drain.log;
             var rec := RecordOf(call.req, Captured(c.strategy, c.maxBody, call.stream), actions[k].up);
             && i < |log| && log[i] == Drained(rec) && Undisturbed(c.recorder, log, i, EntryOf(c.recorder.keyFn, rec))
             && again.Arrive? && again.id !in Run(c, actions).calls && Looks(again.mode)
             && c.recorder.keyFn(again.req, Captured(c.strategy, c.maxBody, again.stream)) == call.key
             && (c.recorder.store.ttl > 0 ==> again.now - actions[k].up.at <= c.recorder.store.ttl)
    ensures var call, up := Run(c, actions[..k]).calls[actions[k].id], actions[k].up;
            var s' := Next(c, Run(c, actions), again);
            && again.id in s'.calls && s'.calls[again.id].Serving?
            && s'.calls[again.id].entry
               == Entry(call.key, up.statusCode, Some(up.header), up.body.Contents(), up.latency, up.at)
  {
    RunInv(c, actions);
    RunInv(c, actions[..k]);
    var call := Run(c, actions[..k]).calls[actions[k].id];
    assert KeyKept(c, call);
    DrainedIsResident(c.recorder, Run(c, actions).recorder.drain.log, i);
  }

  // ---------------------------------------------------------------- one request undisturbed

  /** The steps of one undisturbed request. */
  function PathOf(c: Setup, s: System, a: Action, up: Upstream, delay: int, cancelled: bool): seq<Action>
    requires a.Arrive?
  {
    var s1 := Next(c, s, a);
    if a.id in s1.calls && s1.calls[a.id].Serving? then [a, Serve(a.id, delay, cancelled)]
    else [a, Forward(a.id), Return(a.id, up), Background(Send(|s.recorder.checking|))]
  }

  lemma RunTwo(c: Setup, h: seq<Action>, a: Action, b: Action)
    ensures Run(c, h + [a, b]) == Next(c, Next(c, Run(c, h), a), b)
  {
    assert (h + [a, b])[..|h| + 1] == h + [a] && (h + [a])[..|h|] == h;
  }

  lemma RunFour(c: Setup, h: seq<Action>, a: Action, b: Action, d: Action, e: Action)
    ensures Run(c, h + [a, b, d, e]) == Next(c, Next(c, Next(c, Next(c, Run(c, h), a), b), d), e)
  {
    RunTwo(c, h, a, b);
    RunTwo(c, h + [a, b], d, e);
    assert h + [a, b] + [d, e] == h + [a, b, d, e];
  }

  /** The state that path leads to. */
  function AfterPath(c: Setup, s: System, a: Action, up: Upstream, delay: int, cancelled: bool): System
    requires a.Arrive?
  {
    var s1 := Next(c, s, a);
    if a.id in s1.calls && s1.calls[a.id].Serving? then Next(c, s1, Serve(a.id, delay, cancelled))
    else Next(c, Next(c, Next(c, s1, Forward(a.id)), Return(a.id, up)), Background(Send(|s.recorder.checking|)))
  }

  lemma PathRuns(c: Setup, h: seq<Action>, a: Action, up: Upstream, delay: int, cancelled: bool)
    requires a.Arrive?
    ensures Run(c, h + PathOf(c, Run(c, h), a, up, delay, cancelled))
            == AfterPath(c, Run(c, h), a, up, delay, cancelled)
  {
    var s := Run(c, h);
    RunTwo(c, h, a, Serve(a.id, delay, cancelled));
    RunFour(c, h, a, Forward(a.id), Return(a.id, up), Background(Send(|s.recorder.checking|)));
  }

  /** A request once its key is known: its own body is captured, and `onward` is left to forward. */
  datatype Keyed = Keyed(
    id: nat, req: Request, mode: Mode, now: int, key: string, captured: seq<byte>, onward: seq<byte>)

  function KeyedOf(c: Setup, a: Action): Keyed
    requires a.Arrive?
  {
    var captured := Captured(c.strategy, c.maxBody, a.stream);
    Keyed(a.id, a.req, a.mode, a.now, c.recorder.keyFn(a.req, captured), captured,
          Onward(c.strategy, c.maxBody, a.stream))
  }

  /** The entry the request finds, if it looks. */
  function HitAt(c: Setup, r: Recorders.State, q: Keyed): Option<Entry> {
    if Looks(q.mode) then Lru.Lookup(c.recorder.store, r.drain.store, q.key, q.now) else None
  }

  /** The recorder after that look. */
  function Looked(c: Setup, r: Recorders.State, q: Keyed): Recorders.State {
    if Looks(q.mode) then Recorders.Next(c.recorder, r, Outside(Lru.Get(q.key, q.now))) else r
  }

  /** The reply to a hit: the entry, unless cancelled in the delay. */
  function Replayed(e: Entry, key: string, mode: Mode, delay: int, cancelled: bool): Option<Response> {
    var wait := if mode.ReplayDelay? then delay else 0;
    if wait > 0 && cancelled then None
    else Some(Response(e.statusCode, ServedHeader(e, key, mode, wait), e.body))
  }

  /** What one request comes to: the reply, the upstream calls, and the recorder.  A hit makes no call
      and changes nothing but the look; anything else makes one, and offers its answer when it fits. */
  datatype Outcome = Outcome(reply: Option<Response>, sent: seq<Sent>, recorder: Recorders.State)

  function Handled(c: Setup, r: Recorders.State, q: Keyed, up: Upstream, delay: int, cancelled: bool): Outcome {
    var hit, looked := HitAt(c, r, q), Looked(c, r, q);
    if hit.Some? then Outcome(Replayed(hit.value, q.key, q.mode, delay, cancelled), [], looked)
    else
      Outcome(ReplyTo(c.maxBody, q.mode, q.key, up), [Sent(q.id, q.req, q.onward)],
              if Offers(c.maxBody, q.mode, up) then RecordCall(c.recorder, looked, RecordOf(q.req, q.captured, up))
              else looked)
  }

  /** Reply, recorder and upstream calls after a request are what it comes to. */
  ghost predicate HandledAs(c: Setup, q: Keyed, up: Upstream, delay: int, cancelled: bool,
                            r: Recorders.State, sent: seq<Sent>,
                            reply: Option<Response>, r': Recorders.State, sent': seq<Sent>)
  {
    var h := Handled(c, r, q, up, delay, cancelled);
    reply == h.reply && r' == h.recorder && sent' == sent + h.sent
  }

  lemma HitHandled(c: Setup, q: Keyed, up: Upstream, delay: int, cancelled: bool, r: Recorders.State, sent: seq<Sent>)
    requires HitAt(c, r, q).Some?
    ensures HandledAs(c, q, up, delay, cancelled, r, sent,
                      Replayed(HitAt(c, r, q).value, q.key, q.mode, delay, cancelled), Looked(c, r, q), sent)
  {
  }

  lemma MissHandled(c: Setup, q: Keyed, up: Upstream, delay: int, cancelled: bool, r: Recorders.State, sent: seq<Sent>)
    requires HitAt(c, r, q).None?
    ensures var looked := Looked(c, r, q);
            HandledAs(c, q, up, delay, cancelled, r, sent, ReplyTo(c.maxBody, q.mode, q.key, up),
                      if Offers(c.maxBody, q.mode, up)
                      then RecordCall(c.recorder, looked, RecordOf(q.req, q.captured, up)) else looked,
                      sent + [Sent(q.id, q.req, q.onward)])
  {
  }

  /** There is no reply exactly when a hit is cancelled in its delay, when the service gives none, or
      when a read of its body breaks while it is peeked at; and an answer reaches the recorder exactly
      when none does and it fits. */
  lemma NoReplyIff(c: Setup, r: Recorders.State, q: Keyed, up: Upstream, delay: int, cancelled: bool)
    ensures Handled(c, r, q, up, delay, cancelled).reply.None? <==>
              if HitAt(c, r, q).Some? then q.mode.ReplayDelay? && delay > 0 && cancelled
              else up.Down? || (!q.mode.Unknown? && exists i: nat :: BreaksPeek(CopyN, up.body, c.maxBody, i))
    ensures Offers(c.maxBody, q.mode, up) <==>
              && up.Answer? && !q.mode.Unknown? && |up.body.Contents()| <= c.maxBody
              && !exists i: nat :: BreaksPeek(CopyN, up.body, c.maxBody, i)
  {
    if up.Answer? {
      PeekFailsIff(CopyN, up.body, c.maxBody);
      CapturedIff(CopyN, up.body, c.maxBody);
    }
  }

  lemma HandledFacts(c: Setup, s: System, a: Action, up: Upstream, delay: int, cancelled: bool)
    requires a.Arrive? && a.id !in s.calls
    ensures var s' := AfterPath(c, s, a, up, delay, cancelled);
            var h := Handled(c, s.recorder, KeyedOf(c, a), up, delay, cancelled);
            && s'.recorder == h.recorder && s'.sent == s.sent + h.sent
            && a.id in s'.calls && (s'.calls[a.id].Served? || s'.calls[a.id].Answered?)
            && s'.calls[a.id].reply == h.reply
  {
    if HitAt(c, s.recorder, KeyedOf(c, a)).Some? {
      assert s.sent + [] == s.sent;
    }
  }

  /** Handling a request undisturbed, after any history, is a run of the dispatcher's steps: what the
      laws of all runs say of its call they say of this reply. */
  lemma HandledIsPath(c: Setup, h: seq<Action>, a: Action, up: Upstream, delay: int, cancelled: bool)
    requires a.Arrive? && a.id !in Run(c, h).calls
    ensures var s, s' := Run(c, h), Run(c, h + PathOf(c, Run(c, h), a, up, delay, cancelled));
            var handled := Handled(c, s.recorder, KeyedOf(c, a), up, delay, cancelled);
            && s'.recorder == handled.recorder && s'.sent == s.sent + handled.sent
            && a.id in s'.calls && (s'.calls[a.id].Served? || s'.calls[a.id].Answered?)
            && s'.calls[a.id].reply == handled.reply
  {
    PathRuns(c, h, a, up, delay, cancelled);
    HandledFacts(c, Run(c, h), a, up, delay, cancelled);
  }

  // ---------------------------------------------------------------- a body served for another

  /** A request with a body over the cap is answered and recorded; then one with no body replays. */
  function OversizeThenEmpty(r: Request, big: Stream, up: Upstream): seq<Action>
    requires up.Answer?
  {
    [] + [Arrive(0, r, big, Passthrough, up.at), Forward(0), Return(0, up), Background(Send(0))]
    + [Background(Receive), Background(Store), Background(Count), Arrive(1, r, NO_BODY, Replay, up.at)]
    + [Serve(1, 0, false)]
  }

  lemma AnsweredAndQueued(c: Setup, r: Request, stream: Stream, up: Upstream)
    requires c.recorder.bufSize >= 1 && Fits(c.maxBody, up)
    ensures var rec := RecordOf(r, Captured(c.strategy, c.maxBody, stream), up);
            var s := Run(c, [] + [Arrive(0, r, stream, Passthrough, up.at), Forward(0), Return(0, up),
                                  Background(Send(0))]);
            && s.calls.Keys == {0} && s.recorder.queue == [rec]
            && s.recorder.drain == Recorders.INITIAL.drain
  {
    var a := Arrive(0, r, stream, Passthrough, up.at);
    RunFour(c, [], a, Forward(0), Return(0, up), Background(Send(0)));
    var s1 := Next(c, START, a);
    assert s1.calls == map[0 := Missed(r, stream, KeyedOf(c, a).key, Passthrough)] && s1.recorder == Recorders.INITIAL;
    var s2 := Next(c, s1, Forward(0));
    assert s2.calls.Keys == {0} && s2.calls[0].Forwarded? && s2.recorder == Recorders.INITIAL;
    var s3 := Next(c, s2, Return(0, up));
    assert s3.calls.Keys == {0};
    assert s3.recorder.checking == [RecordOf(r, Captured(c.strategy, c.maxBody, stream), up)];
  }

  lemma DrainedAndFound(c: Setup, s: System, rec: Record, again: Action)
    requires s.recorder.queue == [rec] && s.recorder.drain == Recorders.INITIAL.drain
    requires again.Arrive? && again.id !in s.calls && Looks(again.mode) && again.now == rec.timestamp
    requires KeyedOf(c, again).key == c.recorder.keyFn(rec.request, rec.requestBody)
    ensures var s1 := Next(c, Next(c, Next(c, s, Background(Receive)), Background(Store)), Background(Count));
            var s' := Next(c, s1, again);
            && again.id in s'.calls && s'.calls[again.id].Serving?
            && s'.calls[again.id].entry == EntryOf(c.recorder.keyFn, rec)
  {
    var e := EntryOf(c.recorder.keyFn, rec);
    var s3 := Next(c, Next(c, Next(c, s, Background(Receive)), Background(Store)), Background(Count));
    assert s3.calls == s.calls;
    assert s3.recorder.drain.store == Lru.Step(c.recorder.store, Lru.EMPTY, Lru.Put(e.key, Some(e)));
    assert Lru.Find(s3.recorder.drain.store.lru, e.key) == Some(e);
  }

  /** The request without a body is served what was answered to the one with the large body, although
      their bodies do not even have the same hash. */
  lemma EmptyServedOversizeAnswer(c: Setup, sum64: seq<byte> -> nat, r: Request, big: Stream, up: Upstream)
    requires c.strategy == ExactWithBody && c.recorder.bufSize >= 1
    requires |big.Contents()| > c.maxBody && Fits(c.maxBody, up) && sum64(big.Contents()) != sum64([])
    ensures var actions := OversizeThenEmpty(r, big, up);
            && ServedIn(c, actions, 1) && Run(c, actions).calls[1].reply.value.body == up.body.Contents()
            && actions[0].stream == big && actions[7].stream == NO_BODY
            && !SameOnBodies(ExactWithBody, sum64, actions[7], actions[0])
  {
    var h := [] + [Arrive(0, r, big, Passthrough, up.at), Forward(0), Return(0, up), Background(Send(0))];
    var again := Arrive(1, r, NO_BODY, Replay, up.at);
    var h' := h + [Background(Receive), Background(Store), Background(Count), again];
    AnsweredAndQueued(c, r, big, up);
    RunFour(c, h, Background(Receive), Background(Store), Background(Count), again);
    DrainedAndFound(c, Run(c, h), RecordOf(r, [], up), again);
    assert Run(c, h' + [Serve(1, 0, false)]) == Next(c, Run(c, h'), Serve(1, 0, false)) by {
      assert (h' + [Serve(1, 0, false)])[..|h'|] == h';
    }
    assert NO_BODY.Contents() == [];
  }
}
