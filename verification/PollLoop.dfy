/** The client of the control plane: the poll loop with its failure streaks, backoff,
    re-registrations and rule versions. */
module PollLoop {
  import opened Base
  import opened Rules

  datatype Status = Disconnected | Connected | Degraded

  /** What one GET of the rules comes to: 304, a readable 200, or any error. */
  datatype Fetch = NotModified | Payload(version: nat, rules: seq<CompiledRule>) | Failed

  /** What ConnectManteion, the loop and the register goroutines do: the one fetch before the loop, a
      poll of the loop, the store of Connected that ConnectManteion makes once the loop is running, and
      a register response being applied (only the rules part matters here). */
  datatype Event = Fetched(fetch: Fetch) | Poll(fetch: Fetch) | Connect | Registered(rules: seq<CompiledRule>)

  datatype Client = Client(
    failures: nat,
    status: Status,
    version: nat,
    rules: seq<StaticRule>,
    registers: nat,      // register goroutines launched by the loop
    wait: int)           // the ticker's period

  const MAX_BACKOFF := 60_000_000_000

  /** The retry period after this many consecutive failures. */
  function Backoff(interval: int, failures: nat): int {
    var b := Wrap64(interval * Pow2(if failures < 6 then failures else 6));
    if b < MAX_BACKOFF then b else MAX_BACKOFF
  }

  function Decoded(rules: seq<CompiledRule>): Result<seq<StaticRule>> { DecodeAll(StableSort(rules)) }

  /** A fetch that replaces the installed rules. */
  predicate Installs(f: Fetch) { f.Payload? && Decoded(f.rules).Ok? }

  function AfterFetch(c: Client, f: Fetch): Client {
    if Installs(f) then c.(rules := Decoded(f.rules).value, version := f.version) else c
  }

  function DoPoll(interval: int, c: Client, f: Fetch): Client {
    if f.Failed? then
      var n := c.failures + 1;
      c.(failures := n, status := Degraded, wait := Backoff(interval, n),
         registers := c.registers + if n == 6 then 1 else 0)
    else
      var c1 := AfterFetch(c, f);
      var c2 := if c.failures > 0 then c1.(version := 0, registers := c.registers + 1) else c1;
      c2.(failures := 0, status := Connected, wait := interval)
  }

  function Next(interval: int, c: Client, e: Event): Client {
    match e
    case Fetched(f) => AfterFetch(c, f)
    case Poll(f) => DoPoll(interval, c, f)
    case Connect => c.(status := Connected)
    case Registered(rules) =>
      if rules != [] && Decoded(rules).Ok? then c.(rules := Decoded(rules).value) else c
  }

  function Run(interval: int, c: Client, events: seq<Event>): Client {
    if events == [] then c
    else Next(interval, Run(interval, c, events[..|events| - 1]), events[|events| - 1])
  }

  lemma RunSnoc(interval: int, c: Client, events: seq<Event>, e: Event)
    ensures Run(interval, c, events + [e]) == Next(interval, Run(interval, c, events), e)
  {
  }

  /** The client as ConnectManteion makes it. */
  predicate Fresh(interval: int, c: Client) {
    c.failures == 0 && c.status == Disconnected && c.version == 0 && c.registers == 0 && c.wait == interval
  }

  // ---------------------------------------------------------------- the trace law

  /** Which polls of a run succeeded, in order. */
  function Outcomes(events: seq<Event>): seq<bool> {
    if events == [] then []
    else
      var before, e := Outcomes(events[..|events| - 1]), events[|events| - 1];
      if e.Poll? then before + [!e.fetch.Failed?] else before
  }

  /** n is the length of the run of failures at the end of oks. */
  ghost predicate TrailingFailures(oks: seq<bool>, n: nat) {
    && n <= |oks|
    && (forall i :: |oks| - n <= i < |oks| ==> !oks[i])
    && (n < |oks| ==> oks[|oks| - n - 1])
  }

  /** Poll i is the sixth failure of its streak. */
  predicate Sixth(oks: seq<bool>, i: nat)
    requires i < |oks|
  {
    i >= 5 && (forall j :: i - 5 <= j <= i ==> !oks[j]) && (i >= 6 ==> oks[i - 6])
  }

  /** Poll i ends a streak. */
  predicate Recovers(oks: seq<bool>, i: nat)
    requires i < |oks|
  {
    i >= 1 && oks[i] && !oks[i - 1]
  }

  /** Streaks that reached six failures plus streaks ended by a success, among the first n polls. */
  function Streaks(oks: seq<bool>, n: nat): nat
    requires n <= |oks|
  {
    if n == 0 then 0
    else Streaks(oks, n - 1) + (if Sixth(oks, n - 1) then 1 else 0) + (if Recovers(oks, n - 1) then 1 else 0)
  }

  lemma {:induction false} StreaksPrefix(oks: seq<bool>, x: bool, n: nat)
    requires n <= |oks|
    ensures Streaks(oks + [x], n) == Streaks(oks, n)
  {
    if n > 0 {
      StreaksPrefix(oks, x, n - 1);
      assert forall j :: 0 <= j < |oks| ==> (oks + [x])[j] == oks[j];
    }
  }

  /** The loop's variables as functions of the poll history alone. */
  ghost predicate Law(interval: int, c: Client, oks: seq<bool>) {
    && TrailingFailures(oks, c.failures)
    && c.registers == Streaks(oks, |oks|)
    && c.wait == if c.failures > 0 then Backoff(interval, c.failures) else interval
  }

  lemma PollKeepsLaw(interval: int, c: Client, oks: seq<bool>, f: Fetch)
    requires Law(interval, c, oks)
    ensures Law(interval, DoPoll(interval, c, f), oks + [!f.Failed?])
  {
    var oks', n := oks + [!f.Failed?], |oks|;
    StreaksPrefix(oks, !f.Failed?, n);
    assert forall j :: 0 <= j < n ==> oks'[j] == oks[j];
    if f.Failed? {
      SixthIsSix(oks, c.failures);
      assert !Recovers(oks', n);
    } else {
      assert !Sixth(oks', n) by { assert oks'[n]; }
      assert Recovers(oks', n) <==> c.failures > 0;
    }
  }

  lemma SixthIsSix(oks: seq<bool>, k: nat)
    requires TrailingFailures(oks, k)
    ensures Sixth(oks + [false], |oks|) <==> k + 1 == 6
  {
    var oks', n := oks + [false], |oks|;
    assert forall j :: 0 <= j < n ==> oks'[j] == oks[j];
    assert forall j :: n - k <= j <= n ==> !oks'[j];
    assert k < n ==> oks'[n - k - 1];
  }

  lemma {:induction false} TraceLaw(interval: int, c: Client, events: seq<Event>)
    requires Fresh(interval, c)
    ensures Law(interval, Run(interval, c, events), Outcomes(events))
  {
    if events != [] {
      var init, e := events[..|events| - 1], events[|events| - 1];
      TraceLaw(interval, c, init);
      if e.Poll? {
        PollKeepsLaw(interval, Run(interval, c, init), Outcomes(init), e.fetch);
      }
    }
  }

  // ---------------------------------------------------------------- the status

  /** Does an event store a status, and which. */
  predicate Stores(e: Event) { e.Poll? || e.Connect? }

  function Stored(e: Event): Status
    requires Stores(e)
  {
    if e.Poll? && e.fetch.Failed? then Degraded else Connected
  }

  /** i is the last event that stores a status. */
  ghost predicate LastStore(events: seq<Event>, i: nat) {
    i < |events| && Stores(events[i]) && forall j :: i < j < |events| ==> !Stores(events[j])
  }

  /** The status is what the last store left, or Disconnected before there was one. */
  lemma {:induction false} StatusIsLastStore(interval: int, c: Client, events: seq<Event>) returns (i: nat)
    requires Fresh(interval, c)
    ensures LastStore(events, i) || forall j :: 0 <= j < |events| ==> !Stores(events[j])
    ensures Run(interval, c, events).status == if LastStore(events, i) then Stored(events[i]) else Disconnected
  {
    i := 0;
    if events != [] {
      var n := |events| - 1;
      if Stores(events[n]) {
        i := n;
      } else {
        i := StatusIsLastStore(interval, c, events[..n]);
        assert forall j :: 0 <= j < n ==> events[..n][j] == events[j];
        assert LastStore(events, i) <==> LastStore(events[..n], i);
      }
    }
  }

  /** ConnectManteion's store overwrites a failure: it comes after the last poll, and that poll failed. */
  ghost predicate Overwritten(events: seq<Event>) {
    exists p, k: nat :: OverwrittenAt(events, p, k)
  }

  ghost predicate OverwrittenAt(events: seq<Event>, p: nat, k: nat) {
    && p < k < |events| && events[p].Poll? && events[p].fetch.Failed? && events[k].Connect?
    && forall j :: p < j < |events| ==> !events[j].Poll?
  }

  /** p is the last poll. */
  ghost predicate LastPoll(events: seq<Event>, p: nat) {
    p < |events| && events[p].Poll? && forall j :: p < j < |events| ==> !events[j].Poll?
  }

  /** The streak is running exactly when the last poll failed. */
  lemma {:induction false} FailingIffLastFailed(interval: int, c: Client, events: seq<Event>) returns (p: nat)
    requires Fresh(interval, c)
    ensures LastPoll(events, p) || forall j :: 0 <= j < |events| ==> !events[j].Poll?
    ensures Run(interval, c, events).failures > 0 <==> LastPoll(events, p) && events[p].fetch.Failed?
  {
    p := 0;
    if events != [] {
      var n := |events| - 1;
      if events[n].Poll? {
        p := n;
      } else {
        p := FailingIffLastFailed(interval, c, events[..n]);
        assert forall j :: 0 <= j < n ==> events[..n][j] == events[j];
        assert LastPoll(events, p) <==> LastPoll(events[..n], p);
      }
    }
  }

  /** Status and streak agree, Degraded while polls fail and only then, in every run and at every point
      of it, except exactly where ConnectManteion's store has overwritten the last poll's failure. */
  lemma StatusAgreesIff(interval: int, c: Client, events: seq<Event>)
    requires Fresh(interval, c)
    ensures var s := Run(interval, c, events);
            (s.status == Degraded <==> s.failures > 0) <==> !Overwritten(events)
    ensures var s := Run(interval, c, events);
            s.status == Disconnected <==> forall j :: 0 <= j < |events| ==> !Stores(events[j])
  {
    var i := StatusIsLastStore(interval, c, events);
    var p := FailingIffLastFailed(interval, c, events);
    if LastPoll(events, p) && LastStore(events, i) && events[p].fetch.Failed? && events[i].Connect? {
      assert OverwrittenAt(events, p, i);
    }
  }

  /** It happens: the first poll fails before the store is made. */
  lemma ConnectOverwritesFailure(interval: int, c: Client)
    requires Fresh(interval, c)
    ensures var s := Run(interval, c, [Poll(Failed), Connect]);
            s.failures == 1 && s.status == Connected && Overwritten([Poll(Failed), Connect])
  {
    RunSnoc(interval, c, [], Poll(Failed));
    RunSnoc(interval, c, [] + [Poll(Failed)], Connect);
    assert [] + [Poll(Failed)] + [Connect] == [Poll(Failed), Connect];
    assert OverwrittenAt([Poll(Failed), Connect], 0, 1);
  }

  /** The next poll puts it right, whatever its outcome. */
  lemma PollRestoresStatus(interval: int, c: Client, events: seq<Event>, f: Fetch)
    requires Fresh(interval, c)
    ensures !Overwritten(events + [Poll(f)])
  {
    var e := events + [Poll(f)];
    assert e[|events|].Poll?;
  }

  // ---------------------------------------------------------------- the backoff

  lemma {:induction false} Pow2Monotone(m: nat, n: nat)
    requires m <= n
    ensures 1 <= Pow2(m) <= Pow2(n)
    decreases n
  {
    if m < n { Pow2Monotone(m, n - 1); }
    else if m > 0 { Pow2Monotone(m - 1, n - 1); }
  }

  lemma Pow2Six()
    ensures Pow2(6) == 64
  {
  }

  lemma BackoffValue(interval: int, f: nat)
    requires interval > 0 && interval * 64 <= MAX_INT64
    ensures var x := interval * Pow2(if f < 6 then f else 6);
            Backoff(interval, f) == (if x < MAX_BACKOFF then x else MAX_BACKOFF) && interval <= x <= interval * 64
  {
    var p := if f < 6 then f else 6;
    Pow2Six();
    Pow2Monotone(p, 6);
    LeMul(interval, 1, Pow2(p));
    LeMul(interval, Pow2(p), 64);
    WrapInRange(interval * Pow2(p));
  }

  /** The retry wait never shrinks as a streak grows, never exceeds 60s, and is at least the poll
      interval exactly when that interval does not itself exceed 60s. */
  lemma BackoffLaw(interval: int, f: nat, g: nat)
    requires interval > 0 && interval * 64 <= MAX_INT64 && 1 <= f <= g
    ensures Backoff(interval, f) <= Backoff(interval, g) <= 60_000_000_000
    ensures Backoff(interval, f) >= interval <==> interval <= 60_000_000_000
    ensures f >= 6 ==> Backoff(interval, f) == Backoff(interval, g)
  {
    BackoffValue(interval, f);
    BackoffValue(interval, g);
    Pow2Monotone(if f < 6 then f else 6, if g < 6 then g else 6);
    LeMul(interval, Pow2(if f < 6 then f else 6), Pow2(if g < 6 then g else 6));
  }

  lemma Twice(x: int, y: int)
    ensures x * (2 * y) == 2 * (x * y)
  {
  }

  /** It starts at twice the interval and doubles with each of the first six failures. */
  lemma BackoffDoubles(interval: int, f: nat)
    requires interval > 0 && interval * 64 <= MAX_INT64 && f < 6
    ensures var twice := 2 * if f == 0 then interval else Backoff(interval, f);
            Backoff(interval, f + 1) == if twice < 60_000_000_000 then twice else 60_000_000_000
  {
    BackoffValue(interval, f);
    BackoffValue(interval, f + 1);
    assert Pow2(f + 1) == 2 * Pow2(f) && Pow2(0) == 1;
    Twice(interval, Pow2(f));
  }

  // ---------------------------------------------------------------- rules and versions

  /** An event that replaces the installed rules. */
  predicate InstallsRules(e: Event) {
    match e
    case Fetched(f) => Installs(f)
    case Poll(f) => Installs(f)
    case Connect => false
    case Registered(rules) => rules != [] && Decoded(rules).Ok?
  }

  function RulesOf(e: Event): seq<StaticRule>
    requires InstallsRules(e)
  {
    if e.Registered? then Decoded(e.rules).value else Decoded(e.fetch.rules).value
  }

  /** i is the last event of a kind. */
  ghost predicate LastInstall(events: seq<Event>, i: nat) {
    i < |events| && InstallsRules(events[i]) && forall j :: i < j < |events| ==> !InstallsRules(events[j])
  }

  /** A fetch, in the loop or before it, that installs its payload. */
  predicate Delivers(e: Event) { (e.Fetched? || e.Poll?) && Installs(e.fetch) }

  ghost predicate LastPayload(events: seq<Event>, i: nat) {
    && i < |events| && Delivers(events[i])
    && forall j :: i < j < |events| ==> !Delivers(events[j])
  }

  lemma KeepsRules(interval: int, c: Client, e: Event)
    ensures Next(interval, c, e).rules == if InstallsRules(e) then RulesOf(e) else c.rules
  {
  }

  /** Installed rules are always the decoding of the last installing event, whole. */
  lemma {:induction false} InstalledIsLast(interval: int, c: Client, events: seq<Event>, i: nat)
    requires LastInstall(events, i)
    ensures Run(interval, c, events).rules == RulesOf(events[i])
  {
    var n := |events| - 1;
    var init := events[..n];
    KeepsRules(interval, Run(interval, c, init), events[n]);
    if i < n {
      assert forall j :: 0 <= j < n ==> init[j] == events[j];
      InstalledIsLast(interval, c, init, i);
    }
  }

  lemma VersionStep(interval: int, c: Client, e: Event)
    requires Next(interval, c, e).version != 0
    ensures Next(interval, c, e).version == if Delivers(e) then e.fetch.version else c.version
  {
  }

  lemma LastPayloadSnoc(events: seq<Event>, e: Event, i: nat)
    requires LastPayload(events, i) && !Delivers(e)
    ensures LastPayload(events + [e], i)
  {
    assert forall j :: 0 <= j < |events| ==> (events + [e])[j] == events[j];
  }

  /** A non-zero version is the version of the last installed payload, and has been kept since. */
  lemma {:induction false} VersionIsLast(interval: int, c: Client, events: seq<Event>) returns (i: nat)
    requires c.version == 0 && Run(interval, c, events).version != 0
    ensures LastPayload(events, i) && events[i].fetch.version == Run(interval, c, events).version
  {
    var n := |events| - 1;
    var init := events[..n];
    VersionStep(interval, Run(interval, c, init), events[n]);
    if Delivers(events[n]) {
      i := n;
    } else {
      i := VersionIsLast(interval, c, init);
      LastPayloadSnoc(init, events[n], i);
      assert init + [events[n]] == events;
    }
  }

  /** Rule/version pairing: with no register response installing rules after it, the payload that
      carried the current non-zero version is exactly what is installed. */
  lemma RuleVersionPairing(interval: int, c: Client, events: seq<Event>) returns (i: nat)
    requires c.version == 0 && Run(interval, c, events).version != 0
    ensures LastPayload(events, i) && events[i].fetch.version == Run(interval, c, events).version
    ensures (forall j :: i < j < |events| && events[j].Registered? ==> !InstallsRules(events[j])) ==>
              Run(interval, c, events).rules == Decoded(events[i].fetch.rules).value
  {
    i := VersionIsLast(interval, c, events);
    if forall j :: i < j < |events| && events[j].Registered? ==> !InstallsRules(events[j]) {
      InstalledIsLast(interval, c, events, i);
    }
  }

  /** A register response does break the pairing: rules change, the version does not. */
  lemma RegisterBreaksPairing(interval: int, c: Client, v: nat, polled: seq<CompiledRule>, pushed: seq<CompiledRule>)
    requires Fresh(interval, c) && v != 0 && pushed != []
    requires Decoded(polled).Ok? && Decoded(pushed).Ok? && Decoded(polled).value != Decoded(pushed).value
    ensures var s := Run(interval, c, [Poll(Payload(v, polled)), Registered(pushed)]);
            s.version == v && s.rules != Decoded(polled).value
  {
    var poll := Poll(Payload(v, polled));
    RunSnoc(interval, c, [], poll);
    RunSnoc(interval, c, [] + [poll], Registered(pushed));
    assert [] + [poll] + [Registered(pushed)] == [poll, Registered(pushed)];
  }

  /** 304s, errors and undecodable payloads change neither rules nor version, except that the first
      success after a streak resets the version to 0. */
  lemma QuietPolls(interval: int, c: Client, f: Fetch)
    requires !Installs(f)
    ensures var c' := DoPoll(interval, c, f);
            c'.rules == c.rules && c'.version == if !f.Failed? && c.failures > 0 then 0 else c.version
  {
  }

  /** The success that ends a streak always leaves version 0, so the next poll pulls everything. */
  lemma RecoveryForcesFullPull(interval: int, c: Client, events: seq<Event>, f: Fetch)
    requires Fresh(interval, c) && !f.Failed?
    requires var oks := Outcomes(events); oks != [] && !oks[|oks| - 1]
    ensures Run(interval, c, events + [Poll(f)]).version == 0
  {
    TraceLaw(interval, c, events);
    RunSnoc(interval, c, events, Poll(f));
  }

  // ---------------------------------------------------------------- the object

  class ManteionClient {
    const interval: int
    const evaluator: StaticEvaluator
    var consecutiveFailures: nat
    var status: Status
    var ruleVersion: nat
    var registers: nat
    var tick: int

    function View(): Client
      reads this, evaluator
    {
      Client(consecutiveFailures, status, ruleVersion, evaluator.rules, registers, tick)
    }

    constructor (interval: int, evaluator: StaticEvaluator)
      ensures Fresh(interval, View()) && this.interval == interval
      ensures this.evaluator == evaluator
    {
      this.interval, this.evaluator := interval, evaluator;
      consecutiveFailures, status, ruleVersion, registers, tick := 0, Disconnected, 0, 0, interval;
    }

    /** fetchRules on an answered request; the result is whether it returned nil. */
    method FetchRules(f: Fetch) returns (ok: bool)
      modifies this`ruleVersion, evaluator
      ensures ok <==> !f.Failed?
      ensures View() == AfterFetch(old(View()), f)
    {
      match f
      case Failed => return false;
      case NotModified => return true;
      case Payload(version, rules) =>
        var decoded := DecodeCompiledRules(rules);
        if decoded.Err? {
          return true;
        }
        evaluator.SetRules(decoded.value);
        ruleVersion := version;
        return true;
    }

    method PollOnce(f: Fetch)
      modifies this, evaluator
      ensures View() == DoPoll(interval, old(View()), f)
    {
      var ok := FetchRules(f);
      if !ok {
        consecutiveFailures := consecutiveFailures + 1;
        status := Degraded;
        tick := Backoff(interval, consecutiveFailures);
        if consecutiveFailures == 6 {
          registers := registers + 1;
        }
        return;
      }
      if consecutiveFailures > 0 {
        ruleVersion := 0;
        registers := registers + 1;
      }
      consecutiveFailures := 0;
      status := Connected;
      tick := interval;
    }

    /** The loop's polls in the order its ticker and trigger cause them, with what ConnectManteion and
        the register responses do before and between. */
    method Loop(events: seq<Event>)
      modifies this, evaluator
      ensures View() == Run(interval, old(View()), events)
    {
      for i := 0 to |events|
        invariant View() == Run(interval, old(View()), events[..i])
      {
        assert events[..i + 1][..i] == events[..i];
        match events[i]
        case Fetched(f) =>
          var _ := FetchRules(f);
        case Poll(f) => PollOnce(f);
        case Connect => status := Connected;
        case Registered(rules) =>
          DecodesIffAllDo(rules);
          var _ := Apply(rules, evaluator);
      }
      assert events[..|events|] == events;
    }
  }
}
