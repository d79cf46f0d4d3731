/** The batching push client: adds, timer callbacks (also stale ones), posts and Stop, as atomic
    steps under the client's mutex. */
module PushClients {
  import opened Base

  datatype Status = InFlight | Pushed | Dropped

  datatype Post<T> = Post(entries: seq<T>, status: Status)

  /** armed: timers the runtime will fire.  firing: callbacks started but not yet holding the mutex;
      Stop on such a timer comes too late.  accepted and posts are history. */
  datatype Client<T> = Client(
    maxBatch: int,
    batch: seq<T>,
    timer: Option<nat>,
    stopped: bool,
    nextTimer: nat,
    armed: set<nat>,
    firing: set<nat>,
    posts: seq<Post<T>>,
    pushed: nat,
    dropped: nat,
    accepted: seq<T>)

  datatype Step<T> =
    | Add(entry: T)
    | Fire(t: nat)                 // the runtime starts a timer's callback
    | Callback(t: nat)             // that callback gets the mutex
    | Done(i: nat, ok: bool)       // post i has its answer
    | Stop

  function NewClient<T>(maxBatch: int): Client<T> {
    Client(if maxBatch <= 0 then 100 else maxBatch, [], None, false, 0, {}, {}, [], 0, 0, [])
  }

  function StopTimer<T>(c: Client<T>): Client<T> {
    if c.timer.Some? then c.(timer := None, armed := c.armed - {c.timer.value}) else c
  }

  function Flush<T>(c: Client<T>): Client<T> {
    if c.batch == [] then c
    else StopTimer(c).(batch := [], posts := c.posts + [Post(c.batch, InFlight)])
  }

  function AddNext<T>(c: Client<T>, e: T): Client<T> {
    if c.stopped then c
    else
      var c1 := c.(batch := c.batch + [e], accepted := c.accepted + [e]);
      if |c1.batch| >= c.maxBatch then Flush(c1)
      else if c.timer.None? then
        c1.(timer := Some(c.nextTimer), armed := c.armed + {c.nextTimer}, nextTimer := c.nextTimer + 1)
      else c1
  }

  function DoneNext<T>(c: Client<T>, i: nat, ok: bool): Client<T>
    requires i < |c.posts|
  {
    var p := c.posts[i];
    if !p.status.InFlight? then c
    else if ok then c.(posts := c.posts[i := p.(status := Pushed)], pushed := c.pushed + |p.entries|)
    else c.(posts := c.posts[i := p.(status := Dropped)], dropped := c.dropped + |p.entries|)
  }

  function StopNext<T>(c: Client<T>): Client<T> {
    if c.stopped then c
    else
      var c1 := StopTimer(c).(stopped := true, batch := []);
      if c.batch == [] then c1 else c1.(posts := c.posts + [Post(c.batch, InFlight)])
  }

  /** The effect of one step; a step that is not enabled changes nothing. */
  function Next<T>(c: Client<T>, a: Step<T>): Client<T> {
    match a
    case Add(e) => AddNext(c, e)
    case Fire(t) => if t in c.armed then c.(armed := c.armed - {t}, firing := c.firing + {t}) else c
    case Callback(t) =>
      if t !in c.firing then c
      else
        var c1 := c.(firing := c.firing - {t});
        if !c.stopped then Flush(c1) else c1
    case Done(i, ok) => if i < |c.posts| then DoneNext(c, i, ok) else c
    case Stop => StopNext(c)
  }

  function Run<T>(maxBatch: int, steps: seq<Step<T>>): Client<T> {
    if steps == [] then NewClient(maxBatch)
    else Next(Run(maxBatch, steps[..|steps| - 1]), steps[|steps| - 1])
  }

  // ---------------------------------------------------------------- invariants

  function Concat<T>(posts: seq<Post<T>>): seq<T> {
    if posts == [] then [] else Concat(posts[..|posts| - 1]) + posts[|posts| - 1].entries
  }

  /** How many entries are in posts of this status. */
  function Total<T>(posts: seq<Post<T>>, s: Status): nat {
    if posts == [] then 0
    else Total(posts[..|posts| - 1], s) + if posts[|posts| - 1].status == s then |posts[|posts| - 1].entries| else 0
  }

  lemma PostsSnoc<T>(posts: seq<Post<T>>, p: Post<T>)
    ensures Concat(posts + [p]) == Concat(posts) + p.entries
    ensures forall s :: Total(posts + [p], s) == Total(posts, s) + if p.status == s then |p.entries| else 0
  {
  }

  lemma {:induction false} PostsUpdate<T>(posts: seq<Post<T>>, i: nat, s: Status)
    requires i < |posts| && posts[i].status == InFlight && s != InFlight
    ensures var posts', n := posts[i := posts[i].(status := s)], |posts[i].entries|;
            && Concat(posts') == Concat(posts)
            && Total(posts', InFlight) == Total(posts, InFlight) - n
            && Total(posts', s) == Total(posts, s) + n
            && forall t :: t != s && t != InFlight ==> Total(posts', t) == Total(posts, t)
  {
    var n := |posts| - 1;
    var posts' := posts[i := posts[i].(status := s)];
    if i < n {
      PostsUpdate(posts[..n], i, s);
      assert posts'[..n] == posts[..n][i := posts[i].(status := s)];
    } else {
      assert posts'[..n] == posts[..n];
    }
  }

  lemma {:induction false} TotalsAdd<T>(posts: seq<Post<T>>)
    ensures |Concat(posts)| == Total(posts, InFlight) + Total(posts, Pushed) + Total(posts, Dropped)
  {
    if posts != [] { TotalsAdd(posts[..|posts| - 1]); }
  }

  /** Nothing lost, duplicated or reordered, and the counters count whole posts. */
  ghost predicate Partition<T>(c: Client<T>) {
    && c.accepted == Concat(c.posts) + c.batch
    && c.pushed == Total(c.posts, Pushed) && c.dropped == Total(c.posts, Dropped)
  }

  ghost predicate PostSizes<T>(c: Client<T>) {
    && c.maxBatch >= 1
    && (if c.stopped then c.batch == [] else |c.batch| < c.maxBatch)
    && forall i :: 0 <= i < |c.posts| ==> 1 <= |c.posts[i].entries| <= c.maxBatch
  }

  /** A pending batch always has a timer, and that timer has yet to do its work. */
  ghost predicate NotStranded<T>(c: Client<T>) {
    && (c.timer.Some? <==> c.batch != [])
    && (c.timer.Some? ==> c.timer.value in c.armed || c.timer.value in c.firing)
    && (forall t :: t in c.armed ==> t < c.nextTimer)
    && (forall t :: t in c.firing ==> t < c.nextTimer)
  }

  ghost predicate Inv<T>(c: Client<T>) {
    Partition(c) && PostSizes(c) && NotStranded(c)
  }

  lemma FlushPartition<T>(c: Client<T>)
    requires Partition(c)
    ensures Partition(Flush(c))
  {
    if c.batch != [] { PostsSnoc(c.posts, Post(c.batch, InFlight)); }
  }

  lemma AddPartition<T>(c: Client<T>, e: T)
    requires Partition(c)
    ensures Partition(AddNext(c, e))
  {
    var c1 := c.(batch := c.batch + [e], accepted := c.accepted + [e]);
    assert c1.accepted == Concat(c.posts) + c1.batch;
    assert Partition(c1);
    FlushPartition(c1);
  }

  lemma DonePartition<T>(c: Client<T>, i: nat, ok: bool)
    requires Partition(c) && i < |c.posts|
    ensures Partition(DoneNext(c, i, ok))
  {
    if c.posts[i].status.InFlight? {
      PostsUpdate(c.posts, i, if ok then Pushed else Dropped);
    }
  }

  lemma StopPartition<T>(c: Client<T>)
    requires Partition(c)
    ensures Partition(StopNext(c))
  {
    if c.batch != [] { PostsSnoc(c.posts, Post(c.batch, InFlight)); }
  }

  lemma NextPartition<T>(c: Client<T>, a: Step<T>)
    requires Partition(c)
    ensures Partition(Next(c, a))
  {
    match a
    case Add(e) => AddPartition(c, e);
    case Callback(t) => FlushPartition(c.(firing := c.firing - {t}));
    case Done(i, ok) => if i < |c.posts| { DonePartition(c, i, ok); }
    case Stop => StopPartition(c);
    case Fire(_) =>
  }

  lemma NextSizes<T>(c: Client<T>, a: Step<T>)
    requires PostSizes(c)
    ensures PostSizes(Next(c, a))
  {
  }

  lemma NextNotStranded<T>(c: Client<T>, a: Step<T>)
    requires NotStranded(c) && (c.stopped ==> c.batch == [])
    ensures NotStranded(Next(c, a))
  {
  }

  lemma {:induction false} RunInv<T>(maxBatch: int, steps: seq<Step<T>>)
    ensures Inv(Run(maxBatch, steps))
  {
    if steps != [] {
      RunInv(maxBatch, steps[..|steps| - 1]);
      var c, a := Run(maxBatch, steps[..|steps| - 1]), steps[|steps| - 1];
      NextPartition(c, a);
      NextSizes(c, a);
      NextNotStranded(c, a);
    }
  }

  /** Posted batches then the pending one are the accepted entries in order, every posted batch has
      1..maxBatch entries, a timer is set exactly when something is pending, and
      accepted = pushed + dropped + in flight + pending. */
  lemma Conservation<T>(maxBatch: int, steps: seq<Step<T>>)
    ensures var c := Run(maxBatch, steps);
            && c.accepted == Concat(c.posts) + c.batch
            && (forall i :: 0 <= i < |c.posts| ==> 1 <= |c.posts[i].entries| <= c.maxBatch)
            && (c.timer.Some? <==> c.batch != [])
            && |c.accepted| == c.pushed + c.dropped + Total(c.posts, InFlight) + |c.batch|
  {
    RunInv(maxBatch, steps);
    TotalsAdd(Run(maxBatch, steps).posts);
  }

  /** No pending batch is ever stranded: its timer's callback is still to come, and when that
      callback next gets the mutex it posts the whole batch. */
  lemma NoStranding<T>(maxBatch: int, steps: seq<Step<T>>)
    requires Run(maxBatch, steps).batch != []
    ensures var c := Run(maxBatch, steps);
            && !c.stopped && c.timer.Some? && (c.timer.value in c.armed || c.timer.value in c.firing)
            && var c' := Next(Next(c, Fire(c.timer.value)), Callback(c.timer.value));
               c'.batch == [] && c'.timer == None && c'.posts == c.posts + [Post(c.batch, InFlight)]
  {
    RunInv(maxBatch, steps);
  }

  /** An entry added before Stop is accepted, waits while it and what is pending are fewer than maxBatch,
      and completes a post of exactly maxBatch otherwise; after Stop nothing happens. */
  lemma AddLaw<T>(maxBatch: int, steps: seq<Step<T>>, e: T)
    ensures var c, c' := Run(maxBatch, steps), Run(maxBatch, steps + [Add(e)]);
            if c.stopped then c' == c
            else
              && c'.accepted == c.accepted + [e]
              && if |c.batch| + 1 < c.maxBatch then c'.posts == c.posts && c'.batch == c.batch + [e]
                 else
                   && c'.batch == [] && c'.posts == c.posts + [Post(c.batch + [e], InFlight)]
                   && |c.batch| + 1 == c.maxBatch
  {
    RunInv(maxBatch, steps);
    assert (steps + [Add(e)])[..|steps|] == steps;
  }

  /** The batch size asked for, or 100. */
  lemma {:induction false} MaxBatchKept<T>(maxBatch: int, steps: seq<Step<T>>)
    ensures Run(maxBatch, steps).maxBatch == if maxBatch <= 0 then 100 else maxBatch
  {
    if steps != [] { MaxBatchKept(maxBatch, steps[..|steps| - 1]); }
  }

  /** Answer j is the first to post i. */
  ghost predicate AnsweredAt<T>(maxBatch: int, steps: seq<Step<T>>, i: nat, j: nat) {
    && j < |steps| && steps[j].Done? && steps[j].i == i && i < |Run(maxBatch, steps[..j]).posts|
    && Run(maxBatch, steps[..j]).posts[i].status == InFlight
  }

  lemma PostStep<T>(c: Client<T>, a: Step<T>, i: nat)
    requires i < |Next(c, a).posts| && Next(c, a).posts[i].status != InFlight
    ensures i < |c.posts|
    ensures c.posts[i].status == InFlight ==>
              a.Done? && a.i == i && Next(c, a).posts[i].status == if a.ok then Pushed else Dropped
    ensures c.posts[i].status != InFlight ==> Next(c, a).posts[i].status == c.posts[i].status
  {
  }

  /** A post is counted as pushed exactly when its one answer was a success, as dropped when it was not;
      and `pushed` and `dropped` are the entries of the posts so counted. */
  lemma {:induction false} CountedAsAnswered<T>(maxBatch: int, steps: seq<Step<T>>, i: nat) returns (j: nat)
    requires i < |Run(maxBatch, steps).posts| && Run(maxBatch, steps).posts[i].status != InFlight
    ensures AnsweredAt(maxBatch, steps, i, j)
    ensures Run(maxBatch, steps).posts[i].status == if steps[j].ok then Pushed else Dropped
    ensures Run(maxBatch, steps).pushed == Total(Run(maxBatch, steps).posts, Pushed)
    ensures Run(maxBatch, steps).dropped == Total(Run(maxBatch, steps).posts, Dropped)
  {
    j := |steps| - 1;
    var init := steps[..j];
    RunInv(maxBatch, steps);
    PostStep(Run(maxBatch, init), steps[j], i);
    if Run(maxBatch, init).posts[i].status != InFlight {
      j := CountedAsAnswered(maxBatch, init, i);
      assert init[..j] == steps[..j];
    }
  }

  /** After Stop nothing is pending and nothing more is accepted. */
  lemma Stopped<T>(maxBatch: int, steps: seq<Step<T>>, a: Step<T>)
    requires Run(maxBatch, steps).stopped
    ensures var c := Run(maxBatch, steps);
            && c.batch == [] && c.timer == None && c.accepted == Concat(c.posts)
            && Next(c, a).accepted == c.accepted && |Next(c, a).posts| == |c.posts|
  {
    RunInv(maxBatch, steps);
  }

  // ---------------------------------------------------------------- the object

  class CachePushClient<T> {
    const maxBatch: int
    var batch: seq<T>
    var timer: Option<nat>
    var stopped: bool
    var nextTimer: nat
    var pushed: nat
    var dropped: nat
    ghost var armed: set<nat>
    ghost var firing: set<nat>
    ghost var posts: seq<Post<T>>
    ghost var accepted: seq<T>

    ghost function View(): Client<T>
      reads this
    {
      Client(maxBatch, batch, timer, stopped, nextTimer, armed, firing, posts, pushed, dropped, accepted)
    }

    constructor (maxBatch: int)
      ensures View() == NewClient(maxBatch)
      ensures this.maxBatch == (if maxBatch <= 0 then 100 else maxBatch) && batch == [] && !stopped
    {
      this.maxBatch := if maxBatch <= 0 then 100 else maxBatch;
      batch, timer, stopped, nextTimer, pushed, dropped := [], None, false, 0, 0, 0;
      armed, firing, posts, accepted := {}, {}, [], [];
    }

    /** flushLocked: hands the batch to a post and cancels the timer. */
    method FlushLocked() returns (entries: seq<T>)
      modifies this
      ensures View() == Flush(old(View())) && entries == old(batch)
    {
      entries := batch;
      if |batch| == 0 {
        return;
      }
      if timer.Some? {
        armed := armed - {timer.value};
        timer := None;
      }
      posts := posts + [Post(batch, InFlight)];
      batch := [];
    }

    method DoAdd(e: T)
      modifies this
      ensures View() == Next(old(View()), Add(e))
    {
      if stopped {
        return;
      }
      batch := batch + [e];
      accepted := accepted + [e];
      if |batch| >= maxBatch {
        var _ := FlushLocked();
        return;
      }
      if timer.None? {
        timer := Some(nextTimer);
        armed := armed + {nextTimer};
        nextTimer := nextTimer + 1;
      }
    }

    /** The function a timer runs once it holds the mutex. */
    method TimerCallback(t: nat)
      requires t in firing
      modifies this
      ensures View() == Next(old(View()), Callback(t))
    {
      firing := firing - {t};
      if !stopped && |batch| > 0 {
        var _ := FlushLocked();
      }
    }

    /** The end of a post. */
    method PostDone(ghost i: nat, entries: seq<T>, ok: bool)
      requires i < |posts| && posts[i] == Post(entries, InFlight)
      modifies this
      ensures View() == Next(old(View()), Done(i, ok))
    {
      posts := posts[i := posts[i].(status := if ok then Pushed else Dropped)];
      if ok {
        pushed := pushed + |entries|;
      } else {
        dropped := dropped + |entries|;
      }
    }

    method DoStop() returns (entries: seq<T>)
      modifies this
      ensures View() == Next(old(View()), Stop)
      ensures entries == if old(stopped) then [] else old(batch)
    {
      if stopped {
        return [];
      }
      stopped := true;
      if timer.Some? {
        armed := armed - {timer.value};
        timer := None;
      }
      entries := batch;
      batch := [];
      if |entries| > 0 {
        posts := posts + [Post(entries, InFlight)];
      }
    }
  }
}
