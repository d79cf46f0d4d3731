/** The simple reference for the cache store: a recency-ordered list of entries, and what
    every run of operations on it satisfies. */
module Lru {
  import opened Base

  datatype Node = Node(key: string, entry: Entry)

  /** maxEntries <= 0 means no cap; ttl <= 0 means no expiry. */
  datatype Config = Config(maxEntries: int, ttl: int)

  /** lru[0] is the most recently used entry. */
  datatype Store = Store(lru: seq<Node>, hits: nat, misses: nat, evictions: nat)

  datatype Op =
    | Get(key: string, now: int)
    | Put(key: string, entry: Option<Entry>)
    | Delete(key: string)
    | Clear

  const EMPTY := Store([], 0, 0, 0)

  function Find(s: seq<Node>, k: string): Option<Entry> {
    if s == [] then None else if s[0].key == k then Some(s[0].entry) else Find(s[1..], k)
  }

  function Without(s: seq<Node>, k: string): seq<Node> {
    if s == [] then []
    else if s[0].key == k then Without(s[1..], k)
    else [s[0]] + Without(s[1..], k)
  }

  predicate Expired(cfg: Config, e: Entry, now: int) {
    cfg.ttl > 0 && now - e.recordedAt > cfg.ttl
  }

  function Capped(cfg: Config, s: seq<Node>): seq<Node> {
    if cfg.maxEntries > 0 && |s| > cfg.maxEntries then s[..cfg.maxEntries] else s
  }

  /** What Get(k) at time now returns. */
  function Lookup(cfg: Config, st: Store, k: string, now: int): Option<Entry> {
    var found := Find(st.lru, k);
    if found.Some? && Expired(cfg, found.value, now) then None else found
  }

  function Step(cfg: Config, st: Store, op: Op): Store {
    match op
    case Get(k, now) =>
      var found := Find(st.lru, k);
      if found.None? then st.(misses := st.misses + 1)
      else if Expired(cfg, found.value, now) then
        st.(lru := Without(st.lru, k), misses := st.misses + 1)
      else
        st.(lru := [Node(k, found.value)] + Without(st.lru, k), hits := st.hits + 1)
    case Put(k, None) => st
    case Put(k, Some(e)) =>
      var full := [Node(k, e)] + Without(st.lru, k);
      var kept := Capped(cfg, full);
      st.(lru := kept, evictions := st.evictions + |full| - |kept|)
    case Delete(k) => st.(lru := Without(st.lru, k))
    case Clear => st.(lru := [])
  }

  function Run(cfg: Config, ops: seq<Op>): Store {
    if ops == [] then EMPTY
    else Step(cfg, Run(cfg, ops[..|ops| - 1]), ops[|ops| - 1])
  }

  lemma RunSnoc(cfg: Config, ops: seq<Op>, op: Op)
    ensures Run(cfg, ops + [op]) == Step(cfg, Run(cfg, ops), op)
  {
  }

  // ---------------------------------------------------------------- list facts

  predicate UniqueKeys(s: seq<Node>) {
    s == [] || (Find(s[1..], s[0].key).None? && UniqueKeys(s[1..]))
  }

  lemma {:induction false} FindAt(s: seq<Node>, i: nat)
    requires UniqueKeys(s) && i < |s|
    ensures Find(s, s[i].key) == Some(s[i].entry)
  {
    if i > 0 {
      FindAt(s[1..], i - 1);
      assert s[i] == s[1..][i - 1];
    }
  }

  lemma {:induction false} FindNone(s: seq<Node>, k: string)
    ensures Find(s, k).None? <==> forall i :: 0 <= i < |s| ==> s[i].key != k
  {
    if s != [] {
      FindNone(s[1..], k);
      if Find(s, k).None? {
        forall i | 0 <= i < |s| ensures s[i].key != k {
          if i > 0 { assert s[i] == s[1..][i - 1]; }
        }
      }
    }
  }

  /** What removing a key does to the length, to the other keys and to uniqueness. */
  lemma {:induction false} WithoutFacts(s: seq<Node>, k: string)
    requires UniqueKeys(s)
    ensures UniqueKeys(Without(s, k))
    ensures Find(Without(s, k), k).None?
    ensures forall k' :: k' != k ==> Find(Without(s, k), k') == Find(s, k')
    ensures |Without(s, k)| == if Find(s, k).Some? then |s| - 1 else |s|
    ensures forall n :: n in Without(s, k) <==> n in s && n.key != k
    ensures Find(s, k).None? ==> Without(s, k) == s
  {
    if s != [] {
      WithoutFacts(s[1..], k);
      assert s == [s[0]] + s[1..];
      FindNone(s[1..], s[0].key);
      FindNone(s[1..], k);
    }
  }

  lemma {:induction false} WithoutAt(s: seq<Node>, i: nat)
    requires UniqueKeys(s) && i < |s|
    ensures Without(s, s[i].key) == s[..i] + s[i + 1..]
  {
    var k := s[i].key;
    if i == 0 {
      FindNone(s[1..], k);
      WithoutFacts(s[1..], k);
    } else {
      WithoutAt(s[1..], i - 1);
      FindNone(s[1..], s[0].key);
      assert s[i] == s[1..][i - 1];
      assert s[..i] == [s[0]] + s[1..][..i - 1];
    }
  }

  lemma {:induction false} FindPrefix(s: seq<Node>, n: nat, k: string)
    requires n <= |s|
    ensures Find(s[..n], k).Some? ==> Find(s, k) == Find(s[..n], k)
  {
    if n > 0 {
      FindPrefix(s[1..], n - 1, k);
      assert s[..n][1..] == s[1..][..n - 1];
    }
  }

  // ---------------------------------------------------------------- invariants of every run

  ghost predicate Valid(cfg: Config, st: Store) {
    && UniqueKeys(st.lru)
    && (cfg.maxEntries > 0 ==> |st.lru| <= cfg.maxEntries)
    && (cfg.maxEntries <= 0 ==> st.evictions == 0)
  }

  function Gets(ops: seq<Op>): nat {
    if ops == [] then 0
    else Gets(ops[..|ops| - 1]) + if ops[|ops| - 1].Get? then 1 else 0
  }

  lemma {:induction false} PrefixUnique(s: seq<Node>, n: nat)
    requires UniqueKeys(s) && n <= |s|
    ensures UniqueKeys(s[..n])
  {
    if n > 0 {
      PrefixUnique(s[1..], n - 1);
      FindPrefix(s[1..], n - 1, s[0].key);
      assert s[..n][1..] == s[1..][..n - 1];
    }
  }

  lemma ConsUnique(n: Node, s: seq<Node>, cfg: Config)
    requires UniqueKeys(s) && Find(s, n.key).None?
    ensures UniqueKeys([n] + s) && UniqueKeys(Capped(cfg, [n] + s))
  {
    assert ([n] + s)[1..] == s;
    PrefixUnique([n] + s, |Capped(cfg, [n] + s)|);
    assert ([n] + s)[..|[n] + s|] == [n] + s;
  }

  lemma StepValid(cfg: Config, st: Store, op: Op)
    requires Valid(cfg, st)
    ensures Valid(cfg, Step(cfg, st, op))
    ensures op.Put? && op.entry.Some? ==>
              var st' := Step(cfg, st, op);
              |st'.lru| > 0 && st'.lru[0] == Node(op.key, op.entry.value)
  {
    if !op.Clear? {
      var rest := Without(st.lru, op.key);
      WithoutFacts(st.lru, op.key);
      if op.Put? && op.entry.Some? {
        ConsUnique(Node(op.key, op.entry.value), rest, cfg);
      } else if op.Get? && Find(st.lru, op.key).Some? {
        ConsUnique(Node(op.key, Find(st.lru, op.key).value), rest, cfg);
      }
    }
  }

  /** Every reachable state: keys once each, within the cap, and hits + misses = Gets. */
  lemma {:induction false} RunValid(cfg: Config, ops: seq<Op>)
    ensures Valid(cfg, Run(cfg, ops))
    ensures Run(cfg, ops).hits + Run(cfg, ops).misses == Gets(ops)
  {
    if ops != [] {
      RunValid(cfg, ops[..|ops| - 1]);
      StepValid(cfg, Run(cfg, ops[..|ops| - 1]), ops[|ops| - 1]);
    }
  }

  // ---------------------------------------------------------------- hits return the last Put

  /** The value a history leaves under k, read from the history alone: the last Put of k that no
      later Delete, Clear or expired Get of k has cancelled. */
  function LiveValue(cfg: Config, ops: seq<Op>, k: string): Option<Entry> {
    if ops == [] then None
    else
      var before := LiveValue(cfg, ops[..|ops| - 1], k);
      match ops[|ops| - 1]
      case Put(k', Some(e)) => if k' == k then Some(e) else before
      case Put(_, None) => before
      case Delete(k') => if k' == k then None else before
      case Clear => None
      case Get(k', now) =>
        if k' == k && before.Some? && Expired(cfg, before.value, now) then None else before
  }

  /** What one Put leaves under a key: the new entry, or at most what was there. */
  lemma FindAfterPut(cfg: Config, st: Store, key: string, e: Entry, k: string)
    requires Valid(cfg, st)
    ensures var after := Find(Step(cfg, st, Put(key, Some(e))).lru, k);
            && (after.Some? ==> after == if k == key then Some(e) else Find(st.lru, k))
            && (cfg.maxEntries <= 0 ==> after == if k == key then Some(e) else Find(st.lru, k))
  {
    var full := [Node(key, e)] + Without(st.lru, key);
    WithoutFacts(st.lru, key);
    assert full[1..] == Without(st.lru, key);
    FindPrefix(full, |Capped(cfg, full)|, k);
    assert full[..|full|] == full;
  }

  /** What any other operation leaves under a key. */
  lemma FindAfterOther(cfg: Config, st: Store, op: Op, k: string)
    requires Valid(cfg, st) && (op.Put? ==> op.entry.None?)
    ensures var before, after := Find(st.lru, k), Find(Step(cfg, st, op).lru, k);
            match op
            case Put(_, _) => after == before
            case Clear => after == None
            case Delete(key) => after == if k == key then None else before
            case Get(key, now) =>
              after == if k == key && before.Some? && Expired(cfg, before.value, now) then None else before
  {
    if !op.Clear? {
      var rest := Without(st.lru, op.key);
      WithoutFacts(st.lru, op.key);
      if op.Get? && Find(st.lru, op.key).Some? {
        assert ([Node(op.key, Find(st.lru, op.key).value)] + rest)[1..] == rest;
      }
    }
  }

  /** The store never holds anything but the live value, and with no cap it always holds it. */
  lemma {:induction false} ResidentIsLive(cfg: Config, ops: seq<Op>, k: string)
    ensures Find(Run(cfg, ops).lru, k).Some? ==> Find(Run(cfg, ops).lru, k) == LiveValue(cfg, ops, k)
    ensures cfg.maxEntries <= 0 ==> Find(Run(cfg, ops).lru, k) == LiveValue(cfg, ops, k)
  {
    if ops != [] {
      var before, op := ops[..|ops| - 1], ops[|ops| - 1];
      ResidentIsLive(cfg, before, k);
      RunValid(cfg, before);
      if op.Put? && op.entry.Some? {
        FindAfterPut(cfg, Run(cfg, before), op.key, op.entry.value, k);
      } else {
        FindAfterOther(cfg, Run(cfg, before), op, k);
      }
    }
  }

  /** A hit returns the last Put for its key, and never one older than the TTL. */
  lemma HitIsLastPut(cfg: Config, ops: seq<Op>, k: string, now: int)
    requires Lookup(cfg, Run(cfg, ops), k, now).Some?
    ensures Lookup(cfg, Run(cfg, ops), k, now) == LiveValue(cfg, ops, k)
    ensures cfg.ttl > 0 ==> now - LiveValue(cfg, ops, k).value.recordedAt <= cfg.ttl
  {
    ResidentIsLive(cfg, ops, k);
  }

  /** A live value comes from one Put, after which nothing wrote or removed the key. */
  lemma {:induction false} LiveSince(cfg: Config, ops: seq<Op>, k: string) returns (i: nat)
    requires LiveValue(cfg, ops, k).Some?
    ensures i < |ops| && ops[i] == Put(k, LiveValue(cfg, ops, k))
    ensures forall j :: i < j < |ops| ==> !Overwrites(ops[j], k)
  {
    var n := |ops| - 1;
    if ops[n].Put? && ops[n].key == k && ops[n].entry.Some? {
      i := n;
    } else {
      i := LiveSince(cfg, ops[..n], k);
      assert forall j :: i < j < n ==> ops[j] == ops[..n][j];
    }
  }

  predicate Overwrites(op: Op, k: string) {
    op.Clear? || (op.Delete? && op.key == k) || (op.Put? && op.key == k && op.entry.Some?)
  }

  /** A lookup finds what is resident and, if there is a TTL, not older than it. */
  lemma LookupIff(cfg: Config, st: Store, k: string, now: int)
    ensures Lookup(cfg, st, k, now).Some? <==>
              Find(st.lru, k).Some? && (cfg.ttl <= 0 || now - Find(st.lru, k).value.recordedAt <= cfg.ttl)
    ensures Lookup(cfg, st, k, now).Some? ==> Lookup(cfg, st, k, now) == Find(st.lru, k)
  {
  }

  /** Hits are the Gets that found something. */
  function Found(cfg: Config, ops: seq<Op>): nat {
    if ops == [] then 0
    else
      var init, op := ops[..|ops| - 1], ops[|ops| - 1];
      Found(cfg, init) + if op.Get? && Lookup(cfg, Run(cfg, init), op.key, op.now).Some? then 1 else 0
  }

  lemma {:induction false} HitsAreFound(cfg: Config, ops: seq<Op>)
    ensures Run(cfg, ops).hits == Found(cfg, ops) && Run(cfg, ops).misses == Gets(ops) - Found(cfg, ops)
  {
    if ops != [] { HitsAreFound(cfg, ops[..|ops| - 1]); }
  }

  // ---------------------------------------------------------------- where each operation leaves the list

  lemma WithoutMiddle(pre: seq<Node>, n: Node, post: seq<Node>)
    requires UniqueKeys(pre + [n] + post)
    ensures Without(pre + [n] + post, n.key) == pre + post
    ensures Find(pre + [n] + post, n.key) == Some(n.entry)
  {
    var s := pre + [n] + post;
    assert s[|pre|] == n && s[..|pre|] == pre && s[|pre| + 1..] == post;
    WithoutAt(s, |pre|);
    FindAt(s, |pre|);
  }

  /** A hit brings its key to the front and leaves the others as they were; an expired entry goes. */
  lemma GetLaw(cfg: Config, st: Store, pre: seq<Node>, n: Node, post: seq<Node>, now: int)
    requires st.lru == pre + [n] + post && UniqueKeys(st.lru)
    ensures var st' := Step(cfg, st, Get(n.key, now));
            if cfg.ttl > 0 && now - n.entry.recordedAt > cfg.ttl then
              st' == st.(lru := pre + post, misses := st.misses + 1)
            else
              st' == st.(lru := [n] + pre + post, hits := st.hits + 1)
  {
    WithoutMiddle(pre, n, post);
    assert [n] + (pre + post) == [n] + pre + post;
  }

  /** A Put of a resident key replaces it at the front; deleting takes just it away. */
  lemma PutResidentLaw(cfg: Config, st: Store, pre: seq<Node>, n: Node, post: seq<Node>, e: Entry)
    requires st.lru == pre + [n] + post && Valid(cfg, st)
    ensures Step(cfg, st, Put(n.key, Some(e))) == st.(lru := [Node(n.key, e)] + pre + post)
    ensures Step(cfg, st, Delete(n.key)) == st.(lru := pre + post)
  {
    WithoutMiddle(pre, n, post);
    assert [Node(n.key, e)] + (pre + post) == [Node(n.key, e)] + pre + post;
  }

  /** What happens to a key that is not resident: a lookup counts a miss, a delete does nothing, a Put
      puts it in front, dropping the last key, and counting it, only when the store is full. */
  lemma AbsentLaw(cfg: Config, st: Store, k: string, now: int, e: Entry)
    requires Valid(cfg, st) && forall i :: 0 <= i < |st.lru| ==> st.lru[i].key != k
    ensures Step(cfg, st, Get(k, now)) == st.(misses := st.misses + 1)
    ensures Step(cfg, st, Delete(k)) == st
    ensures Step(cfg, st, Put(k, Some(e)))
            == if 0 < cfg.maxEntries == |st.lru|
               then st.(lru := [Node(k, e)] + st.lru[..|st.lru| - 1], evictions := st.evictions + 1)
               else st.(lru := [Node(k, e)] + st.lru)
  {
    FindNone(st.lru, k);
    WithoutFacts(st.lru, k);
    var full := [Node(k, e)] + st.lru;
    if 0 < cfg.maxEntries == |st.lru| {
      assert full[..cfg.maxEntries] == [Node(k, e)] + st.lru[..|st.lru| - 1];
    }
  }

  /** Clear empties the list and keeps the counters, which a nil Put keeps with everything else. */
  lemma ClearLaw(cfg: Config, st: Store, k: string)
    ensures Step(cfg, st, Clear) == Store([], st.hits, st.misses, st.evictions)
    ensures Step(cfg, st, Put(k, None)) == st
  {
  }

  // ---------------------------------------------------------------- least recently used

  /** Operation i uses k: it puts it, or is a lookup that finds it. */
  ghost predicate UsedAt(cfg: Config, ops: seq<Op>, i: nat, k: string) {
    && i < |ops|
    && match ops[i]
       case Put(key, entry) => key == k && entry.Some?
       case Get(key, now) => key == k && Lookup(cfg, Run(cfg, ops[..i]), k, now).Some?
       case _ => false
  }

  /** The last use of k, or -1. */
  ghost function LastUse(cfg: Config, ops: seq<Op>, k: string): (i: int)
    ensures -1 <= i < |ops|
    ensures i >= 0 ==> UsedAt(cfg, ops, i, k)
  {
    if ops == [] then -1
    else if UsedAt(cfg, ops, |ops| - 1, k) then |ops| - 1
    else
      var i := LastUse(cfg, ops[..|ops| - 1], k);
      assert i >= 0 ==> ops[..|ops| - 1][..i] == ops[..i];
      i
  }

  lemma {:induction false} NoLaterUse(cfg: Config, ops: seq<Op>, k: string, j: nat)
    requires UsedAt(cfg, ops, j, k)
    ensures j <= LastUse(cfg, ops, k)
  {
    if j < |ops| - 1 {
      assert ops[..|ops| - 1][..j] == ops[..j];
      NoLaterUse(cfg, ops[..|ops| - 1], k, j);
    }
  }

  /** Each node was used before `bound`, and later than the nodes behind it. */
  ghost predicate ByUse(cfg: Config, ops: seq<Op>, s: seq<Node>, bound: int) {
    s == [] ||
    var at := LastUse(cfg, ops, s[0].key);
    0 <= at < bound && ByUse(cfg, ops, s[1..], at)
  }

  lemma {:induction false} ByUsePrefix(cfg: Config, ops: seq<Op>, s: seq<Node>, bound: int, n: nat)
    requires ByUse(cfg, ops, s, bound) && n <= |s|
    ensures ByUse(cfg, ops, s[..n], bound)
  {
    if n > 0 {
      ByUsePrefix(cfg, ops, s[1..], LastUse(cfg, ops, s[0].key), n - 1);
      assert s[..n][1..] == s[1..][..n - 1];
    }
  }

  /** One more operation, which uses no key left after taking k away. */
  lemma {:induction false} ByUseWithout(cfg: Config, ops: seq<Op>, op: Op, s: seq<Node>, bound: int,
                                         k: string, wide: int)
    requires ByUse(cfg, ops, s, bound) && bound <= wide
    requires forall other :: other != k ==> !UsedAt(cfg, ops + [op], |ops|, other)
    ensures ByUse(cfg, ops + [op], Without(s, k), wide)
  {
    if s != [] {
      var at := LastUse(cfg, ops, s[0].key);
      assert (ops + [op])[..|ops|] == ops;
      if s[0].key == k {
        ByUseWithout(cfg, ops, op, s[1..], at, k, wide);
      } else {
        ByUseWithout(cfg, ops, op, s[1..], at, k, at);
        assert LastUse(cfg, ops + [op], s[0].key) == at;
        assert Without(s, k)[1..] == Without(s[1..], k);
      }
    }
  }

  lemma ByUseCons(cfg: Config, ops: seq<Op>, n: Node, s: seq<Node>)
    requires ops != [] && UsedAt(cfg, ops, |ops| - 1, n.key) && ByUse(cfg, ops, s, |ops| - 1)
    ensures ByUse(cfg, ops, [n] + s, |ops|) && ByUse(cfg, ops, Capped(cfg, [n] + s), |ops|)
  {
    assert ([n] + s)[1..] == s;
    ByUsePrefix(cfg, ops, [n] + s, |ops|, |Capped(cfg, [n] + s)|);
    assert ([n] + s)[..|[n] + s|] == [n] + s;
  }

  lemma OtherUnused(cfg: Config, ops: seq<Op>, op: Op, k: string)
    requires !op.Clear? && (op.key == k || !UsedAt(cfg, ops + [op], |ops|, op.key))
    ensures forall other :: other != k ==> !UsedAt(cfg, ops + [op], |ops|, other)
  {
  }

  /** Taking away a key that is not there changes nothing. */
  lemma ByUseStep(cfg: Config, ops: seq<Op>, op: Op)
    requires Valid(cfg, Run(cfg, ops)) && ByUse(cfg, ops, Run(cfg, ops).lru, |ops|)
    ensures ByUse(cfg, ops + [op], Run(cfg, ops + [op]).lru, |ops| + 1)
  {
    RunSnoc(cfg, ops, op);
    assert (ops + [op])[..|ops|] == ops;
    var s := Run(cfg, ops).lru;
    if !op.Clear? {
      OtherUnused(cfg, ops, op, op.key);
      ByUseWithout(cfg, ops, op, s, |ops|, op.key, |ops|);
      WithoutFacts(s, op.key);
      if op.Put? && op.entry.Some? {
        ByUseCons(cfg, ops + [op], Node(op.key, op.entry.value), Without(s, op.key));
      } else if op.Get? && Lookup(cfg, Run(cfg, ops), op.key, op.now).Some? {
        ByUseCons(cfg, ops + [op], Node(op.key, Find(s, op.key).value), Without(s, op.key));
        var full := [Node(op.key, Find(s, op.key).value)] + Without(s, op.key);
      } else {
        ByUseSame(cfg, ops, op, s, |ops|);
        ByUseWider(cfg, ops + [op], Without(s, op.key), |ops|, |ops| + 1);
        ByUseWider(cfg, ops + [op], s, |ops|, |ops| + 1);
      }
    }
  }

  lemma ByUseWider(cfg: Config, ops: seq<Op>, s: seq<Node>, bound: int, wide: int)
    requires ByUse(cfg, ops, s, bound) && bound <= wide
    ensures ByUse(cfg, ops, s, wide)
  {
  }

  lemma {:induction false} ByUseSame(cfg: Config, ops: seq<Op>, op: Op, s: seq<Node>, bound: int)
    requires ByUse(cfg, ops, s, bound) && forall k :: !UsedAt(cfg, ops + [op], |ops|, k)
    ensures ByUse(cfg, ops + [op], s, bound)
  {
    assert (ops + [op])[..|ops|] == ops;
    if s != [] { ByUseSame(cfg, ops, op, s[1..], LastUse(cfg, ops, s[0].key)); }
  }

  lemma {:induction false} RunByUse(cfg: Config, ops: seq<Op>)
    ensures ByUse(cfg, ops, Run(cfg, ops).lru, |ops|)
  {
    if ops != [] {
      RunByUse(cfg, ops[..|ops| - 1]);
      RunValid(cfg, ops[..|ops| - 1]);
      ByUseStep(cfg, ops[..|ops| - 1], ops[|ops| - 1]);
      assert ops[..|ops| - 1] + [ops[|ops| - 1]] == ops;
    }
  }

  lemma {:induction false} ByUseAt(cfg: Config, ops: seq<Op>, s: seq<Node>, bound: int, i: nat, j: nat)
    requires ByUse(cfg, ops, s, bound) && i <= j < |s|
    ensures 0 <= LastUse(cfg, ops, s[j].key) <= LastUse(cfg, ops, s[i].key) < bound
    ensures i < j ==> LastUse(cfg, ops, s[j].key) < LastUse(cfg, ops, s[i].key)
  {
    var at := LastUse(cfg, ops, s[0].key);
    if i > 0 {
      ByUseAt(cfg, ops, s[1..], at, i - 1, j - 1);
    } else if j > 0 {
      ByUseAt(cfg, ops, s[1..], at, 0, j - 1);
    }
  }

  /** In every run residents stand in the order of their last uses, the latest first. */
  lemma RecencyOrder(cfg: Config, ops: seq<Op>, i: nat, j: nat)
    requires i < j < |Run(cfg, ops).lru|
    ensures var s := Run(cfg, ops).lru;
            0 <= LastUse(cfg, ops, s[j].key) < LastUse(cfg, ops, s[i].key)
  {
    RunByUse(cfg, ops);
    ByUseAt(cfg, ops, Run(cfg, ops).lru, |ops|, i, j);
  }

  /** So what a Put evicts is the resident key whose last use is the oldest. */
  lemma EvictsLeastRecent(cfg: Config, ops: seq<Op>, k: string, e: Entry, x: string, y: string)
    requires x != k && Find(Run(cfg, ops).lru, x).Some? && Find(Run(cfg, ops + [Put(k, Some(e))]).lru, x).None?
    requires y != x && Find(Run(cfg, ops).lru, y).Some?
    ensures LastUse(cfg, ops, x) < LastUse(cfg, ops, y)
    ensures 0 < cfg.maxEntries == |Run(cfg, ops).lru| && Find(Run(cfg, ops).lru, k).None?
  {
    var st := Run(cfg, ops);
    RunValid(cfg, ops);
    RunSnoc(cfg, ops, Put(k, Some(e)));
    if Find(st.lru, k).Some? {
      PutKeepsOthers(cfg, st, k, e, x);
    } else {
      FindNone(st.lru, k);
      AbsentLaw(cfg, st, k, 0, e);
      LastIsLeast(cfg, ops, x, y, k, e);
    }
  }

  lemma PutKeepsOthers(cfg: Config, st: Store, k: string, e: Entry, x: string)
    requires Valid(cfg, st) && Find(st.lru, k).Some? && x != k && Find(st.lru, x).Some?
    ensures Find(Step(cfg, st, Put(k, Some(e))).lru, x).Some?
  {
    WithoutFacts(st.lru, k);
    assert ([Node(k, e)] + Without(st.lru, k))[1..] == Without(st.lru, k);
  }

  lemma LastIsLeast(cfg: Config, ops: seq<Op>, x: string, y: string, k: string, e: Entry)
    requires x != k && y != x && Find(Run(cfg, ops).lru, x).Some? && Find(Run(cfg, ops).lru, y).Some?
    requires var s := Run(cfg, ops).lru;
             Find(if 0 < cfg.maxEntries == |s| then [Node(k, e)] + s[..|s| - 1] else [Node(k, e)] + s, x).None?
    ensures LastUse(cfg, ops, x) < LastUse(cfg, ops, y) && 0 < cfg.maxEntries == |Run(cfg, ops).lru|
  {
    var s := Run(cfg, ops).lru;
    var i := IndexOf(s, x);
    var j := IndexOf(s, y);
    assert ([Node(k, e)] + s)[1..] == s && ([Node(k, e)] + s[..|s| - 1])[1..] == s[..|s| - 1];
    FindNone(s[..|s| - 1], x);
    assert forall t :: 0 <= t < |s| - 1 ==> s[..|s| - 1][t] == s[t];
    RecencyOrder(cfg, ops, j, i);
  }

  lemma {:induction false} IndexOf(s: seq<Node>, k: string) returns (i: nat)
    requires Find(s, k).Some?
    ensures i < |s| && s[i].key == k && s[i].entry == Find(s, k).value
  {
    i := 0;
    if s[0].key != k {
      var j := IndexOf(s[1..], k);
      i := j + 1;
    }
  }

  // ---------------------------------------------------------------- how long an entry stays

  /** The keys that operations put or look up: those that can move ahead of another key. */
  function Touched(ops: seq<Op>): set<string> {
    if ops == [] then {}
    else
      var op := ops[|ops| - 1];
      Touched(ops[..|ops| - 1]) + MovedBy(op)
  }

  function MovedBy(op: Op): set<string> { if op.Get? || op.Put? then {op.key} else {} }

  /** s holds e under k, and only keys of t come before it. */
  predicate Behind(s: seq<Node>, k: string, e: Entry, t: set<string>) {
    s != [] && if s[0].key == k then s[0].entry == e else s[0].key in t && Behind(s[1..], k, e, t)
  }

  lemma {:induction false} BehindFind(s: seq<Node>, k: string, e: Entry, t: set<string>)
    requires Behind(s, k, e, t)
    ensures Find(s, k) == Some(e)
  {
    if s[0].key != k { BehindFind(s[1..], k, e, t); }
  }

  lemma {:induction false} BehindWithout(s: seq<Node>, k: string, e: Entry, t: set<string>, other: string)
    requires Behind(s, k, e, t) && other != k
    ensures Behind(Without(s, other), k, e, t)
  {
    if s[0].key != k {
      BehindWithout(s[1..], k, e, t, other);
      assert s[0].key != other ==> Without(s, other)[1..] == Without(s[1..], other);
    }
  }

  lemma {:induction false} BehindMore(s: seq<Node>, k: string, e: Entry, t: set<string>, more: set<string>)
    requires Behind(s, k, e, t) && t <= more
    ensures Behind(s, k, e, more)
  {
    if s[0].key != k { BehindMore(s[1..], k, e, t, more); }
  }

  lemma {:induction false} BehindLess(s: seq<Node>, k: string, e: Entry, t: set<string>, x: string)
    requires Behind(s, k, e, t) && Find(s, x).None?
    ensures Behind(s, k, e, t - {x})
  {
    if s[0].key != k { BehindLess(s[1..], k, e, t, x); }
  }

  /** Cutting the list behind more nodes than there are keys to come first keeps the entry. */
  lemma {:induction false} BehindPrefix(s: seq<Node>, k: string, e: Entry, t: set<string>, n: nat)
    requires UniqueKeys(s) && Behind(s, k, e, t) && |t| < n <= |s|
    ensures Behind(s[..n], k, e, t)
  {
    if s[0].key != k {
      BehindLess(s[1..], k, e, t, s[0].key);
      BehindPrefix(s[1..], k, e, t - {s[0].key}, n - 1);
      BehindMore(s[1..][..n - 1], k, e, t - {s[0].key}, t);
      assert s[..n][1..] == s[1..][..n - 1];
    }
  }

  /** The operation leaves an entry e under k alone: it does not overwrite it, nor find it expired. */
  predicate Spares(cfg: Config, op: Op, k: string, e: Entry) {
    !Overwrites(op, k) && !(op.Get? && op.key == k && Expired(cfg, e, op.now))
  }

  lemma BehindPut(cfg: Config, st: Store, key: string, x: Entry, k: string, e: Entry, t: set<string>)
    requires Valid(cfg, st) && key != k && key in t && Behind(Without(st.lru, key), k, e, t)
    requires cfg.maxEntries <= 0 || |t| < cfg.maxEntries
    ensures Behind(Step(cfg, st, Put(key, Some(x))).lru, k, e, t)
  {
    var full := [Node(key, x)] + Without(st.lru, key);
    assert full[1..] == Without(st.lru, key);
    WithoutFacts(st.lru, key);
    ConsUnique(Node(key, x), Without(st.lru, key), Config(0, 0));
    if cfg.maxEntries > 0 && |full| > cfg.maxEntries {
      BehindPrefix(full, k, e, t, cfg.maxEntries);
    }
  }

  lemma BehindOther(cfg: Config, st: Store, op: Op, k: string, e: Entry, t: set<string>)
    requires Valid(cfg, st) && Behind(st.lru, k, e, t) && !op.Clear? && op.key != k
    requires op.Delete? || op.key in t
    requires cfg.maxEntries <= 0 || |t| < cfg.maxEntries
    ensures Behind(Step(cfg, st, op).lru, k, e, t)
  {
    var rest := Without(st.lru, op.key);
    BehindWithout(st.lru, k, e, t, op.key);
    if op.Put? && op.entry.Some? {
      BehindPut(cfg, st, op.key, op.entry.value, k, e, t);
    } else if op.Get? && Find(st.lru, op.key).Some? {
      assert ([Node(op.key, Find(st.lru, op.key).value)] + rest)[1..] == rest;
    }
  }

  lemma BehindStep(cfg: Config, st: Store, op: Op, k: string, e: Entry, t: set<string>)
    requires Valid(cfg, st) && Behind(st.lru, k, e, t - {k}) && Spares(cfg, op, k, e)
    requires cfg.maxEntries <= 0 || |t + MovedBy(op) - {k}| < cfg.maxEntries
    ensures Behind(Step(cfg, st, op).lru, k, e, t + MovedBy(op) - {k})
  {
    BehindFind(st.lru, k, e, t - {k});
    BehindMore(st.lru, k, e, t - {k}, t + MovedBy(op) - {k});
    if op.key != k {
      BehindOther(cfg, st, op, k, e, t + MovedBy(op) - {k});
    }
  }

  predicate AllSpare(cfg: Config, ops: seq<Op>, k: string, e: Entry) {
    ops == [] || (AllSpare(cfg, ops[..|ops| - 1], k, e) && Spares(cfg, ops[|ops| - 1], k, e))
  }

  lemma {:induction false} SparedAll(cfg: Config, ops: seq<Op>, k: string, e: Entry)
    requires forall j :: 0 <= j < |ops| ==> Spares(cfg, ops[j], k, e)
    ensures AllSpare(cfg, ops, k, e)
  {
    if ops != [] { SparedAll(cfg, ops[..|ops| - 1], k, e); }
  }

  lemma RunOn(cfg: Config, first: seq<Op>, later: seq<Op>)
    requires later != []
    ensures Run(cfg, first + later) == Step(cfg, Run(cfg, first + later[..|later| - 1]), later[|later| - 1])
  {
    var init, last := first + later[..|later| - 1], later[|later| - 1];
    assert first + later == init + [last];
    RunSnoc(cfg, init, last);
  }

  lemma {:induction false} BehindRun(cfg: Config, first: seq<Op>, later: seq<Op>, k: string, e: Entry)
    requires Behind(Run(cfg, first).lru, k, e, {}) && AllSpare(cfg, later, k, e)
    requires cfg.maxEntries <= 0 || |Touched(later) - {k}| < cfg.maxEntries
    ensures Behind(Run(cfg, first + later).lru, k, e, Touched(later) - {k})
    decreases |later|
  {
    if later == [] {
      assert first + later == first;
      assert Touched(later) - {k} == {};
    } else {
      var init, last := later[..|later| - 1], later[|later| - 1];
      SubsetSize(Touched(init) - {k}, Touched(later) - {k});
      BehindRun(cfg, first, init, k, e);
      RunValid(cfg, first + init);
      BehindStep(cfg, Run(cfg, first + init), last, k, e, Touched(init));
      RunOn(cfg, first, later);
    }
  }

  /** From its last use on an entry stays resident until it is overwritten, removed or found expired, or
      until as many other keys as the store has room for have been put or looked up. */
  lemma StaysResident(cfg: Config, ops: seq<Op>, i: nat, k: string, e: Entry)
    requires UsedAt(cfg, ops, i, k) && Find(Run(cfg, ops[..i + 1]).lru, k) == Some(e)
    requires forall j :: i < j < |ops| ==> Spares(cfg, ops[j], k, e)
    requires cfg.maxEntries <= 0 || |Touched(ops[i + 1..]) - {k}| < cfg.maxEntries
    ensures Find(Run(cfg, ops).lru, k) == Some(e)
  {
    var first, later := ops[..i + 1], ops[i + 1..];
    UsedIsFirst(cfg, ops, i, k);
    assert first + later == ops;
    SparedAll(cfg, later, k, e);
    BehindRun(cfg, first, later, k, e);
    BehindFind(Run(cfg, ops).lru, k, e, Touched(later) - {k});
  }

  /** The key just used is in front. */
  lemma UsedIsFirst(cfg: Config, ops: seq<Op>, i: nat, k: string)
    requires UsedAt(cfg, ops, i, k)
    ensures var s := Run(cfg, ops[..i + 1]).lru; s != [] && s[0].key == k && Find(s, k) == Some(s[0].entry)
  {
    RunValid(cfg, ops[..i]);
    StepValid(cfg, Run(cfg, ops[..i]), ops[i]);
    RunOn(cfg, ops[..i], [ops[i]]);
    assert ops[..i] + [ops[i]] == ops[..i + 1] && ops[..i] + [] == ops[..i];
  }

  lemma {:induction false} SubsetSize(a: set<string>, b: set<string>)
    requires a <= b
    ensures |a| <= |b|
    decreases b
  {
    if x :| x in a {
      SubsetSize(a - {x}, b - {x});
    }
  }

  // ---------------------------------------------------------------- inclusion

  ghost predicate Subsequence(a: seq<Node>, b: seq<Node>) {
    a == [] || (b != [] && ((a[0] == b[0] && Subsequence(a[1..], b[1..])) || Subsequence(a, b[1..])))
  }

  lemma {:induction false} SubsequenceFind(a: seq<Node>, b: seq<Node>, k: string)
    requires Subsequence(a, b) && UniqueKeys(b) && Find(a, k).Some?
    ensures Find(b, k) == Find(a, k)
    decreases b
  {
    if a[0] == b[0] && Subsequence(a[1..], b[1..]) {
      if a[0].key != k {
        SubsequenceFind(a[1..], b[1..], k);
      }
    } else {
      SubsequenceFind(a, b[1..], k);
      FindNone(b[1..], b[0].key);
    }
  }

  lemma {:induction false} SubsequenceWithout(a: seq<Node>, b: seq<Node>, k: string)
    requires Subsequence(a, b)
    ensures Subsequence(Without(a, k), Without(b, k))
    decreases b
  {
    if a != [] {
      if a[0] == b[0] && Subsequence(a[1..], b[1..]) {
        SubsequenceWithout(a[1..], b[1..], k);
      } else {
        SubsequenceWithout(a, b[1..], k);
        assert b[0].key != k ==> Without(b, k)[1..] == Without(b[1..], k);
      }
    }
  }

  lemma {:induction false} SubsequenceLength(a: seq<Node>, b: seq<Node>)
    requires Subsequence(a, b)
    ensures |a| <= |b|
    decreases b
  {
    if a != [] {
      if a[0] == b[0] && Subsequence(a[1..], b[1..]) {
        SubsequenceLength(a[1..], b[1..]);
      } else {
        SubsequenceLength(a, b[1..]);
      }
    }
  }

  lemma {:induction false} SubsequencePrefix(a: seq<Node>, b: seq<Node>, n: nat)
    requires Subsequence(a, b) && n <= |a|
    ensures Subsequence(a[..n], b)
    decreases b
  {
    if n > 0 {
      if a[0] == b[0] && Subsequence(a[1..], b[1..]) {
        SubsequencePrefix(a[1..], b[1..], n - 1);
        assert a[..n][1..] == a[1..][..n - 1];
      } else {
        SubsequencePrefix(a, b[1..], n);
      }
    }
  }

  /** Dropping the last node of both sides keeps the relation. */
  lemma {:induction false} SubsequenceInit(a: seq<Node>, b: seq<Node>)
    requires Subsequence(a, b) && a != []
    ensures b != [] && Subsequence(a[..|a| - 1], b[..|b| - 1])
    decreases b
  {
    var b' := b[..|b| - 1];
    if a[0] == b[0] && Subsequence(a[1..], b[1..]) {
      if |a| > 1 {
        SubsequenceInit(a[1..], b[1..]);
        assert a[..|a| - 1][1..] == a[1..][..|a| - 2] && b'[1..] == b[1..][..|b| - 2];
      }
    } else {
      SubsequenceInit(a, b[1..]);
      SubsequenceLength(a, b[1..]);
      assert b'[1..] == b[1..][..|b| - 2];
    }
  }

  /** small's cap is positive and large's is at least as big, or absent. */
  predicate Wider(small: Config, large: Config) {
    small.maxEntries >= 1 && small.ttl == large.ttl
    && (large.maxEntries <= 0 || small.maxEntries <= large.maxEntries)
  }

  /** The inductive relation: a subsequence, and large is never nearer to its cap than small. */
  ghost predicate Included(small: Config, large: Config, a: Store, b: Store) {
    && Valid(small, a) && Valid(large, b)
    && Subsequence(a.lru, b.lru)
    && (large.maxEntries > 0 ==> |b.lru| - |a.lru| <= large.maxEntries - small.maxEntries)
  }

  /** Capping both sides keeps the relation: large evicts only when small does. */
  lemma SubsequenceCapped(small: Config, large: Config, a: seq<Node>, b: seq<Node>)
    requires Wider(small, large) && Subsequence(a, b) && |a| > 0
    requires large.maxEntries > 0 ==> |b| <= large.maxEntries + 1
    requires large.maxEntries > 0 ==> |b| - |a| <= large.maxEntries - small.maxEntries
    requires |a| <= small.maxEntries + 1
    ensures Subsequence(Capped(small, a), Capped(large, b))
    ensures large.maxEntries > 0 ==>
              |Capped(large, b)| - |Capped(small, a)| <= large.maxEntries - small.maxEntries
  {
    var ca, cb := Capped(small, a), Capped(large, b);
    if large.maxEntries > 0 && |b| > large.maxEntries {
      SubsequenceInit(a, b);
      assert ca == a[..|a| - 1] && cb == b[..|b| - 1];
    } else {
      SubsequencePrefix(a, b, |ca|);
      assert ca == a[..|ca|] && cb == b;
    }
  }

  lemma InclusionPut(small: Config, large: Config, a: Store, b: Store, k: string, e: Entry)
    requires Wider(small, large) && Included(small, large, a, b)
    ensures Included(small, large, Step(small, a, Put(k, Some(e))), Step(large, b, Put(k, Some(e))))
  {
    StepValid(small, a, Put(k, Some(e)));
    StepValid(large, b, Put(k, Some(e)));
    var fa, fb := [Node(k, e)] + Without(a.lru, k), [Node(k, e)] + Without(b.lru, k);
    assert |fb| - |fa| <= |b.lru| - |a.lru| && |fa| <= |a.lru| + 1 && |fb| <= |b.lru| + 1 by {
      WithoutFacts(a.lru, k);
      WithoutFacts(b.lru, k);
      if Find(a.lru, k).Some? {
        SubsequenceFind(a.lru, b.lru, k);
      }
    }
    assert Subsequence(fa, fb) by {
      SubsequenceWithout(a.lru, b.lru, k);
      assert fa[1..] == Without(a.lru, k) && fb[1..] == Without(b.lru, k);
    }
    SubsequenceCapped(small, large, fa, fb);
  }

  lemma InclusionStep(small: Config, large: Config, a: Store, b: Store, op: Op)
    requires Wider(small, large) && Included(small, large, a, b)
    ensures Included(small, large, Step(small, a, op), Step(large, b, op))
  {
    if op.Put? && op.entry.Some? {
      InclusionPut(small, large, a, b, op.key, op.entry.value);
    } else if op.Clear? || op.Put? {
    } else {
      StepValid(small, a, op);
      StepValid(large, b, op);
      WithoutFacts(a.lru, op.key);
      WithoutFacts(b.lru, op.key);
      SubsequenceWithout(a.lru, b.lru, op.key);
      if Find(a.lru, op.key).Some? {
        SubsequenceFind(a.lru, b.lru, op.key);
      }
      if op.Get? && Find(b.lru, op.key).Some? {
        var n := Node(op.key, Find(b.lru, op.key).value);
        assert ([n] + Without(b.lru, op.key))[1..] == Without(b.lru, op.key);
        assert ([n] + Without(a.lru, op.key))[1..] == Without(a.lru, op.key);
      }
    }
  }

  /** On any one trace the smaller store's recency list is a subsequence of the larger one's. */
  lemma {:induction false} Inclusion(small: Config, large: Config, ops: seq<Op>)
    requires Wider(small, large)
    ensures Included(small, large, Run(small, ops), Run(large, ops))
  {
    if ops != [] {
      Inclusion(small, large, ops[..|ops| - 1]);
      InclusionStep(small, large, Run(small, ops[..|ops| - 1]), Run(large, ops[..|ops| - 1]), ops[|ops| - 1]);
    }
  }

  /** Raising MaxEntries never turns a hit into a miss, and never changes what the hit returns. */
  lemma MoreCapacityKeepsHits(small: Config, large: Config, ops: seq<Op>, k: string, now: int)
    requires Wider(small, large)
    requires Lookup(small, Run(small, ops), k, now).Some?
    ensures Lookup(large, Run(large, ops), k, now) == Lookup(small, Run(small, ops), k, now)
  {
    Inclusion(small, large, ops);
    SubsequenceFind(Run(small, ops).lru, Run(large, ops).lru, k);
  }

  // ---------------------------------------------------------------- seeding

  /** The Puts that Seed performs, one per entry, in list order (cache_seed.go). */
  function SeedOps(es: seq<Entry>): seq<Op> {
    if es == [] then []
    else SeedOps(es[..|es| - 1]) + [Put(es[|es| - 1].key, Some(es[|es| - 1]))]
  }

  /** Index of the last entry with key k, or -1. */
  function LastIndex(es: seq<Entry>, k: string): (i: int)
    ensures -1 <= i < |es|
    ensures i >= 0 ==> es[i].key == k
    ensures forall j :: i < j < |es| ==> es[j].key != k
  {
    if es == [] then -1
    else if es[|es| - 1].key == k then |es| - 1
    else LastIndex(es[..|es| - 1], k)
  }

  /** The entries by last occurrence, latest first, each key once. */
  function Latest(es: seq<Entry>): seq<Node> {
    if es == [] then []
    else
      var e := es[|es| - 1];
      [Node(e.key, e)] + Without(Latest(es[..|es| - 1]), e.key)
  }

  lemma {:induction false} LatestUnique(es: seq<Entry>)
    ensures UniqueKeys(Latest(es))
  {
    if es != [] {
      var init, e := es[..|es| - 1], es[|es| - 1];
      LatestUnique(init);
      WithoutFacts(Latest(init), e.key);
      ConsUnique(Node(e.key, e), Without(Latest(init), e.key), Config(0, 0));
    }
  }

  lemma {:induction false} LatestHas(es: seq<Entry>, j: nat)
    requires j < |es|
    ensures Find(Latest(es), es[j].key).Some?
  {
    var init, e := es[..|es| - 1], es[|es| - 1];
    assert Latest(es)[1..] == Without(Latest(init), e.key);
    if j < |init| && es[j].key != e.key {
      LatestHas(init, j);
      LatestUnique(init);
      WithoutFacts(Latest(init), e.key);
    }
  }

  /** Removing a key from a prefix leaves a prefix, at most one shorter. */
  lemma {:induction false} WithoutPrefix(s: seq<Node>, n: nat, k: string)
    requires UniqueKeys(s) && n <= |s|
    ensures Without(s[..n], k) <= Without(s, k)
    ensures |Without(s[..n], k)| >= n - 1
  {
    if n > 0 {
      assert s[..n][1..] == s[1..][..n - 1];
      WithoutPrefix(s[1..], n - 1, k);
      if s[0].key == k {
        WithoutPrefixHead(s, n, k);
      } else {
        var a, b := Without(s[1..][..n - 1], k), Without(s[1..], k);
        assert Without(s[..n], k) == [s[0]] + a && Without(s, k) == [s[0]] + b;
      }
    }
  }

  lemma WithoutPrefixHead(s: seq<Node>, n: nat, k: string)
    requires UniqueKeys(s) && 0 < n <= |s| && s[0].key == k
    ensures Without(s[..n], k) == s[1..][..n - 1] && Without(s, k) == s[1..]
  {
    assert s[..n][1..] == s[1..][..n - 1];
    WithoutFacts(s[1..], k);
    FindPrefix(s[1..], n - 1, k);
    PrefixUnique(s[1..], n - 1);
    WithoutFacts(s[1..][..n - 1], k);
  }

  /** Capping at every Put or only at the end is the same. */
  lemma CapOnce(cfg: Config, n: Node, s: seq<Node>)
    requires UniqueKeys(s)
    ensures Capped(cfg, [n] + Without(Capped(cfg, s), n.key)) == Capped(cfg, [n] + Without(s, n.key))
  {
    if cfg.maxEntries > 0 && |s| > cfg.maxEntries {
      WithoutPrefix(s, cfg.maxEntries, n.key);
    }
  }

  lemma {:induction false} SeedRun(cfg: Config, es: seq<Entry>)
    ensures Run(cfg, SeedOps(es)).lru == Capped(cfg, Latest(es))
  {
    if es != [] {
      var init, e := es[..|es| - 1], es[|es| - 1];
      SeedRun(cfg, init);
      LatestUnique(init);
      RunSnoc(cfg, SeedOps(init), Put(e.key, Some(e)));
      CapOnce(cfg, Node(e.key, e), Latest(init));
    }
  }

  /** Each node holds the last occurrence of its key, and last occurrences descend from bound. */
  predicate Ranked(es: seq<Entry>, s: seq<Node>, bound: int) {
    s == [] ||
    var at := LastIndex(es, s[0].key);
    0 <= at < bound && s[0].entry == es[at] && Ranked(es, s[1..], at)
  }

  lemma {:induction false} RankedSnocWithout(init: seq<Entry>, e: Entry, s: seq<Node>, bound: int, wider: int)
    requires Ranked(init, s, bound) && bound <= wider
    ensures Ranked(init + [e], Without(s, e.key), wider)
  {
    if s != [] {
      var at, w := LastIndex(init, s[0].key), Without(s, e.key);
      if s[0].key == e.key {
        RankedSnocWithout(init, e, s[1..], at, wider);
      } else {
        RankedSnocWithout(init, e, s[1..], at, at);
        assert w[1..] == Without(s[1..], e.key);
        assert (init + [e])[..|init|] == init;
      }
    }
  }

  lemma {:induction false} LatestRanked(es: seq<Entry>)
    ensures Ranked(es, Latest(es), |es|)
  {
    if es != [] {
      var init, e := es[..|es| - 1], es[|es| - 1];
      LatestRanked(init);
      RankedSnocWithout(init, e, Latest(init), |init|, |init|);
      assert init + [e] == es;
      assert Latest(es)[1..] == Without(Latest(init), e.key);
    }
  }

  lemma {:induction false} RankedAt(es: seq<Entry>, s: seq<Node>, bound: int, j: nat)
    requires Ranked(es, s, bound) && j < |s|
    ensures 0 <= LastIndex(es, s[j].key) < bound && s[j].entry == es[LastIndex(es, s[j].key)]
  {
    if j > 0 {
      RankedAt(es, s[1..], LastIndex(es, s[0].key), j - 1);
    }
  }

  lemma {:induction false} RankedOrder(es: seq<Entry>, s: seq<Node>, bound: int, i: nat, j: nat)
    requires Ranked(es, s, bound) && i < j < |s|
    ensures LastIndex(es, s[i].key) > LastIndex(es, s[j].key)
  {
    if i == 0 {
      RankedAt(es, s[1..], LastIndex(es, s[0].key), j - 1);
    } else {
      RankedOrder(es, s[1..], LastIndex(es, s[0].key), i - 1, j - 1);
    }
  }

  /** What a seeded store must look like, in terms of the entry list alone: every node holds the
      last occurrence of its key, nodes are ranked by last occurrence, and a key is left out only
      when the store is full of keys that occur later. */
  ghost predicate SeededFrom(cfg: Config, es: seq<Entry>, s: seq<Node>) {
    && (cfg.maxEntries > 0 ==> |s| <= cfg.maxEntries)
    && (forall i :: 0 <= i < |s| ==> LastIndex(es, s[i].key) >= 0 && s[i].entry == es[LastIndex(es, s[i].key)])
    && (forall i, j :: 0 <= i < j < |s| ==> LastIndex(es, s[i].key) > LastIndex(es, s[j].key))
    && (forall j :: 0 <= j < |es| && Find(s, es[j].key).None? ==>
          && 0 < cfg.maxEntries == |s|
          && forall i :: 0 <= i < |s| ==> LastIndex(es, s[i].key) > LastIndex(es, es[j].key))
  }

  lemma SeedLaw(cfg: Config, es: seq<Entry>)
    ensures SeededFrom(cfg, es, Run(cfg, SeedOps(es)).lru)
  {
    var s, all := Run(cfg, SeedOps(es)).lru, Latest(es);
    SeedRun(cfg, es);
    LatestRanked(es);
    assert forall i :: 0 <= i < |s| ==> s[i] == all[i];
    forall i | 0 <= i < |s|
      ensures LastIndex(es, s[i].key) >= 0 && s[i].entry == es[LastIndex(es, s[i].key)]
    {
      RankedAt(es, all, |es|, i);
    }
    forall i, j | 0 <= i < j < |s|
      ensures LastIndex(es, s[i].key) > LastIndex(es, s[j].key)
    {
      RankedOrder(es, all, |es|, i, j);
    }
    forall j | 0 <= j < |es| && Find(s, es[j].key).None?
      ensures 0 < cfg.maxEntries == |s|
      ensures forall i :: 0 <= i < |s| ==> LastIndex(es, s[i].key) > LastIndex(es, es[j].key)
    {
      LeftOut(cfg, es, j);
    }
  }

  lemma LeftOut(cfg: Config, es: seq<Entry>, j: nat)
    requires j < |es| && Find(Capped(cfg, Latest(es)), es[j].key).None?
    ensures var s := Capped(cfg, Latest(es));
            && 0 < cfg.maxEntries == |s|
            && forall i :: 0 <= i < |s| ==> LastIndex(es, s[i].key) > LastIndex(es, es[j].key)
  {
    var s, all := Capped(cfg, Latest(es)), Latest(es);
    var p := PushedOff(cfg, es, j);
    LatestRanked(es);
    forall i | 0 <= i < |s| ensures LastIndex(es, s[i].key) > LastIndex(es, es[j].key) {
      assert s[i] == all[i];
      RankedOrder(es, all, |es|, i, p);
    }
  }

  lemma PushedOff(cfg: Config, es: seq<Entry>, j: nat) returns (p: nat)
    requires j < |es| && Find(Capped(cfg, Latest(es)), es[j].key).None?
    ensures |Capped(cfg, Latest(es))| <= p < |Latest(es)| && Latest(es)[p].key == es[j].key
  {
    var all, k := Latest(es), es[j].key;
    LatestUnique(es);
    LatestHas(es, j);
    FindNone(all, k);
    FindNone(Capped(cfg, all), k);
    assert forall i :: 0 <= i < |Capped(cfg, all)| ==> Capped(cfg, all)[i] == all[i];
    p :| 0 <= p < |all| && all[p].key == k;
  }
}
