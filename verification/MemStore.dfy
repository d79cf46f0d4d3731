/** The LRU store as the code keeps it: a map from key to list element, a list of the same elements
    and a running byte count, all changed in place.  Every method refines a step of module Lru.

    List elements are addresses into an arena of payloads, so that the map and the list share an
    element by holding the same address, and overwriting a payload is seen through both. */
module MemStores {
  import opened Base
  import Lru

  type Element = nat
  type Arena = map<Element, Lru.Node>

  function Spliced<T>(s: seq<T>, i: nat): seq<T>
    requires i < |s|
  {
    s[..i] + s[i + 1..]
  }

  lemma PrefixSplice<T>(s: seq<T>, n: nat)
    requires 0 < n <= |s|
    ensures Spliced(s[..n], n - 1) == s[..n - 1]
  {
  }

  // ---------------------------------------------------------------- sizes

  ghost function TotalSize(s: seq<Lru.Node>): nat {
    if s == [] then 0 else EntrySize(s[0].entry) + TotalSize(s[1..])
  }

  lemma {:induction false} TotalSizeSplice(s: seq<Lru.Node>, i: nat)
    requires i < |s|
    ensures TotalSize(s) == TotalSize(Spliced(s, i)) + EntrySize(s[i].entry)
  {
    if i == 0 {
      assert Spliced(s, 0) == s[1..];
    } else {
      TotalSizeSplice(s[1..], i - 1);
      assert Spliced(s, i)[1..] == Spliced(s[1..], i - 1);
    }
  }

  lemma FrontSize(n: Lru.Node, s: seq<Lru.Node>)
    ensures TotalSize([n] + s) == EntrySize(n.entry) + TotalSize(s)
  {
  }

  // ---------------------------------------------------------------- map and list agree

  /** The map and the list hold the same elements, each key once. */
  ghost predicate Linked(entries: map<string, Element>, lru: seq<Element>, arena: Arena) {
    if lru == [] then entries == map[]
    else
      && lru[0] in arena
      && var k := arena[lru[0]].key;
         k in entries && entries[k] == lru[0] && Linked(entries - {k}, lru[1..], arena)
  }

  ghost function NodesOf(lru: seq<Element>, arena: Arena): (s: seq<Lru.Node>)
    requires forall i :: 0 <= i < |lru| ==> lru[i] in arena
    ensures |s| == |lru|
  {
    seq(|lru|, i requires 0 <= i < |lru| => arena[lru[i]])
  }

  lemma {:induction false} LinkedAt(entries: map<string, Element>, lru: seq<Element>, arena: Arena, i: nat)
    requires Linked(entries, lru, arena) && i < |lru|
    ensures lru[i] in arena && arena[lru[i]].key in entries && entries[arena[lru[i]].key] == lru[i]
    ensures i > 0 ==> lru[i] != lru[0] && arena[lru[i]].key != arena[lru[0]].key
  {
    if i > 0 {
      LinkedAt(entries - {arena[lru[0]].key}, lru[1..], arena, i - 1);
    }
  }

  lemma LinkedAllocated(entries: map<string, Element>, lru: seq<Element>, arena: Arena)
    requires Linked(entries, lru, arena)
    ensures forall i :: 0 <= i < |lru| ==> lru[i] in arena
  {
  }

  lemma {:induction false} LinkedIndex(entries: map<string, Element>, lru: seq<Element>, arena: Arena, k: string)
    returns (i: nat)
    requires Linked(entries, lru, arena) && k in entries
    ensures i < |lru| && lru[i] == entries[k] && lru[i] in arena && arena[lru[i]].key == k
  {
    if arena[lru[0]].key == k {
      i := 0;
    } else {
      i := LinkedIndex(entries - {arena[lru[0]].key}, lru[1..], arena, k);
      i := i + 1;
    }
  }

  lemma {:induction false} LinkedOnce(entries: map<string, Element>, lru: seq<Element>, arena: Arena, i: nat, j: nat)
    requires Linked(entries, lru, arena) && i < |lru| && j < |lru| && lru[i] == lru[j]
    ensures i == j
  {
    if i == 0 {
      LinkedAt(entries, lru, arena, j);
    } else if j == 0 {
      LinkedAt(entries, lru, arena, i);
    } else {
      LinkedOnce(entries - {arena[lru[0]].key}, lru[1..], arena, i - 1, j - 1);
    }
  }

  /** The list names exactly the map's keys, once each, and they are equally many. */
  lemma {:induction false} LinkedFacts(entries: map<string, Element>, lru: seq<Element>, arena: Arena)
    requires Linked(entries, lru, arena)
    ensures forall i :: 0 <= i < |lru| ==> lru[i] in arena
    ensures Lru.UniqueKeys(NodesOf(lru, arena))
    ensures forall k :: k in entries <==> Lru.Find(NodesOf(lru, arena), k).Some?
    ensures |entries| == |lru|
    decreases |lru|
  {
    LinkedAllocated(entries, lru, arena);
    if lru != [] {
      var k := arena[lru[0]].key;
      LinkedFacts(entries - {k}, lru[1..], arena);
      assert NodesOf(lru, arena)[1..] == NodesOf(lru[1..], arena);
      assert entries == (entries - {k})[k := lru[0]];
    }
  }

  lemma {:induction false} LinkedSplice(entries: map<string, Element>, lru: seq<Element>, arena: Arena, i: nat)
    requires Linked(entries, lru, arena) && i < |lru|
    ensures lru[i] in arena && Linked(entries - {arena[lru[i]].key}, Spliced(lru, i), arena)
    decreases |lru|
  {
    LinkedAt(entries, lru, arena, i);
    if i == 0 {
      assert Spliced(lru, 0) == lru[1..];
    } else {
      var k0, k := arena[lru[0]].key, arena[lru[i]].key;
      LinkedSplice(entries - {k0}, lru[1..], arena, i - 1);
      assert Spliced(lru, i)[1..] == Spliced(lru[1..], i - 1);
      assert entries - {k} - {k0} == entries - {k0} - {k};
    }
  }

  lemma LinkedPush(entries: map<string, Element>, lru: seq<Element>, arena: Arena, el: Element)
    requires Linked(entries, lru, arena) && el in arena && arena[el].key !in entries
    ensures Linked(entries[arena[el].key := el], [el] + lru, arena)
  {
    var k := arena[el].key;
    assert ([el] + lru)[1..] == lru;
    assert entries[k := el] - {k} == entries;
  }

  /** Writing a payload that no listed element holds, or one that keeps its key, breaks nothing. */
  lemma {:induction false} LinkedWrite(entries: map<string, Element>, lru: seq<Element>, arena: Arena,
                                   el: Element, n: Lru.Node)
    requires Linked(entries, lru, arena)
    requires el !in lru || (el in arena && arena[el].key == n.key)
    ensures Linked(entries, lru, arena[el := n])
  {
    if lru != [] {
      LinkedWrite(entries - {arena[lru[0]].key}, lru[1..], arena, el, n);
    }
  }

  // ---------------------------------------------------------------- the two list moves

  /** Unlinking element i: the nodes lose exactly its key and its bytes. */
  lemma Unlink(entries: map<string, Element>, lru: seq<Element>, arena: Arena, i: nat)
    requires Linked(entries, lru, arena) && i < |lru|
    ensures lru[i] in arena && Linked(entries - {arena[lru[i]].key}, Spliced(lru, i), arena)
    ensures forall j :: 0 <= j < |lru| ==> lru[j] in arena
    ensures NodesOf(Spliced(lru, i), arena) == Lru.Without(NodesOf(lru, arena), arena[lru[i]].key)
    ensures TotalSize(NodesOf(Spliced(lru, i), arena))
            == TotalSize(NodesOf(lru, arena)) - EntrySize(arena[lru[i]].entry)
  {
    LinkedSplice(entries, lru, arena, i);
    LinkedFacts(entries, lru, arena);
    var s := NodesOf(lru, arena);
    assert NodesOf(Spliced(lru, i), arena) == Spliced(s, i);
    Lru.WithoutAt(s, i);
    TotalSizeSplice(s, i);
  }

  /** Linking an unlisted element at the front. */
  lemma Link(entries: map<string, Element>, lru: seq<Element>, arena: Arena, el: Element)
    requires Linked(entries, lru, arena) && el in arena && arena[el].key !in entries
    ensures Linked(entries[arena[el].key := el], [el] + lru, arena)
    ensures forall j :: 0 <= j < |lru| ==> lru[j] in arena
    ensures NodesOf([el] + lru, arena) == [arena[el]] + NodesOf(lru, arena)
    ensures TotalSize(NodesOf([el] + lru, arena)) == EntrySize(arena[el].entry) + TotalSize(NodesOf(lru, arena))
  {
    LinkedAllocated(entries, lru, arena);
    LinkedPush(entries, lru, arena, el);
    assert NodesOf([el] + lru, arena) == [arena[el]] + NodesOf(lru, arena);
    FrontSize(arena[el], NodesOf(lru, arena));
  }

  /** Moving element i to the front. */
  lemma Move(entries: map<string, Element>, lru: seq<Element>, arena: Arena, i: nat)
    requires Linked(entries, lru, arena) && i < |lru|
    ensures Linked(entries, [lru[i]] + Spliced(lru, i), arena)
    ensures forall j :: 0 <= j < |lru| ==> lru[j] in arena
    ensures NodesOf([lru[i]] + Spliced(lru, i), arena)
            == [arena[lru[i]]] + Lru.Without(NodesOf(lru, arena), arena[lru[i]].key)
    ensures TotalSize(NodesOf([lru[i]] + Spliced(lru, i), arena)) == TotalSize(NodesOf(lru, arena))
  {
    Unlink(entries, lru, arena, i);
    LinkedAt(entries, lru, arena, i);
    var k := arena[lru[i]].key;
    Link(entries - {k}, Spliced(lru, i), arena, lru[i]);
    assert (entries - {k})[k := lru[i]] == entries;
  }

  /** Overwriting the payload of element i and then moving it to the front. */
  lemma Overwrite(entries: map<string, Element>, lru: seq<Element>, arena: Arena, i: nat, e: Entry)
    requires Linked(entries, lru, arena) && i < |lru| && lru[i] in arena
    ensures var el, k := lru[i], arena[lru[i]].key;
            var arena' := arena[el := Lru.Node(k, e)];
            && Linked(entries, lru, arena')
            && (forall j :: 0 <= j < |lru| ==> lru[j] in arena)
            && Lru.Without(NodesOf(lru, arena'), k) == Lru.Without(NodesOf(lru, arena), k)
            && TotalSize(NodesOf(lru, arena'))
               == TotalSize(NodesOf(lru, arena)) - EntrySize(arena[el].entry) + EntrySize(e)
  {
    var el, k := lru[i], arena[lru[i]].key;
    var arena' := arena[el := Lru.Node(k, e)];
    LinkedWrite(entries, lru, arena, el, Lru.Node(k, e));
    Unlink(entries, lru, arena, i);
    Unlink(entries, lru, arena', i);
    var cut := Spliced(lru, i);
    forall j | 0 <= j < |cut| ensures cut[j] in arena && arena'[cut[j]] == arena[cut[j]] {
      var p := if j < i then j else j + 1;
      assert cut[j] == lru[p];
      if cut[j] == el { LinkedOnce(entries, lru, arena, p, i); }
    }
    assert NodesOf(cut, arena') == NodesOf(cut, arena);
  }

  // ---------------------------------------------------------------- the store

  class MemStore {
    const cfg: Lru.Config
    var entries: map<string, Element>
    var lru: seq<Element>
    var arena: Arena
    var hits: nat
    var misses: nat
    var evictions: nat
    var bytes: int

    ghost predicate Consistent()
      reads this
    {
      && Linked(entries, lru, arena)
      && (forall i :: 0 <= i < |lru| ==> lru[i] in arena)
      && bytes == TotalSize(NodesOf(lru, arena))
    }

    ghost predicate Valid()
      reads this
    {
      Consistent() && Lru.Valid(cfg, View())
    }

    /** The abstract store this object represents. */
    ghost function View(): Lru.Store
      requires Consistent()
      reads this
    {
      Lru.Store(NodesOf(lru, arena), hits, misses, evictions)
    }

    constructor (cfg: Lru.Config)
      ensures Valid() && this.cfg == cfg && View() == Lru.EMPTY
    {
      this.cfg := cfg;
      entries, lru, arena := map[], [], map[];
      hits, misses, evictions, bytes := 0, 0, 0, 0;
    }

    /** Removes el from both the map and the list and gives its bytes back. */
    method RemoveLocked(el: Element, ghost i: nat)
      requires Consistent() && i < |lru| && lru[i] == el
      modifies this`entries, this`lru, this`bytes
      ensures Consistent()
      ensures lru == Spliced(old(lru), i)
      ensures View().lru == Lru.Without(old(View().lru), arena[el].key)
    {
      Unlink(entries, lru, arena, i);
      var at :| 0 <= at < |lru| && lru[at] == el;
      LinkedOnce(entries, lru, arena, at, i);
      var n := Size(arena[el].entry);
      entries := entries - {arena[el].key};
      lru := Spliced(lru, at);
      bytes := bytes - n;
    }

    /** list.MoveToFront */
    method MoveToFront(el: Element, ghost i: nat)
      requires Linked(entries, lru, arena) && i < |lru| && lru[i] == el
      modifies this`lru
      ensures lru == [el] + Spliced(old(lru), i)
    {
      var at :| 0 <= at < |lru| && lru[at] == el;
      LinkedOnce(entries, lru, arena, at, i);
      lru := [el] + Spliced(lru, at);
    }

    lemma Locate(key: string) returns (i: nat)
      requires Consistent() && key in entries
      ensures i < |lru| && lru[i] == entries[key] && arena[lru[i]].key == key
      ensures Lru.Find(View().lru, key) == Some(arena[lru[i]].entry)
    {
      i := LinkedIndex(entries, lru, arena, key);
      LinkedFacts(entries, lru, arena);
      Lru.FindAt(View().lru, i);
    }

    method Get(key: string, now: int) returns (r: Option<Entry>)
      requires Valid()
      modifies this
      ensures Valid()
      ensures r == Lru.Lookup(cfg, old(View()), key, now)
      ensures View() == Lru.Step(cfg, old(View()), Lru.Get(key, now))
    {
      Lru.StepValid(cfg, View(), Lru.Get(key, now));
      LinkedFacts(entries, lru, arena);
      if key !in entries {
        misses := misses + 1;
        return None;
      }
      var el := entries[key];
      ghost var i := Locate(key);
      var entry := arena[el].entry;
      if cfg.ttl > 0 && now - entry.recordedAt > cfg.ttl {
        RemoveLocked(el, i);
        misses := misses + 1;
        return None;
      }
      Touch(el, i);
      return Some(entry);
    }

    /** A hit: move the element to the front and count it. */
    method Touch(el: Element, ghost i: nat)
      requires Consistent() && i < |lru| && lru[i] == el
      modifies this`lru, this`hits
      ensures Consistent() && hits == old(hits) + 1
      ensures View().lru == [arena[el]] + Lru.Without(old(View().lru), arena[el].key)
    {
      Move(entries, lru, arena, i);
      MoveToFront(el, i);
      hits := hits + 1;
    }

    method Put(key: string, entry: Option<Entry>)
      requires Valid()
      modifies this
      ensures Valid()
      ensures View() == Lru.Step(cfg, old(View()), Lru.Put(key, entry))
    {
      if entry.None? {
        return;
      }
      Lru.StepValid(cfg, View(), Lru.Put(key, entry));
      Lru.WithoutFacts(View().lru, key);
      LinkedFacts(entries, lru, arena);
      if key in entries {
        Replace(key, entry.value);
      } else {
        PushFront(key, entry.value);
        Evict();
      }
    }

    /** The branch of Put that overwrites the shared element and moves it to the front. */
    method Replace(key: string, entry: Entry)
      requires Consistent() && key in entries
      modifies this`lru, this`bytes, this`arena
      ensures Consistent()
      ensures View().lru == [Lru.Node(key, entry)] + Lru.Without(old(View().lru), key)
    {
      var el := entries[key];
      ghost var i := LinkedIndex(entries, lru, arena, key);
      Overwrite(entries, lru, arena, i, entry);
      var was := Size(arena[el].entry);
      bytes := bytes - was;
      arena := arena[el := arena[el].(entry := entry)];
      Move(entries, lru, arena, i);
      MoveToFront(el, i);
      var n := Size(entry);
      bytes := bytes + n;
    }

    method PushFront(key: string, entry: Entry)
      requires Consistent() && key !in entries
      modifies this`entries, this`lru, this`bytes, this`arena
      ensures Consistent()
      ensures View().lru == [Lru.Node(key, entry)] + old(View().lru)
    {
      var el: Element := Fresh(lru);
      LinkedWrite(entries, lru, arena, el, Lru.Node(key, entry));
      assert NodesOf(lru, arena[el := Lru.Node(key, entry)]) == NodesOf(lru, arena);
      arena := arena[el := Lru.Node(key, entry)];
      Link(entries, lru, arena, el);
      lru := [el] + lru;
      entries := entries[key := el];
      var n := Size(entry);
      bytes := bytes + n;
    }

    /** The eviction loop at the end of Put. */
    method Evict()
      requires Consistent()
      modifies this`entries, this`lru, this`bytes, this`evictions
      ensures Consistent()
      ensures View().lru == Lru.Capped(cfg, old(View().lru))
      ensures evictions == old(evictions) + |old(lru)| - |lru|
    {
      ghost var full := lru;
      while cfg.maxEntries > 0 && |lru| > cfg.maxEntries
        invariant Consistent()
        invariant lru <= full
        invariant |lru| < |full| ==> 0 < cfg.maxEntries <= |lru|
        invariant evictions == old(evictions) + |full| - |lru|
        decreases |lru|
      {
        var back := lru[|lru| - 1];
        PrefixSplice(full, |lru|);
        RemoveLocked(back, |lru| - 1);
        evictions := evictions + 1;
      }
    }

    method Delete(key: string)
      requires Valid()
      modifies this
      ensures Valid()
      ensures View() == Lru.Step(cfg, old(View()), Lru.Delete(key))
    {
      Lru.StepValid(cfg, View(), Lru.Delete(key));
      LinkedFacts(entries, lru, arena);
      Lru.WithoutFacts(View().lru, key);
      if key in entries {
        ghost var i := LinkedIndex(entries, lru, arena, key);
        RemoveLocked(entries[key], i);
      }
    }

    method Clear()
      requires Valid()
      modifies this
      ensures Valid() && View() == Lru.Step(cfg, old(View()), Lru.Clear)
    {
      entries, lru, bytes := map[], [], 0;
    }

    /** Entries, hits, misses, bytes used, evictions: the bytes are the sizes of what is resident. */
    method Stats() returns (n: nat, h: nat, m: nat, used: int, ev: nat)
      requires Valid()
      ensures n == |View().lru| == |entries| && used == TotalSize(View().lru)
      ensures h == View().hits && m == View().misses && ev == View().evictions
    {
      n, h, m, used, ev := |lru|, hits, misses, bytes, evictions;
      LinkedFacts(entries, lru, arena);
    }

    /** The Put loop of Seed. */
    method Seed(es: seq<Entry>) returns (n: nat)
      requires Valid()
      modifies this
      ensures Valid() && n == |es|
      ensures old(View()) == Lru.EMPTY ==> View() == Lru.Run(cfg, Lru.SeedOps(es))
      ensures old(View()) == Lru.EMPTY ==> Lru.SeededFrom(cfg, es, View().lru)
    {
      for i := 0 to |es|
        invariant Valid()
        invariant old(View()) == Lru.EMPTY ==> View() == Lru.Run(cfg, Lru.SeedOps(es[..i]))
      {
        assert es[..i + 1][..i] == es[..i];
        Lru.RunSnoc(cfg, Lru.SeedOps(es[..i]), Lru.Put(es[i].key, Some(es[i])));
        Put(es[i].key, Some(es[i]));
      }
      assert es[..|es|] == es;
      Lru.SeedLaw(cfg, es);
      return |es|;
    }
  }

  /** An address that no listed element has: the allocator never returns one in use. */
  function Fresh(lru: seq<Element>): (el: Element)
    ensures el !in lru
    ensures forall i :: 0 <= i < |lru| ==> lru[i] < el
  {
    if lru == [] then 0
    else
      var rest := Fresh(lru[1..]);
      if lru[0] < rest then rest else lru[0] + 1
  }
}
