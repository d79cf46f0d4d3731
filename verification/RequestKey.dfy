/** Cache keys: how a request is printed to a key, and exactly when two requests share one.
    Go compares strings bytewise; on UTF-8 text that is the code-point order used here. */
module RequestKey {
  import opened Base

  datatype Request = Request(verb: string, host: string, path: string, rawQuery: string)

  datatype Strategy = Exact | ExactWithHost | ExactWithBody

  /** KeyFuncFor: unknown names fall back to the exact strategy. */
  function StrategyFor(name: string): Strategy {
    if name == "exact_with_host" then ExactWithHost
    else if name == "exact_with_body" then ExactWithBody
    else Exact
  }

  function Name(s: Strategy): string {
    match s
    case Exact => "exact"
    case ExactWithHost => "exact_with_host"
    case ExactWithBody => "exact_with_body"
  }

  /** The three names select their strategies, and any other name the exact one. */
  lemma StrategyNames(s: Strategy, name: string)
    ensures StrategyFor(Name(s)) == s
    ensures name != Name(ExactWithHost) && name != Name(ExactWithBody) ==> StrategyFor(name) == Exact
  {
    assert "exact_with_host"[11] != "exact_with_body"[11] && |"exact"| == 5;
  }

  // ---------------------------------------------------------------- string order

  predicate Le(a: string, b: string) {
    a == [] || (b != [] && (a[0] < b[0] || (a[0] == b[0] && Le(a[1..], b[1..]))))
  }

  lemma {:induction false} LeTotal(a: string, b: string)
    ensures Le(a, b) || Le(b, a)
  {
    if a != [] && b != [] { LeTotal(a[1..], b[1..]); }
  }

  lemma {:induction false} LeAntisymmetric(a: string, b: string)
    requires Le(a, b) && Le(b, a)
    ensures a == b
  {
    if a != [] && b != [] {
      LeAntisymmetric(a[1..], b[1..]);
      assert a == [a[0]] + a[1..] && b == [b[0]] + b[1..];
    }
  }

  lemma {:induction false} LeTransitive(a: string, b: string, c: string)
    requires Le(a, b) && Le(b, c)
    ensures Le(a, c)
  {
    if a != [] && a[0] == b[0] == c[0] { LeTransitive(a[1..], b[1..], c[1..]); }
  }

  /** The order is lexicographic: a is a prefix of b, or smaller where they first differ. */
  lemma {:induction false} LeIsLexicographic(a: string, b: string)
    ensures Le(a, b) <==> a <= b || exists i :: 0 <= i < |a| && i < |b| && a[..i] == b[..i] && a[i] < b[i]
  {
    if a != [] && b != [] {
      LeIsLexicographic(a[1..], b[1..]);
      if a[0] == b[0] {
        assert a <= b <==> a[1..] <= b[1..] by {
          assert a == [a[0]] + a[1..] && b == [b[0]] + b[1..];
        }
        if i :| 0 <= i < |a| && i < |b| && a[..i] == b[..i] && a[i] < b[i] {
          assert i > 0 && a[1..][..i - 1] == a[..i][1..] && b[1..][..i - 1] == b[..i][1..];
          assert a[1..][i - 1] < b[1..][i - 1];
        }
        if i :| 0 <= i < |a[1..]| && i < |b[1..]| && a[1..][..i] == b[1..][..i] && a[1..][i] < b[1..][i] {
          assert a[..i + 1] == [a[0]] + a[1..][..i] && b[..i + 1] == [b[0]] + b[1..][..i];
          assert a[i + 1] < b[i + 1];
        }
      } else if a[0] < b[0] {
        assert a[..0] == b[..0];
      } else {
        assert forall i :: 0 < i < |a| && i < |b| && a[..i] == b[..i] ==> a[0] == a[..i][0] == b[..i][0];
      }
    }
  }

  // ---------------------------------------------------------------- the sort

  predicate Sorted(s: seq<string>) {
    |s| <= 1 || (Le(s[|s| - 2], s[|s| - 1]) && Sorted(s[..|s| - 1]))
  }

  /** Puts x after the last element that is not greater than it. */
  function Insert(s: seq<string>, x: string): (r: seq<string>)
    ensures |r| == |s| + 1
  {
    if s == [] || Le(s[|s| - 1], x) then s + [x]
    else Insert(s[..|s| - 1], x) + [s[|s| - 1]]
  }

  function Sort(s: seq<string>): (r: seq<string>)
    ensures |r| == |s|
  {
    if s == [] then [] else Insert(Sort(s[..|s| - 1]), s[|s| - 1])
  }

  lemma MultisetSnoc(s: seq<string>)
    requires s != []
    ensures multiset(s) == multiset(s[..|s| - 1]) + multiset{s[|s| - 1]}
    ensures multiset(s[..|s| - 1]) == multiset(s) - multiset{s[|s| - 1]}
  {
    assert s == s[..|s| - 1] + [s[|s| - 1]];
  }

  lemma {:induction false} InsertPermutes(s: seq<string>, x: string)
    ensures multiset(Insert(s, x)) == multiset(s) + multiset{x}
  {
    if s != [] && !Le(s[|s| - 1], x) {
      InsertPermutes(s[..|s| - 1], x);
      MultisetSnoc(s);
    }
  }

  lemma {:induction false} InsertSorts(s: seq<string>, x: string)
    requires Sorted(s)
    ensures Sorted(Insert(s, x))
    ensures Insert(s, x)[|s|] == x || (s != [] && Insert(s, x)[|s|] == s[|s| - 1])
  {
    if s != [] && !Le(s[|s| - 1], x) {
      var init, last := s[..|s| - 1], s[|s| - 1];
      InsertSorts(init, x);
      LeTotal(last, x);
      assert Insert(s, x)[..|s|] == Insert(init, x);
    } else {
      assert (s + [x])[..|s|] == s;
    }
  }

  lemma {:induction false} SortFacts(s: seq<string>)
    ensures Sorted(Sort(s)) && multiset(Sort(s)) == multiset(s)
  {
    if s != [] {
      SortFacts(s[..|s| - 1]);
      InsertPermutes(Sort(s[..|s| - 1]), s[|s| - 1]);
      InsertSorts(Sort(s[..|s| - 1]), s[|s| - 1]);
      MultisetSnoc(s);
    }
  }

  lemma {:induction false} LastIsGreatest(s: seq<string>, x: string)
    requires Sorted(s) && x in s
    ensures Le(x, s[|s| - 1])
  {
    var init, last := s[..|s| - 1], s[|s| - 1];
    assert s == init + [last];
    if x == last {
      LeTotal(x, x);
    } else {
      LastIsGreatest(init, x);
      LeTransitive(x, s[|s| - 2], last);
    }
  }

  lemma SameLast(s: seq<string>, t: seq<string>)
    requires Sorted(s) && Sorted(t) && multiset(s) == multiset(t) && s != [] && t != []
    ensures s[|s| - 1] == t[|t| - 1]
  {
    var a, b := s[|s| - 1], t[|t| - 1];
    assert a in multiset(t) && b in multiset(s);
    LastIsGreatest(t, a);
    LastIsGreatest(s, b);
    LeAntisymmetric(a, b);
  }

  /** Two sorted lists of the same strings are the same list. */
  lemma {:induction false} SortedUnique(s: seq<string>, t: seq<string>)
    requires Sorted(s) && Sorted(t) && multiset(s) == multiset(t)
    ensures s == t
  {
    assert |s| == |multiset(s)| && |t| == |multiset(t)|;
    if s != [] {
      SameLast(s, t);
      var s', t' := s[..|s| - 1], t[..|t| - 1];
      assert multiset(s') == multiset(t') by { MultisetSnoc(s); MultisetSnoc(t); }
      SortedUnique(s', t');
      assert s == s' + [s[|s| - 1]] && t == t' + [t[|t| - 1]];
    }
  }

  /** sortStrings: insertion sort by adjacent swaps, in place. */
  method SortStrings(a: array<string>)
    modifies a
    ensures a[..] == Sort(old(a[..]))
  {
    ghost var before := a[..];
    var i := 0;
    if a.Length > 0 {
      i := 1;
      assert before[..1][..0] == [];
      assert Sort(before[..1]) == before[..1];
    }
    while i < a.Length
      invariant 0 <= i <= a.Length
      invariant a[..i] == Sort(before[..i]) && a[i..] == before[i..]
    {
      InsertInto(a, i);
      assert before[..i + 1][..i] == before[..i];
      i := i + 1;
      assert a[i..] == before[i..];
    }
    assert before[..a.Length] == before && a[..a.Length] == a[..];
  }

  lemma SwapDown(p: seq<string>, x: string, j: nat)
    requires 0 < j <= |p|
    ensures (p[..j] + [x] + p[j..])[j - 1 := x][j := p[j - 1]] == p[..j - 1] + [x] + p[j - 1..]
    ensures !Le(p[j - 1], x) ==> Insert(p[..j], x) + p[j..] == Insert(p[..j - 1], x) + p[j - 1..]
  {
    assert p[..j][..j - 1] == p[..j - 1] && p[j - 1..] == [p[j - 1]] + p[j..];
  }

  /** The inner loop: a[i] sinks into the sorted prefix a[..i]. */
  method InsertInto(a: array<string>, i: nat)
    requires i < a.Length
    modifies a
    ensures a[..i + 1] == Insert(old(a[..i]), old(a[i]))
    ensures a[i + 1..] == old(a[i + 1..])
  {
    ghost var p, x := a[..i], a[i];
    var j := i;
    assert p[..i] == p;
    while j > 0 && !Le(a[j - 1], a[j])
      invariant 0 <= j <= i
      invariant a[..i + 1] == p[..j] + [x] + p[j..]
      invariant a[i + 1..] == old(a[i + 1..])
      invariant Insert(p, x) == Insert(p[..j], x) + p[j..]
    {
      assert a[j] == a[..i + 1][j] && a[j - 1] == a[..i + 1][j - 1];
      ghost var was := a[..i + 1];
      SwapDown(p, x, j);
      a[j - 1], a[j] := a[j], a[j - 1];
      assert a[..i + 1] == was[j - 1 := x][j := p[j - 1]];
      j := j - 1;
    }
    assert a[j] == a[..i + 1][j] && (j > 0 ==> a[j - 1] == a[..i + 1][j - 1]);
    assert j > 0 ==> p[..j][j - 1] == p[j - 1];
  }

  // ---------------------------------------------------------------- split and join

  function Split(s: string): (parts: seq<string>)
    ensures |parts| > 0
  {
    if s == [] then [[]]
    else if s[0] == '&' then [[]] + Split(s[1..])
    else
      var rest := Split(s[1..]);
      [[s[0]] + rest[0]] + rest[1..]
  }

  function Join(parts: seq<string>): string
    requires |parts| > 0
  {
    if |parts| == 1 then parts[0] else parts[0] + "&" + Join(parts[1..])
  }

  ghost predicate AmpersandFree(parts: seq<string>) {
    forall p :: p in parts ==> '&' !in p
  }

  lemma {:induction false} JoinSplit(s: string)
    ensures Join(Split(s)) == s
  {
    if s != [] {
      var rest := Split(s[1..]);
      JoinSplit(s[1..]);
      if s[0] == '&' {
        assert ([[]] + rest)[1..] == rest;
      } else {
        var parts := [[s[0]] + rest[0]] + rest[1..];
        assert parts[1..] == rest[1..];
        assert Join(parts) == [s[0]] + Join(rest);
      }
    }
  }

  lemma {:induction false} SplitParts(s: string)
    ensures AmpersandFree(Split(s))
    ensures '&' !in s ==> Split(s) == [s]
  {
    if s != [] {
      var rest := Split(s[1..]);
      SplitParts(s[1..]);
      assert rest[0] in rest;
      assert forall p :: p in rest[1..] ==> p in rest;
      assert s == [s[0]] + s[1..];
    }
  }

  lemma {:induction false} SplitPrefix(p: string, s: string)
    requires '&' !in p
    ensures Split(p + "&" + s) == [p] + Split(s)
  {
    var t := p + "&" + s;
    if p == [] {
      assert t[1..] == s;
    } else {
      SplitPrefix(p[1..], s);
      assert t[1..] == p[1..] + "&" + s && p == [p[0]] + p[1..];
      assert ([p[1..]] + Split(s))[1..] == Split(s);
    }
  }

  lemma {:induction false} SplitJoin(parts: seq<string>)
    requires |parts| > 0 && AmpersandFree(parts)
    ensures Split(Join(parts)) == parts
  {
    assert parts[0] in parts;
    if |parts| == 1 {
      SplitParts(parts[0]);
    } else {
      SplitJoin(parts[1..]);
      SplitPrefix(parts[0], Join(parts[1..]));
      assert parts == [parts[0]] + parts[1..];
    }
  }

  // ---------------------------------------------------------------- queries

  function Normalized(raw: string): string {
    Join(Sort(Split(raw)))
  }

  method NormalizeQuery(raw: string) returns (r: string)
    ensures r == Normalized(raw)
  {
    SplitParts(raw);
    if '&' !in raw {
      assert Sort([raw]) == Insert(Sort([raw][..0]), raw) == [raw];
      return raw;
    }
    var parts := Split(raw);
    var a := new string[|parts|](i requires 0 <= i < |parts| => parts[i]);
    assert a[..] == parts;
    SortStrings(a);
    r := Join(a[..]);
  }

  /** Two raw queries normalize alike exactly when they hold the same parameters as often. */
  lemma QueryCanonical(a: string, b: string)
    ensures Normalized(a) == Normalized(b) <==> multiset(Split(a)) == multiset(Split(b))
    ensures Normalized(a) == "" <==> a == ""
  {
    var p, q := Sort(Split(a)), Sort(Split(b));
    SortFacts(Split(a));
    SortFacts(Split(b));
    SplitParts(a);
    SplitParts(b);
    JoinSplit(a);
    assert AmpersandFree(p) by { assert forall x :: x in p ==> x in multiset(p); }
    assert AmpersandFree(q) by { assert forall x :: x in q ==> x in multiset(q); }
    SplitJoin(p);
    SplitJoin(q);
    if multiset(Split(a)) == multiset(Split(b)) {
      SortedUnique(p, q);
    }
    if Join(p) == "" {
      assert p == [""] && |Split(a)| == 1;
      assert Split(a)[0] in multiset(p);
    }
    assert a == "" ==> p == Insert(Sort(Split(a)[..0]), "") == [""];
  }

  function QueryPart(raw: string): string {
    if raw == "" then "" else "?" + Normalized(raw)
  }

  // ---------------------------------------------------------------- keys

  function Hex(n: nat): string {
    (if n < 16 then [] else Hex(n / 16)) + ["0123456789abcdef"[n % 16]]
  }

  lemma {:induction false} HexFacts(n: nat)
    ensures '|' !in Hex(n) && |Hex(n)| > 0
  {
    if n >= 16 { HexFacts(n / 16); }
  }

  lemma DigitInjective(i: nat, j: nat)
    requires i < 16 && j < 16 && "0123456789abcdef"[i] == "0123456789abcdef"[j]
    ensures i == j
  {
  }

  lemma {:induction false} HexInjective(m: nat, n: nat)
    requires Hex(m) == Hex(n)
    ensures m == n
  {
    var a := if m < 16 then [] else Hex(m / 16);
    var b := if n < 16 then [] else Hex(n / 16);
    assert Hex(m)[..|Hex(m)| - 1] == a && Hex(n)[..|Hex(n)| - 1] == b;
    DigitInjective(m % 16, n % 16);
    if m >= 16 { HexFacts(m / 16); }
    if n >= 16 { HexFacts(n / 16); }
    if m >= 16 && n >= 16 { HexInjective(m / 16, n / 16); }
  }

  function AfterHost(s: Strategy, sum64: seq<byte> -> nat, r: Request, body: seq<byte>): string {
    r.path + QueryPart(r.rawQuery) + if s.ExactWithBody? then "|" + Hex(sum64(body)) else ""
  }

  function AfterVerb(s: Strategy, sum64: seq<byte> -> nat, r: Request, body: seq<byte>): string {
    (if s.Exact? then "" else r.host + "|") + AfterHost(s, sum64, r, body)
  }

  /** The text of a key, strategy:verb|[host|]path[?query][|hash].  sum64 is the 64-bit body hash. */
  function KeyOf(s: Strategy, sum64: seq<byte> -> nat, r: Request, body: seq<byte>): string {
    Name(s) + ":" + (r.verb + "|" + AfterVerb(s, sum64, r, body))
  }

  lemma Assoc(a: string, b: string, c: string)
    ensures a + b + c == a + (b + c)
  {
  }

  /** The three key functions write their parts to a builder one after the other. */
  method DeriveKey(s: Strategy, sum64: seq<byte> -> nat, r: Request, body: seq<byte>) returns (key: string)
    ensures key == KeyOf(s, sum64, r, body)
  {
    var b := Name(s) + ":";
    ghost var name := b;
    b := b + r.verb;
    b := b + "|";
    if !s.Exact? {
      b := b + r.host;
      b := b + "|";
    }
    ghost var host := if s.Exact? then "" else r.host + "|";
    assert b == name + (r.verb + "|") + host;
    ghost var head := b;
    b := b + r.path;
    b := WriteQueryPart(b, r.rawQuery);
    ghost var hash := if s.ExactWithBody? then "|" + Hex(sum64(body)) else "";
    if s.ExactWithBody? {
      b := b + "|";
      b := b + Hex(sum64(body));
    }
    key := b;
    assert key == head + r.path + QueryPart(r.rawQuery) + hash;
    Assoc(head, r.path, QueryPart(r.rawQuery));
    Assoc(head, r.path + QueryPart(r.rawQuery), hash);
    Assoc(name + (r.verb + "|"), host, AfterHost(s, sum64, r, body));
    Assoc(name, r.verb + "|", AfterVerb(s, sum64, r, body));
  }

  method WriteQueryPart(b: string, raw: string) returns (r: string)
    ensures r == b + QueryPart(raw)
  {
    if raw == "" {
      return b;
    }
    var q := NormalizeQuery(raw);
    r := b + "?" + q;
  }

  /** No bar in the parts that a bar ends. */
  predicate BarFree(s: Strategy, r: Request) {
    '|' !in r.verb && (s.Exact? || '|' !in r.host)
  }

  /** The delimiters a key relies on do not occur in the parts before them. */
  predicate Delimited(s: Strategy, r: Request) {
    BarFree(s, r) && '?' !in r.path
  }

  /** The same request, as far as the strategy looks: parameters in any order. */
  ghost predicate Equivalent(s: Strategy, sum64: seq<byte> -> nat,
                             r1: Request, b1: seq<byte>, r2: Request, b2: seq<byte>) {
    && r1.verb == r2.verb
    && (s.Exact? || r1.host == r2.host)
    && r1.path == r2.path
    && multiset(Split(r1.rawQuery)) == multiset(Split(r2.rawQuery))
    && (s.ExactWithBody? ==> sum64(b1) == sum64(b2))
  }

  lemma {:induction false} CutFirst(c: char, a1: string, b1: string, a2: string, b2: string)
    requires c !in a1 && c !in a2 && a1 + [c] + b1 == a2 + [c] + b2
    ensures a1 == a2 && b1 == b2
  {
    var t, u := a1 + [c] + b1, a2 + [c] + b2;
    assert t[0] == (if a1 == [] then c else a1[0]) && u[0] == (if a2 == [] then c else a2[0]);
    if a1 == [] {
      assert t[1..] == b1 && u[1..] == b2;
    } else {
      assert t[1..] == a1[1..] + [c] + b1 && u[1..] == a2[1..] + [c] + b2;
      CutFirst(c, a1[1..], b1, a2[1..], b2);
      assert a1 == [a1[0]] + a1[1..] && a2 == [a2[0]] + a2[1..];
    }
  }

  lemma {:induction false} CutLast(c: char, a1: string, b1: string, a2: string, b2: string)
    requires c !in b1 && c !in b2 && a1 + [c] + b1 == a2 + [c] + b2
    ensures a1 == a2 && b1 == b2
    decreases |b1|
  {
    var t, u := a1 + [c] + b1, a2 + [c] + b2;
    var n, i, j := |t| - 1, |b1| - 1, |b2| - 1;
    assert t[n] == (if b1 == [] then c else b1[i]) && u[n] == (if b2 == [] then c else b2[j]);
    if b1 == [] {
      assert t[..n] == a1 && u[..n] == a2;
    } else {
      assert t[..n] == a1 + [c] + b1[..i] && u[..n] == a2 + [c] + b2[..j];
      CutLast(c, a1, b1[..i], a2, b2[..j]);
      assert b1 == b1[..i] + [b1[i]] && b2 == b2[..j] + [b2[j]];
    }
  }

  lemma HasQuery(p: string, q: string)
    requires '?' !in p
    ensures '?' in p + QueryPart(q) <==> q != ""
    ensures p + QueryPart(q) == if q == "" then p else p + ['?'] + Normalized(q)
  {
  }

  lemma TargetInjective(p1: string, q1: string, p2: string, q2: string)
    requires '?' !in p1 && '?' !in p2 && p1 + QueryPart(q1) == p2 + QueryPart(q2)
    ensures p1 == p2 && QueryPart(q1) == QueryPart(q2)
  {
    HasQuery(p1, q1);
    HasQuery(p2, q2);
    if q1 != "" {
      CutFirst('?', p1, Normalized(q1), p2, Normalized(q2));
    }
  }

  /** Equivalent requests always share a key, whatever characters they hold. */
  lemma EquivalentShareKey(s: Strategy, sum64: seq<byte> -> nat, r1: Request, b1: seq<byte>, r2: Request, b2: seq<byte>)
    requires Equivalent(s, sum64, r1, b1, r2, b2)
    ensures KeyOf(s, sum64, r1, b1) == KeyOf(s, sum64, r2, b2)
  {
    QueryCanonical(r1.rawQuery, r2.rawQuery);
    QueryCanonical(r2.rawQuery, r1.rawQuery);
  }

  /** Among delimited requests a key is shared by equivalent ones only. */
  lemma KeyCanonical(s: Strategy, sum64: seq<byte> -> nat, r1: Request, b1: seq<byte>, r2: Request, b2: seq<byte>)
    requires Delimited(s, r1) && Delimited(s, r2)
    ensures KeyOf(s, sum64, r1, b1) == KeyOf(s, sum64, r2, b2) <==> Equivalent(s, sum64, r1, b1, r2, b2)
  {
    if Equivalent(s, sum64, r1, b1, r2, b2) {
      EquivalentShareKey(s, sum64, r1, b1, r2, b2);
    }
    if KeyOf(s, sum64, r1, b1) == KeyOf(s, sum64, r2, b2) {
      KeyParts(s, sum64, r1, b1, r2, b2);
      TargetInjective(r1.path, r1.rawQuery, r2.path, r2.rawQuery);
      QueryPartCanonical(r1.rawQuery, r2.rawQuery);
    }
  }

  lemma QueryPartCanonical(a: string, b: string)
    requires QueryPart(a) == QueryPart(b)
    ensures multiset(Split(a)) == multiset(Split(b))
  {
    QueryCanonical(a, b);
    assert a != "" ==> QueryPart(a)[1..] == Normalized(a);
    assert b != "" ==> QueryPart(b)[1..] == Normalized(b);
  }

  /** Exactly when a shared key misleads, for any paths: two requests with one key are equivalent iff
      their paths are equally long; otherwise the longer path holds a '?' where the shorter ends. */
  lemma CollisionExact(s: Strategy, sum64: seq<byte> -> nat, r1: Request, b1: seq<byte>, r2: Request, b2: seq<byte>)
    requires BarFree(s, r1) && BarFree(s, r2) && |r1.path| <= |r2.path|
    requires KeyOf(s, sum64, r1, b1) == KeyOf(s, sum64, r2, b2)
    ensures Equivalent(s, sum64, r1, b1, r2, b2) <==> |r1.path| == |r2.path|
    ensures |r1.path| < |r2.path| ==>
              r1.path < r2.path && r2.path[|r1.path|] == '?' && r1.rawQuery != ""
  {
    KeyParts(s, sum64, r1, b1, r2, b2);
    var n := |r1.path|;
    var t, u := r1.path + QueryPart(r1.rawQuery), r2.path + QueryPart(r2.rawQuery);
    assert r1.path == t[..n] == u[..n] == r2.path[..n];
    if n == |r2.path| {
      assert QueryPart(r1.rawQuery) == t[n..] == u[n..] == QueryPart(r2.rawQuery);
      QueryPartCanonical(r1.rawQuery, r2.rawQuery);
    } else {
      assert t[n] == u[n] == r2.path[n];
      assert |QueryPart(r1.rawQuery)| > 0 && t[n] == QueryPart(r1.rawQuery)[0];
    }
  }

  /** Equal keys agree on verb, host, request target and body hash. */
  lemma KeyParts(s: Strategy, sum64: seq<byte> -> nat, r1: Request, b1: seq<byte>, r2: Request, b2: seq<byte>)
    requires BarFree(s, r1) && BarFree(s, r2)
    requires KeyOf(s, sum64, r1, b1) == KeyOf(s, sum64, r2, b2)
    ensures r1.verb == r2.verb && (s.Exact? || r1.host == r2.host)
    ensures r1.path + QueryPart(r1.rawQuery) == r2.path + QueryPart(r2.rawQuery)
    ensures s.ExactWithBody? ==> sum64(b1) == sum64(b2)
  {
    KeyAfterName(s, sum64, r1, b1);
    KeyAfterName(s, sum64, r2, b2);
    CutFirst('|', r1.verb, AfterVerb(s, sum64, r1, b1), r2.verb, AfterVerb(s, sum64, r2, b2));
    var t1, t2 := AfterHost(s, sum64, r1, b1), AfterHost(s, sum64, r2, b2);
    if s.Exact? {
      assert AfterVerb(s, sum64, r1, b1) == t1 && AfterVerb(s, sum64, r2, b2) == t2;
    } else {
      assert AfterVerb(s, sum64, r1, b1) == r1.host + ['|'] + t1;
      assert AfterVerb(s, sum64, r2, b2) == r2.host + ['|'] + t2;
      CutFirst('|', r1.host, t1, r2.host, t2);
    }
    HashCut(s, sum64, r1, b1, r2, b2);
  }

  lemma KeyAfterName(s: Strategy, sum64: seq<byte> -> nat, r: Request, body: seq<byte>)
    ensures KeyOf(s, sum64, r, body)[|Name(s)| + 1..] == r.verb + ['|'] + AfterVerb(s, sum64, r, body)
  {
  }

  lemma HashCut(s: Strategy, sum64: seq<byte> -> nat, r1: Request, b1: seq<byte>, r2: Request, b2: seq<byte>)
    requires AfterHost(s, sum64, r1, b1) == AfterHost(s, sum64, r2, b2)
    ensures r1.path + QueryPart(r1.rawQuery) == r2.path + QueryPart(r2.rawQuery)
    ensures s.ExactWithBody? ==> sum64(b1) == sum64(b2)
  {
    var p1, p2 := r1.path + QueryPart(r1.rawQuery), r2.path + QueryPart(r2.rawQuery);
    if !s.ExactWithBody? {
      assert AfterHost(s, sum64, r1, b1) == p1 && AfterHost(s, sum64, r2, b2) == p2;
    } else {
      HexFacts(sum64(b1));
      HexFacts(sum64(b2));
      assert AfterHost(s, sum64, r1, b1) == p1 + ['|'] + Hex(sum64(b1));
      assert AfterHost(s, sum64, r2, b2) == p2 + ['|'] + Hex(sum64(b2));
      CutLast('|', p1, Hex(sum64(b1)), p2, Hex(sum64(b2)));
      HexInjective(sum64(b1), sum64(b2));
    }
  }

  function HexDigit(c: char): int {
    if '0' <= c <= '9' then c as int - '0' as int else c as int - 'a' as int + 10
  }

  function HexValue(s: string): int {
    if s == [] then 0 else 16 * HexValue(s[..|s| - 1]) + HexDigit(s[|s| - 1])
  }

  /** The printed hash reads back as the hash. */
  lemma {:induction false} HexRoundTrip(n: nat)
    ensures HexValue(Hex(n)) == n && (n > 0 ==> Hex(n)[0] != '0')
  {
    var high := if n < 16 then [] else Hex(n / 16);
    assert Hex(n)[..|high|] == high && Hex(n)[|high|] == "0123456789abcdef"[n % 16];
    HexDigitValue(n % 16);
    if n >= 16 {
      HexRoundTrip(n / 16);
      HexFacts(n / 16);
    }
  }

  lemma HexDigitValue(d: nat)
    requires d < 16
    ensures HexDigit("0123456789abcdef"[d]) == d && (d > 0 ==> "0123456789abcdef"[d] != '0')
  {
  }

  lemma SortedPair(x: char, y: char)
    requires x < y && x != '&' && y != '&'
    ensures Normalized([y] + "&" + [x]) == [x] + "&" + [y]
  {
    SplitPrefix([y], [x]);
    SplitParts([x]);
    var a, b := [x], [y];
    var parts, one := [b, a], [b];
    assert [b] + [a] == parts && Split([y] + "&" + [x]) == parts;
    assert parts[..1] == one && one[..0] == [];
    assert Sort(one) == Insert([], b) == [b];
    assert !Le(b, a);
    assert Insert(one, a) == Insert([], a) + [b] == [a, b];
    assert Sort(parts) == Insert(Sort(parts[..1]), parts[1]) == [a, b];
    assert [a, b][1..] == [b] && Join([b]) == b;
  }

  /** The text of a key from left to right: strategy:verb|host|path?query|hash, the host and the hash only
      where the strategy looks at them, the query only if there is one. */
  lemma KeyText(s: Strategy, sum64: seq<byte> -> nat, r: Request, body: seq<byte>)
    ensures var host := if s == Exact then "" else r.host + "|";
            var query := if r.rawQuery == "" then "" else "?" + Normalized(r.rawQuery);
            var hash := if s == ExactWithBody then "|" + Hex(sum64(body)) else "";
            KeyOf(s, sum64, r, body) == Name(s) + ":" + (r.verb + "|" + (host + (r.path + query + hash)))
    ensures Name(Exact) == "exact" && Name(ExactWithHost) == "exact_with_host"
            && Name(ExactWithBody) == "exact_with_body"
  {
  }

  lemma KeyAfterHost(s: Strategy, sum64: seq<byte> -> nat, r: Request, body: seq<byte>)
    ensures var n := |Name(s)| + |r.verb| + 2 + if s.Exact? then 0 else |r.host| + 1;
            n <= |KeyOf(s, sum64, r, body)| && KeyOf(s, sum64, r, body)[n..] == AfterHost(s, sum64, r, body)
  {
    var host := if s.Exact? then "" else r.host + "|";
    assert KeyOf(s, sum64, r, body)
           == (Name(s) + ":" + r.verb + "|" + host) + AfterHost(s, sum64, r, body);
  }

  /** Whatever characters a request holds, its keys with two bodies agree exactly when the hashes do. */
  lemma SameRequestKeys(sum64: seq<byte> -> nat, r: Request, b1: seq<byte>, b2: seq<byte>)
    ensures KeyOf(ExactWithBody, sum64, r, b1) == KeyOf(ExactWithBody, sum64, r, b2) <==> sum64(b1) == sum64(b2)
  {
    if KeyOf(ExactWithBody, sum64, r, b1) == KeyOf(ExactWithBody, sum64, r, b2) {
      KeyAfterHost(ExactWithBody, sum64, r, b1);
      KeyAfterHost(ExactWithBody, sum64, r, b2);
      HashCut(ExactWithBody, sum64, r, b1, r, b2);
    }
  }

  /** The side condition is needed: a decoded path may hold a '?', and then keys collide. */
  lemma DecodedQuestionMarkCollides(sum64: seq<byte> -> nat)
    ensures var r1, r2 := Request("GET", "h", "/a?x", ""), Request("GET", "h", "/a", "x");
            && KeyOf(Exact, sum64, r1, []) == KeyOf(Exact, sum64, r2, [])
            && !Equivalent(Exact, sum64, r1, [], r2, [])
  {
  }

  /** Keys written under different strategies never collide in a shared store. */
  lemma StrategiesDisjoint(s: Strategy, t: Strategy, sum64: seq<byte> -> nat,
                         r1: Request, b1: seq<byte>, r2: Request, b2: seq<byte>)
    requires s != t
    ensures KeyOf(s, sum64, r1, b1) != KeyOf(t, sum64, r2, b2)
  {
    var n1, n2 := Name(s) + ":", Name(t) + ":";
    var i := if s.Exact? || t.Exact? then 5 else 11;
    assert n1[i] != n2[i];
    assert KeyOf(s, sum64, r1, b1)[i] == n1[i] && KeyOf(t, sum64, r2, b2)[i] == n2[i];
  }
}
