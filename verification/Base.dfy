/** Values shared by the cache-box modules: cached responses and their sizes. */
module Base {
  datatype Option<+T> = None | Some(value: T)

  newtype byte = x: int | 0 <= x < 256

  type Header = map<string, seq<string>>

  /** One cached response.  Times and latencies are nanoseconds.  A Go nil header is None. */
  datatype Entry = Entry(
    key: string,
    statusCode: int,
    header: Option<Header>,
    body: seq<byte>,
    observedLatency: int,
    recordedAt: int)

  const MAX_INT64: int := 0x7FFF_FFFF_FFFF_FFFF
  const TWO_64: int := 0x1_0000_0000_0000_0000

  predicate InInt64(x: int) { -MAX_INT64 - 1 <= x <= MAX_INT64 }

  /** Two's-complement reduction of a mathematical integer to a Go int64. */
  function Wrap64(x: int): int {
    (x + MAX_INT64 + 1) % TWO_64 - MAX_INT64 - 1
  }

  /** Wrapping lands in range, moves exactly the integers outside it, and moves by multiples of 2^64. */
  lemma WrapInRange(x: int)
    ensures InInt64(Wrap64(x))
    ensures Wrap64(x) == x <==> InInt64(x)
    ensures (x - Wrap64(x)) % TWO_64 == 0
  {
  }

  lemma LeMul(t: int, x: int, y: int)
    requires t >= 0 && x <= y
    ensures t * x <= t * y
  {
  }

  /** Go's integer division, which truncates toward zero. */
  function TruncDiv(x: int, d: int): int
    requires d > 0
  {
    if x >= 0 then x / d else -((-x) / d)
  }

  /** The quotient whose remainder is shorter than the divisor and has the sign of the dividend. */
  lemma TruncDivLaw(x: int, d: int, q: int)
    requires d > 0
    ensures q == TruncDiv(x, d) <==> if x >= 0 then 0 <= x - q * d < d else -d < x - q * d <= 0
  {
    var t := TruncDiv(x, d);
    assert if x >= 0 then 0 <= x - t * d < d else -d < x - t * d <= 0;
    if q < t { LeMul(d, q, t - 1); } else if q > t { LeMul(d, t + 1, q); }
  }

  // ---------------------------------------------------------------- sizes

  /** Bytes of one character in UTF-8 (section 3 of RFC 3629). */
  function Width(c: char): nat {
    if c as int < 0x80 then 1 else if c as int < 0x800 then 2 else if c as int < 0x1_0000 then 3 else 4
  }

  /** The shortest form that holds the character: forms of 1 to 4 bytes hold 7, 11, 16 and 21 bits. */
  lemma WidthLaw(c: char)
    ensures var bits := [0, 7, 11, 16, 21];
            && 1 <= Width(c) <= 4 && c as int < Pow2(bits[Width(c)])
            && (Width(c) > 1 ==> Pow2(bits[Width(c) - 1]) <= c as int)
  {
    assert Pow2(7) == 0x80 && Pow2(11) == 0x800 by { Pow2Add(7, 4); }
    Pow2Add(11, 5);
    Pow2Add(16, 5);
    assert Pow2(4) == 16 && Pow2(5) == 32;
  }

  function Pow2(n: nat): nat { if n == 0 then 1 else 2 * Pow2(n - 1) }

  lemma {:induction false} Pow2Add(m: nat, n: nat)
    ensures Pow2(m + n) == Pow2(m) * Pow2(n)
  {
    if n > 0 { Pow2Add(m, n - 1); }
  }

  /** Go's len of a string. */
  function ByteLen(s: string): nat {
    if s == [] then 0 else Width(s[0]) + ByteLen(s[1..])
  }

  lemma {:induction false} ByteLenConcat(a: string, b: string)
    ensures ByteLen(a + b) == ByteLen(a) + ByteLen(b)
  {
    if a == [] {
      assert a + b == b;
    } else {
      ByteLenConcat(a[1..], b);
      assert (a + b)[1..] == a[1..] + b;
    }
  }

  /** A string of ASCII characters has as many bytes as characters, and no string has fewer. */
  lemma {:induction false} ByteLenBounds(s: string)
    ensures |s| <= ByteLen(s) <= 4 * |s|
    ensures ByteLen(s) == |s| <==> forall i :: 0 <= i < |s| ==> s[i] as int < 0x80
  {
    if s != [] {
      var rest := s[1..];
      ByteLenBounds(rest);
      assert forall i :: 0 <= i < |rest| ==> rest[i] == s[i + 1];
      assert forall i :: 0 < i < |s| ==> s[i] == rest[i - 1];
    }
  }

  function TextBytes(vs: seq<string>): nat {
    if vs == [] then 0 else ByteLen(vs[0]) + TextBytes(vs[1..])
  }

  ghost function HeaderBytes(h: Header): nat {
    if h == map[] then 0
    else
      var k :| k in h;
      ByteLen(k) + TextBytes(h[k]) + HeaderBytes(h - {k})
  }

  /** Any key may be counted first: the sum does not depend on map iteration order. */
  lemma {:induction false} HeaderBytesAnyOrder(h: Header, k: string)
    requires k in h
    ensures HeaderBytes(h) == ByteLen(k) + TextBytes(h[k]) + HeaderBytes(h - {k})
    decreases |h|
  {
    var p :| p in h && HeaderBytes(h) == ByteLen(p) + TextBytes(h[p]) + HeaderBytes(h - {p});
    if p != k {
      HeaderBytesAnyOrder(h - {p}, k);
      HeaderBytesAnyOrder(h - {k}, p);
      assert h - {p} - {k} == h - {k} - {p};
    }
  }

  ghost function EntrySize(e: Entry): nat {
    |e.body| + ByteLen(e.key) + if e.header.Some? then HeaderBytes(e.header.value) else 0
  }

  /** What each part of an entry adds: its body and its key their bytes, a header key its own bytes and
      those of its values, whatever else the entry holds. */
  lemma SizeAdds(e: Entry, b: byte, text: string, k: string, vs: seq<string>)
    requires e.header.Some? && k !in e.header.value
    ensures EntrySize(e.(body := e.body + [b])) == EntrySize(e) + 1
    ensures EntrySize(e.(key := e.key + text)) == EntrySize(e) + ByteLen(text)
    ensures EntrySize(e.(header := Some(e.header.value[k := vs]))) == EntrySize(e) + ByteLen(k) + TextBytes(vs)
    ensures EntrySize(e.(header := Some(e.header.value[k := vs + [text]])))
            == EntrySize(e.(header := Some(e.header.value[k := vs]))) + ByteLen(text)
  {
    ByteLenConcat(e.key, text);
    HeaderAdds(e.header.value, k, vs);
    HeaderAdds(e.header.value, k, vs + [text]);
    TextSnoc(vs, text);
  }

  /** And there is nothing else in it. */
  lemma EmptySize(status: int, latency: int, at: int)
    ensures EntrySize(Entry("", status, None, [], latency, at)) == 0
    ensures EntrySize(Entry("", status, Some(map[]), [], latency, at)) == 0
  {
  }

  lemma HeaderAdds(h: Header, k: string, vs: seq<string>)
    requires k !in h
    ensures HeaderBytes(h[k := vs]) == HeaderBytes(h) + ByteLen(k) + TextBytes(vs)
  {
    HeaderBytesAnyOrder(h[k := vs], k);
    assert h[k := vs] - {k} == h;
  }

  lemma {:induction false} TextSnoc(vs: seq<string>, text: string)
    ensures TextBytes(vs + [text]) == TextBytes(vs) + ByteLen(text)
  {
    if vs == [] {
      assert vs + [text] == [text] && [text][1..] == [];
    } else {
      TextSnoc(vs[1..], text);
      assert (vs + [text])[1..] == vs[1..] + [text];
    }
  }

  /** Entry.Size: ranges over the header map in whatever order the map gives its keys. */
  method Size(e: Entry) returns (n: nat)
    ensures n == EntrySize(e)
  {
    n := |e.body| + ByteLen(e.key);
    if e.header.Some? {
      var rest := e.header.value;
      while rest != map[]
        invariant n + HeaderBytes(rest) == EntrySize(e)
        decreases |rest|
      {
        var k :| k in rest;
        HeaderBytesAnyOrder(rest, k);
        n := n + ByteLen(k);
        var vs := rest[k];
        for i := 0 to |vs|
          invariant n + TextBytes(vs[i..]) + HeaderBytes(rest - {k}) == EntrySize(e)
        {
          n := n + ByteLen(vs[i]);
        }
        rest := rest - {k};
      }
    }
  }
}
