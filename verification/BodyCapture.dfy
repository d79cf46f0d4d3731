/** Peeking at request and response bodies up to a cap, and handing on a reader that still yields
    every byte; and what a read error on the way loses. */
module BodyCapture {
  import opened Base

  /** What the environment makes of one read of the connection: at most n bytes, the end of file reported
      together with the last bytes or only on the next call; or at most n bytes and an error. */
  datatype ReadEvent = Short(n: nat, eofWithData: bool) | Broken(n: nat)

  /** A body as a value: bytes already peeked (the first part of a MultiReader, or a bytes.Reader),
      what the connection still delivers, and how its reads will go.  Once the script is used up
      reads deliver what they are asked for. */
  datatype Stream = Stream(buffered: seq<byte>, rest: seq<byte>, script: seq<ReadEvent>) {
    function Contents(): seq<byte> { buffered + rest }
  }

  /** No body at all. */
  const NO_BODY := Stream([], [], [])

  // ---------------------------------------------------------------- reading up to a limit

  /** Reading at most `limit` of the n bytes a connection holds: how many come, whether the reads end
      in an error, and what is left of the script. */
  datatype Pull = Pull(taken: nat, failed: bool, left: seq<ReadEvent>)

  function Least(a: nat, b: nat): nat { if a < b then a else b }

  function Tail(script: seq<ReadEvent>): seq<ReadEvent> { if script == [] then [] else script[1..] }

  function Pulls(n: nat, script: seq<ReadEvent>, limit: nat): (p: Pull)
    ensures p.taken <= n && p.taken <= limit
    ensures !p.failed ==> p.taken == Least(n, limit)
    decreases |script|
  {
    if limit == 0 then Pull(0, false, script)
    else if script == [] then Pull(Least(n, limit), false, [])
    else if script[0].Broken? then Pull(Least(limit, Least(script[0].n, n)), true, script[1..])
    else
      var m := Least(limit, Least(script[0].n, n));
      if m == n && (m == 0 || script[0].eofWithData) then Pull(m, false, script[1..])
      else
        var p := Pulls(n - m, script[1..], limit - m);
        p.(taken := m + p.taken)
  }

  /** Bytes that the reads of a script offer. */
  function Offered(script: seq<ReadEvent>): nat {
    if script == [] then 0 else script[0].n + Offered(script[1..])
  }

  /** The end of a connection of n bytes is reported by read j. */
  predicate EndsAt(n: nat, script: seq<ReadEvent>, j: nat)
    requires j < |script|
  {
    n <= Offered(script[..j])
    || (script[j].Short? && script[j].eofWithData && n <= Offered(script[..j + 1]))
  }

  /** Read i is the first to break, with neither the limit reached nor the end reported before it. */
  predicate BreaksAt(n: nat, script: seq<ReadEvent>, limit: nat, i: nat) {
    && i < |script| && script[i].Broken? && Least(n, Offered(script[..i])) < limit
    && forall j :: 0 <= j < i ==> script[j].Short? && !EndsAt(n, script, j)
  }

  lemma OfferedCons(script: seq<ReadEvent>, j: nat)
    requires 0 < j <= |script|
    ensures Offered(script[..j]) == Offered(script[..1]) + Offered(script[1..][..j - 1])
    ensures Offered(script[..1]) == script[0].n
  {
    assert script[..j][1..] == script[1..][..j - 1];
    assert script[..1][1..] == [];
  }

  lemma EndsShift(n: nat, script: seq<ReadEvent>, j: nat)
    requires 0 < j < |script| && script[0].Short?
    ensures EndsAt(n, script, j) <==> EndsAt(n - Least(script[0].n, n), script[1..], j - 1)
  {
    OfferedCons(script, j);
    OfferedCons(script, j + 1);
  }

  /** When the first read neither fills the limit nor reports the end, the rest breaks as the whole. */
  lemma BreaksShift(n: nat, script: seq<ReadEvent>, limit: nat, i: nat)
    requires 0 < i < |script| && script[0].Short? && !EndsAt(n, script, 0)
    requires Least(script[0].n, n) < limit
    ensures var m := Least(script[0].n, n);
            BreaksAt(n, script, limit, i) <==> BreaksAt(n - m, script[1..], limit - m, i - 1)
  {
    OfferedCons(script, i);
    forall j | 0 < j < i ensures EndsAt(n, script, j) <==> EndsAt(n - Least(script[0].n, n), script[1..], j - 1) {
      EndsShift(n, script, j);
    }
    var m := Least(script[0].n, n);
    if BreaksAt(n - m, script[1..], limit - m, i - 1) {
      forall j | 0 <= j < i ensures script[j].Short? && !EndsAt(n, script, j) {
        if j > 0 { assert script[1..][j - 1] == script[j]; }
      }
    }
    if BreaksAt(n, script, limit, i) {
      forall j | 0 <= j < i - 1 ensures script[1..][j].Short? && !EndsAt(n - m, script[1..], j) {
        assert script[1..][j] == script[j + 1];
      }
    }
  }

  /** Reading breaks off exactly at such a read, having taken what was offered up to and with it. */
  lemma {:induction false} PullBreaks(n: nat, script: seq<ReadEvent>, limit: nat, i: nat)
    requires BreaksAt(n, script, limit, i)
    ensures Pulls(n, script, limit) == Pull(Least(limit, Least(n, Offered(script[..i + 1]))), true, script[i + 1..])
    decreases |script|
  {
    if i > 0 {
      var m := Least(script[0].n, n);
      assert !EndsAt(n, script, 0);
      OfferedCons(script, 1);
      OfferedCons(script, i);
      OfferedCons(script, i + 1);
      assert script[1..][..i] == script[1..][..(i - 1) + 1];
      BreaksShift(n, script, limit, i);
      PullBreaks(n - m, script[1..], limit - m, i - 1);
      assert script[1..][i..] == script[i + 1..];
    } else {
      assert script[..1][1..] == [] && script[..0] == [];
    }
  }

  lemma {:induction false} PullFails(n: nat, script: seq<ReadEvent>, limit: nat) returns (i: nat)
    requires Pulls(n, script, limit).failed
    ensures BreaksAt(n, script, limit, i)
    decreases |script|
  {
    i := 0;
    if script[0].Short? {
      OfferedCons(script, 1);
      assert script[..0] == [];
      var m := Least(script[0].n, n);
      var k := PullFails(n - m, script[1..], limit - m);
      i := k + 1;
      BreaksShift(n, script, limit, i);
    }
  }

  /** A read error is met if and only if some read of the script breaks before the limit is reached
      and before the end of the body is reported. */
  lemma FailsIffBreaks(n: nat, script: seq<ReadEvent>, limit: nat)
    ensures Pulls(n, script, limit).failed <==> exists i: nat :: BreaksAt(n, script, limit, i)
  {
    if Pulls(n, script, limit).failed {
      var i := PullFails(n, script, limit);
    }
    forall i: nat | BreaksAt(n, script, limit, i) ensures Pulls(n, script, limit).failed {
      PullBreaks(n, script, limit, i);
    }
  }

  // ---------------------------------------------------------------- peeking

  /** Reading a body: the buffered bytes come first and never fail. */
  function Reading(s: Stream, limit: nat): (p: Pull)
    ensures p.taken <= |s.Contents()| && p.taken <= limit
    ensures !p.failed ==> p.taken == Least(|s.Contents()|, limit)
  {
    if limit <= |s.buffered| then Pull(limit, false, s.script)
    else
      var p := Pulls(|s.rest|, s.script, limit - |s.buffered|);
      p.(taken := |s.buffered| + p.taken)
  }

  /** cap + 1 bytes tell a body that fits from one that does not. */
  function PeekLimit(cap: int): nat { if cap + 1 > 0 then cap + 1 else 0 }

  /** Who reads: io.ReadAll reports any error it meets; io.CopyN forgives one that comes with the last of
      the bytes it was asked for. */
  datatype Reader = ReadAll | CopyN

  predicate ReadFails(how: Reader, s: Stream, limit: nat) {
    Reading(s, limit).failed && (how.ReadAll? || Reading(s, limit).taken < limit)
  }

  predicate PeekFails(how: Reader, s: Stream, cap: int) { ReadFails(how, s, PeekLimit(cap)) }

  /** The bytes a failed peek has consumed and does not put back. */
  function Lost(how: Reader, s: Stream, cap: int): (k: nat)
    ensures k <= |s.Contents()|
  {
    if PeekFails(how, s, cap) then Reading(s, PeekLimit(cap)).taken else 0
  }

  lemma PeekKeeps(how: Reader, s: Stream, cap: int)
    requires !PeekFails(how, s, cap)
    ensures s.Contents()[Lost(how, s, cap)..] == s.Contents()
  {
  }

  /** A peek asks for one byte more than the cap, and takes no more; if no read breaks it takes that many or
      the whole body. */
  lemma PeekTakes(s: Stream, cap: nat)
    ensures var p := Reading(s, PeekLimit(cap));
            && p.taken <= cap + 1 && p.taken <= |s.Contents()|
            && (!p.failed ==> p.taken == cap + 1 || p.taken == |s.Contents()|)
  {
  }

  /** The bytes taken by the time read i breaks during a peek. */
  function TakenBy(s: Stream, cap: int, i: nat): nat
    requires i < |s.script| && |s.buffered| < PeekLimit(cap)
  {
    Least(PeekLimit(cap), |s.buffered| + Least(|s.rest|, Offered(s.script[..i + 1])))
  }

  /** Read i of the connection breaks during the peek, and the reader reports it. */
  predicate BreaksPeek(how: Reader, s: Stream, cap: int, i: nat) {
    && |s.buffered| < PeekLimit(cap)
    && BreaksAt(|s.rest|, s.script, PeekLimit(cap) - |s.buffered|, i)
    && (how.ReadAll? || TakenBy(s, cap, i) < PeekLimit(cap))
  }

  lemma BreakIsReading(s: Stream, cap: int, i: nat)
    requires |s.buffered| < PeekLimit(cap) && BreaksAt(|s.rest|, s.script, PeekLimit(cap) - |s.buffered|, i)
    ensures Reading(s, PeekLimit(cap)).failed && Reading(s, PeekLimit(cap)).taken == TakenBy(s, cap, i)
  {
    PullBreaks(|s.rest|, s.script, PeekLimit(cap) - |s.buffered|, i);
  }

  /** A peek fails if and only if some read breaks before the cap is passed and the end reported. */
  lemma PeekFailsIff(how: Reader, s: Stream, cap: int)
    ensures PeekFails(how, s, cap) <==> exists i: nat :: BreaksPeek(how, s, cap, i)
  {
    forall i: nat | BreaksPeek(how, s, cap, i) ensures PeekFails(how, s, cap) {
      BreakIsReading(s, cap, i);
    }
    if PeekFails(how, s, cap) {
      var i := PullFails(|s.rest|, s.script, PeekLimit(cap) - |s.buffered|);
      BreakIsReading(s, cap, i);
      assert BreaksPeek(how, s, cap, i);
    }
  }

  /** It breaks after, or with, some byte. */
  predicate LosesAt(how: Reader, s: Stream, cap: int, i: nat) {
    BreaksPeek(how, s, cap, i) && (s.buffered != [] || (s.rest != [] && Offered(s.script[..i + 1]) > 0))
  }

  /** Bytes are lost if and only if a read breaks, before limit and end, with something taken: then
      all that was delivered up to and with it. */
  lemma LosesIff(how: Reader, s: Stream, cap: int)
    ensures Lost(how, s, cap) > 0 <==> exists i: nat :: LosesAt(how, s, cap, i)
    ensures forall i: nat :: LosesAt(how, s, cap, i) ==> Lost(how, s, cap) == TakenBy(s, cap, i)
  {
    forall i: nat | BreaksPeek(how, s, cap, i)
      ensures Lost(how, s, cap) == TakenBy(s, cap, i)
      ensures LosesAt(how, s, cap, i) <==> Lost(how, s, cap) > 0
    {
      BreakIsReading(s, cap, i);
    }
    if Lost(how, s, cap) > 0 {
      PeekFailsIff(how, s, cap);
    }
  }

  /** One byte arrives, then the connection breaks: that byte is gone from what is handed on. */
  lemma BrokenReadLosesByte(how: Reader, b: byte)
    ensures var s := Stream([], [b, b], [Short(1, false), Broken(0)]);
            Lost(how, s, 10) == 1 && LosesAt(how, s, 10, 1)
  {
    var script := [Short(1, false), Broken(0)];
    assert script[..1] == [Short(1, false)] && script[..0] == [] && script[..2] == script && script[1..] == [Broken(0)];
    assert Offered([Broken(0)]) == 0 && Offered(script) == 1;
    assert BreaksAt(2, script, 11, 1);
    LosesIff(how, Stream([], [b, b], script), 10);
  }

  /** An error that comes with the last byte of the peek: one reader loses everything it has read, the
      other loses nothing. */
  lemma ReadersDiffer(b: byte, k: nat)
    ensures var s := Stream([], [b, b], [Broken(2 + k)]);
            && PeekFails(ReadAll, s, 1) && Lost(ReadAll, s, 1) == 2
            && !PeekFails(CopyN, s, 1) && Lost(CopyN, s, 1) == 0
  {
  }

  /** The two differ nowhere else, and so agree on bodies that fit. */
  lemma ReadersAgree(s: Stream, cap: int)
    ensures PeekFails(ReadAll, s, cap) && !PeekFails(CopyN, s, cap) ==>
              Reading(s, PeekLimit(cap)).taken == PeekLimit(cap)
    ensures |s.Contents()| <= cap ==> (PeekFails(ReadAll, s, cap) <==> PeekFails(CopyN, s, cap))
  {
  }

  /** The capture: the whole body, if every read succeeded and it fits. */
  function Capture(s: Stream, cap: int): Option<seq<byte>> {
    if !PeekFails(ReadAll, s, cap) && |s.Contents()| <= cap then Some(s.Contents()) else None
  }

  /** What one Read returns. */
  datatype Got = Got(chunk: seq<byte>, failed: bool, eof: bool)

  function More(k: nat, p: Pull): Pull { p.(taken := k + p.taken) }

  /** A read up to a limit is this Read and then, unless that ended it, a read up to what is wanting. */
  ghost predicate ReadsOn(s: Stream, g: Got, s': Stream, limit: nat)
  {
    && g.chunk + s'.Contents() == s.Contents() && |g.chunk| <= limit
    && (if g.failed || g.eof then Reading(s, limit) == Pull(|g.chunk|, g.failed, s'.script)
        else Reading(s, limit) == More(|g.chunk|, Reading(s', limit - |g.chunk|))
             && |s'.Contents()| + |s'.script| < |s.Contents()| + |s.script|)
  }

  lemma BufferedReadsOn(s: Stream, limit: nat, n: nat)
    requires s.buffered != [] && 0 < n <= |s.buffered| && (n == limit || (n < limit && n == |s.buffered|))
    ensures ReadsOn(s, Got(s.buffered[..n], false, false), s.(buffered := s.buffered[n..]), limit)
  {
  }

  /** n bytes, whether the end is reported, whether it broke: what the script makes of a read. */
  ghost predicate Delivers(size: nat, script: seq<ReadEvent>, limit: nat, n: nat, eof: bool, broke: bool) {
    if script == [] then !broke && n == Least(limit, size) && (eof <==> size == 0)
    else
      && n == Least(limit, Least(script[0].n, size)) && (broke <==> script[0].Broken?)
      && (eof <==> script[0].Short? && n == size && (n == 0 || script[0].eofWithData))
  }

  lemma PullsOn(size: nat, script: seq<ReadEvent>, limit: nat, n: nat, eof: bool, broke: bool)
    requires limit > 0 && Delivers(size, script, limit, n, eof, broke)
    ensures n <= limit && n <= size
    ensures Pulls(size, script, limit)
            == if eof || broke then Pull(n, broke, Tail(script)) else More(n, Pulls(size - n, Tail(script), limit - n))
    ensures !eof && script == [] ==> n > 0
  {
  }

  lemma FromConnection(s: Stream, limit: nat)
    requires s.buffered == []
    ensures Reading(s, limit) == Pulls(|s.rest|, s.script, limit)
  {
  }

  lemma BytesOn(rest: seq<byte>, n: nat, script: seq<ReadEvent>, left: seq<ReadEvent>)
    requires n <= |rest|
    ensures rest[..n] + Stream([], rest[n..], left).Contents() == Stream([], rest, script).Contents()
    ensures |Stream([], rest[n..], left).Contents()| == |rest| - n && |Stream([], rest, script).Contents()| == |rest|
  {
    assert rest[..n] + ([] + rest[n..]) == [] + rest;
  }

  /** One read of the connection. */
  lemma ConnectionReadsOn(rest: seq<byte>, script: seq<ReadEvent>, limit: nat, n: nat, eof: bool, broke: bool)
    requires limit > 0 && n <= |rest| && Delivers(|rest|, script, limit, n, eof, broke)
    ensures ReadsOn(Stream([], rest, script), Got(rest[..n], broke, eof), Stream([], rest[n..], Tail(script)), limit)
  {
    PullsOn(|rest|, script, limit, n, eof, broke);
    FromConnection(Stream([], rest, script), limit);
    FromConnection(Stream([], rest[n..], Tail(script)), limit - n);
    BytesOn(rest, n, script, Tail(script));
  }

  /** got has been read of `was`, leaving s; a whole read up to the limit comes to got and what follows. */
  ghost predicate Underway(was: Stream, limit: nat, got: seq<byte>, s: Stream) {
    && |got| <= limit && got + s.Contents() == was.Contents()
    && Reading(was, limit) == More(|got|, Reading(s, limit - |got|))
  }

  /** A read up to the limit has ended with got, leaving s. */
  ghost predicate Ended(was: Stream, limit: nat, got: seq<byte>, failed: bool, s: Stream) {
    && Reading(was, limit) == Pull(|got|, failed, s.script)
    && got == was.Contents()[..|got|] && s.Contents() == was.Contents()[|got|..]
  }

  lemma UnderwayOn(was: Stream, limit: nat, got: seq<byte>, s: Stream, g: Got, s': Stream)
    requires Underway(was, limit, got, s) && ReadsOn(s, g, s', limit - |got|)
    ensures if g.failed || g.eof then Ended(was, limit, got + g.chunk, g.failed, s')
            else Underway(was, limit, got + g.chunk, s')
  {
    assert got + g.chunk + s'.Contents() == was.Contents();
  }

  lemma UnderwayEnd(was: Stream, limit: nat, got: seq<byte>, s: Stream)
    requires Underway(was, limit, got, s) && |got| == limit
    ensures Ended(was, limit, got, false, s)
  {
  }

  /** So a body is captured if and only if it fits and no read breaks while it is peeked at. */
  lemma CapturedIff(how: Reader, s: Stream, cap: int)
    ensures Capture(s, cap).Some? <==> |s.Contents()| <= cap && !exists i: nat :: BreaksPeek(how, s, cap, i)
  {
    PeekFailsIff(how, s, cap);
    ReadersAgree(s, cap);
  }

  // ---------------------------------------------------------------- the object

  /** An http body. */
  class Body {
    var buffered: seq<byte>
    var rest: seq<byte>
    var script: seq<ReadEvent>
    var closed: bool

    constructor (s: Stream)
      ensures View() == s && !closed
    {
      buffered, rest, script, closed := s.buffered, s.rest, s.script, false;
    }

    function View(): Stream
      reads this
    {
      Stream(buffered, rest, script)
    }

    function Contents(): seq<byte>
      reads this
    {
      View().Contents()
    }

    /** One Read: buffered bytes, or one event of the connection. */
    method Read(max: nat) returns (g: Got)
      requires max > 0
      modifies this`buffered, this`rest, this`script
      ensures ReadsOn(old(View()), g, View(), max)
    {
      if buffered != [] {
        var n := Least(max, |buffered|);
        BufferedReadsOn(View(), max, n);
        g := Got(buffered[..n], false, false);
        buffered := buffered[n..];
        return;
      }
      var n, withData, broke := Least(max, |rest|), false, false;
      if script != [] {
        var e := script[0];
        script := script[1..];
        n, broke := Least(max, Least(e.n, |rest|)), e.Broken?;
        withData := e.Short? && e.eofWithData;
      }
      g := Got(rest[..n], broke, !broke && |rest| == n && (n == 0 || withData));
      ConnectionReadsOn(rest, old(script), max, n, g.eof, broke);
      rest := rest[n..];
    }

    /** io.ReadAll over a LimitReader, or io.CopyN: read until limit bytes, end of file or error. */
    method ReadAtMost(how: Reader, limit: nat) returns (got: seq<byte>, failed: bool)
      modifies this`buffered, this`rest, this`script
      ensures failed == ReadFails(how, old(View()), limit)
      ensures Ended(old(View()), limit, got, Reading(old(View()), limit).failed, View())
    {
      got, failed := [], false;
      ghost var was := View();
      while |got| < limit
        invariant Underway(was, limit, got, View())
        decreases |Contents()| + |script|
      {
        ghost var s := View();
        var g := Read(limit - |got|);
        UnderwayOn(was, limit, got, s, g, View());
        got := got + g.chunk;
        if g.failed || g.eof {
          return got, g.failed && (how.ReadAll? || |got| < limit);
        }
      }
      UnderwayEnd(was, limit, got, View());
    }

    /** Peek cap + 1 bytes.  A body that fits is captured whole, closed and made replayable; a longer
        one is put back in front of the connection; after a read error what was read is gone. */
    method Peek(how: Reader, cap: int) returns (captured: Option<seq<byte>>, failed: bool)
      modifies this
      ensures failed == PeekFails(how, old(View()), cap)
      ensures captured == Capture(old(View()), cap)
      ensures Contents() == old(Contents())[Lost(how, old(View()), cap)..]
      ensures script == if captured.Some? then [] else Reading(old(View()), PeekLimit(cap)).left
      ensures closed == (old(closed) || captured.Some?)
    {
      ghost var was := View();
      var got;
      got, failed := ReadAtMost(how, PeekLimit(cap));
      ReadersAgree(was, cap);
      if failed {
        return None, true;
      }
      assert was.Contents()[..|got|] + was.Contents()[|got|..] == was.Contents();
      if |got| > cap {
        buffered := got + buffered;
        assert Contents() == got + was.Contents()[|got|..];
        return None, false;
      }
      assert |got| == |was.Contents()| && got == was.Contents();
      closed := true;
      buffered, rest, script := got, [], [];
      captured := Some(got);
    }
  }

  /** BufferRequestBody.  A request without a body is left alone. */
  method BufferRequestBody(body: Body?, cap: int) returns (captured: Option<seq<byte>>, failed: bool)
    modifies body
    ensures body == null ==> captured == None && !failed
    ensures body != null ==> failed == PeekFails(ReadAll, old(body.View()), cap)
    ensures body != null ==> captured == Capture(old(body.View()), cap)
    ensures body != null ==> body.Contents() == old(body.Contents())[Lost(ReadAll, old(body.View()), cap)..]
    ensures body != null ==> body.closed == (old(body.closed) || captured.Some?)
  {
    if body == null {
      return None, false;
    }
    captured, failed := body.Peek(ReadAll, cap);
  }
}
