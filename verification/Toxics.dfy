/** Byte-stream toxics: what Loss, RST and Drip write is a prefix of what they read, and when the
    first two reset the connection.  A script fixes what the reader, the writer, the clock and the
    context do; a pipe that has used it all up is still running. */
module Toxics {
  import opened Base

  datatype ReadErr = NoErr | Eof | Broken

  /** One turn of a pipe loop.  cancelled, timer: what the select before the read takes, the context's
      end or the RST timer.  lost: the loss draw.  stopped: the context ends during a pause.  failAfter:
      the write fails after that many bytes. */
  datatype Turn = Turn(
    cancelled: bool, timer: bool, data: seq<byte>, err: ReadErr,
    lost: bool, stopped: bool, failAfter: Option<nat>)

  datatype Exit = Running | Nil | Cancelled | Reset(forwarded: nat) | WriteFailed | ReadFailed

  /** Everything read in these turns. */
  function ReadBytes(turns: seq<Turn>): seq<byte> {
    if turns == [] then [] else ReadBytes(turns[..|turns| - 1]) + turns[|turns| - 1].data
  }

  lemma ReadSnoc(turns: seq<Turn>, i: nat)
    requires i < |turns|
    ensures ReadBytes(turns[..i + 1]) == ReadBytes(turns[..i]) + turns[i].data
  {
    assert turns[..i + 1][..i] == turns[..i];
  }

  lemma PrefixAppend(a: seq<byte>, b: seq<byte>, c: seq<byte>)
    requires b <= c
    ensures a + b <= a + c
  {
    assert a + c == a + b + c[|b|..];
  }

  /** dst.Write: the bytes that arrive, and whether it succeeded. */
  function Write(data: seq<byte>, failAfter: Option<nat>): (seq<byte>, bool) {
    if failAfter.None? then (data, true)
    else (data[..if failAfter.value < |data| then failAfter.value else |data|], false)
  }

  /** A write that fails has let through the first bytes of what it was given. */
  lemma WriteLaw(data: seq<byte>, k: nat)
    ensures Write(data, None) == (data, true) && !Write(data, Some(k)).1
    ensures Write(data, Some(k)).0 == if k < |data| then data[..k] else data
  {
  }

  function AfterRead(err: ReadErr): Exit {
    match err
    case NoErr => Running
    case Eof => Nil
    case Broken => ReadFailed
  }

  /** `used` turns were read; what was written is a prefix of them, and all of them unless the pipe
      was cut short while holding data. */
  ghost predicate Forwards(turns: seq<Turn>, used: nat, written: seq<byte>, exit: Exit) {
    && used <= |turns|
    && written <= ReadBytes(turns[..used])
    && (exit == Nil || exit == Running || exit == ReadFailed ==> written == ReadBytes(turns[..used]))
    && (exit == Running ==> used == |turns| && (used == 0 || turns[used - 1].err == NoErr))
    && (exit == Nil ==> used > 0 && turns[used - 1].err == Eof)
    && (exit == ReadFailed ==> used > 0 && turns[used - 1].err == Broken)
  }

  // ---------------------------------------------------------------- loss

  /** Consecutive lost data reads at the end; reads without data neither count nor break a run. */
  function TrailingLosses(turns: seq<Turn>): nat {
    if turns == [] then 0
    else
      var t, before := turns[|turns| - 1], TrailingLosses(turns[..|turns| - 1]);
      if t.data == [] then before else if t.lost then before + 1 else 0
  }

  lemma LossesSnoc(turns: seq<Turn>, i: nat)
    requires i < |turns|
    ensures var t, before := turns[i], TrailingLosses(turns[..i]);
            TrailingLosses(turns[..i + 1]) == if t.data == [] then before else if t.lost then before + 1 else 0
  {
    assert turns[..i + 1][..i] == turns[..i];
  }

  /** The loss draws of the data reads, in order. */
  function Draws(turns: seq<Turn>): seq<bool> {
    if turns == [] then []
    else
      var t, before := turns[|turns| - 1], Draws(turns[..|turns| - 1]);
      if t.data == [] then before else before + [t.lost]
  }

  /** The count is at least k exactly when the last k data reads were all lost. */
  lemma {:induction false} TrailingIsRun(turns: seq<Turn>, k: nat)
    ensures TrailingLosses(turns) >= k <==>
            k <= |Draws(turns)| && forall i :: |Draws(turns)| - k <= i < |Draws(turns)| ==> Draws(turns)[i]
    decreases |turns|
  {
    if turns != [] {
      var init, t := turns[..|turns| - 1], turns[|turns| - 1];
      if t.data == [] {
        TrailingIsRun(init, k);
      } else if k > 0 {
        TrailingIsRun(init, k - 1);
        var d, d' := Draws(init), Draws(turns);
        assert d' == d + [t.lost] && d'[|d|] == t.lost;
        if t.lost {
          assert forall i :: 0 <= i < |d| ==> d'[i] == d[i];
        }
      }
    }
  }

  /** The context ends in the pause that stands for a retransmission. */
  predicate Paused(t: Turn) { t.data != [] && t.lost && t.stopped }

  /** The turn's data is written out and nothing ends the pipe. */
  predicate Whole(t: Turn) { t.err == NoErr && (t.data == [] || t.failAfter.None?) }

  /** The pipe goes on after n turns: none was cancelled or cut, and no run of losses was complete. */
  ghost predicate LossOn(threshold: int, turns: seq<Turn>, n: nat) {
    && n <= |turns|
    && (forall j :: 0 <= j < n ==> !turns[j].cancelled && Whole(turns[j]) && !Paused(turns[j]))
    && (threshold > 0 ==> forall j :: 0 <= j <= n ==> TrailingLosses(turns[..j]) < threshold)
  }

  /** How it ends: the last of its `used` turns, or the select after it, says why, and the bytes written
      are those of the turns before the cut. */
  ghost predicate LossEnds(threshold: int, turns: seq<Turn>, used: nat, written: seq<byte>, exit: Exit) {
    && used <= |turns|
    && (exit.Reset? <==> threshold > 0 && TrailingLosses(turns[..used]) >= threshold)
    && if used == 0 then written == [] && (exit == Running || exit == Cancelled)
       else
         var t, before := turns[used - 1], ReadBytes(turns[..used - 1]);
         && LossOn(threshold, turns, used - 1) && !t.cancelled
         && if exit.Reset? then written == before
            else if Paused(t) then exit == Cancelled && written == before
            else
              && written == before + Write(t.data, t.failAfter).0
              && if t.data != [] && t.failAfter.Some? then exit == WriteFailed
                 else if t.err != NoErr then exit == AfterRead(t.err)
                 else exit == Running || exit == Cancelled
  }

  /** What one more turn makes of the pipe. */
  lemma LossTurn(threshold: int, turns: seq<Turn>, n: nat)
    requires n < |turns| && LossOn(threshold, turns, n) && !turns[n].cancelled
    ensures var t, before := turns[n], ReadBytes(turns[..n]);
            var resets := threshold > 0 && TrailingLosses(turns[..n + 1]) >= threshold;
            var out := before + Write(t.data, t.failAfter).0;
            && (t.data == [] || t.failAfter.None? ==> out == ReadBytes(turns[..n + 1]))
            && (resets ==> LossEnds(threshold, turns, n + 1, before, Reset(0)))
            && (!resets && Paused(t) ==> LossEnds(threshold, turns, n + 1, before, Cancelled))
            && (!resets && !Paused(t) ==>
                  if t.data != [] && t.failAfter.Some? then LossEnds(threshold, turns, n + 1, out, WriteFailed)
                  else if t.err != NoErr then LossEnds(threshold, turns, n + 1, out, AfterRead(t.err))
                  else LossOn(threshold, turns, n + 1))
            && before <= out <= ReadBytes(turns[..n + 1])
  {
    ReadSnoc(turns, n);
    var t := turns[n];
    PrefixAppend(ReadBytes(turns[..n]), Write(t.data, t.failAfter).0, t.data);
  }

  /** Loss.Pipe resets in the turn whose data read completes the first run of `threshold` losses, and
      in no other way; every other exit has its cause in the last turn, or in the context being done
      before the next read. */
  method LossPipe(threshold: int, turns: seq<Turn>) returns (written: seq<byte>, exit: Exit, used: nat)
    ensures Forwards(turns, used, written, exit) && LossEnds(threshold, turns, used, written, exit)
    ensures exit == Cancelled && (used == 0 || !Paused(turns[used - 1])) ==>
              used < |turns| && turns[used].cancelled && written == ReadBytes(turns[..used])
  {
    written, used := [], 0;
    var consecutive := 0;
    while used < |turns|
      invariant LossOn(threshold, turns, used)
      invariant written == ReadBytes(turns[..used])
      invariant 0 <= consecutive == TrailingLosses(turns[..used])
    {
      var t := turns[used];
      if t.cancelled {
        LossBetween(threshold, turns, used, Cancelled);
        return written, Cancelled, used;
      }
      LossTurn(threshold, turns, used);
      LossesSnoc(turns, used);
      used := used + 1;
      if t.data != [] {
        if t.lost {
          consecutive := consecutive + 1;
          if threshold > 0 && consecutive >= threshold {
            return written, Reset(0), used;
          }
          if t.stopped {
            return written, Cancelled, used;
          }
        } else {
          consecutive := 0;
        }
        var (out, ok) := Write(t.data, t.failAfter);
        written := written + out;
        if !ok {
          return written, WriteFailed, used;
        }
      }
      if t.err != NoErr {
        return written, AfterRead(t.err), used;
      }
    }
    LossBetween(threshold, turns, used, Running);
    exit := Running;
  }

  lemma LossBetween(threshold: int, turns: seq<Turn>, used: nat, exit: Exit)
    requires LossOn(threshold, turns, used) && (exit == Running || exit == Cancelled)
    ensures LossEnds(threshold, turns, used, ReadBytes(turns[..used]), exit)
  {
    if used > 0 { ReadSnoc(turns, used - 1); }
  }

  /** The last k data reads of these turns, and there are that many, were all lost. */
  ghost predicate LostRun(turns: seq<Turn>, k: nat) {
    k <= |Draws(turns)| && forall i :: |Draws(turns)| - k <= i < |Draws(turns)| ==> Draws(turns)[i]
  }

  /** What that comes to, turn by turn and byte by byte. */
  lemma LossEndsMeans(threshold: int, turns: seq<Turn>, used: nat, written: seq<byte>, exit: Exit)
    requires LossEnds(threshold, turns, used, written, exit)
    ensures exit.Reset? <==> threshold > 0 && LostRun(turns[..used], threshold)
    ensures threshold > 0 ==> forall j :: 0 <= j < used ==> !LostRun(turns[..j], threshold)
    ensures forall j :: 0 <= j < used - 1 ==>
              && !turns[j].cancelled && turns[j].err == NoErr
              && (turns[j].data != [] ==> turns[j].failAfter == None && !(turns[j].lost && turns[j].stopped))
    ensures used > 0 ==>
              var t, before := turns[used - 1], ReadBytes(turns[..used - 1]);
              match exit
              case Reset(_) => written == before
              case Cancelled =>
                if t.data != [] && t.lost && t.stopped then written == before else written == before + t.data
              case WriteFailed =>
                && t.data != [] && t.failAfter.Some?
                && written == before + t.data[..if t.failAfter.value < |t.data| then t.failAfter.value else |t.data|]
              case Nil => t.err == Eof && written == before + t.data
              case ReadFailed => t.err == Broken && written == before + t.data
              case Running => t.err == NoErr && written == before + t.data
  {
    if threshold > 0 {
      TrailingIsRun(turns[..used], threshold);
      forall j | 0 <= j < used ensures !LostRun(turns[..j], threshold) {
        TrailingIsRun(turns[..j], threshold);
      }
    }
  }

  // ---------------------------------------------------------------- rst

  const RST_BUFFER := 32768

  /** RST.Pipe: the byte trigger fires at the first turn that brings the forwarded bytes to AfterBytes,
      so by less than one buffer too late. */
  method RstPipe(afterBytes: int, turns: seq<Turn>) returns (written: seq<byte>, exit: Exit, byBytes: bool, used: nat)
    requires forall i :: 0 <= i < |turns| ==> |turns[i].data| <= RST_BUFFER
    ensures Forwards(turns, used, written, exit)
    ensures exit.Reset? ==> exit.forwarded == |written| && written == ReadBytes(turns[..used])
    ensures byBytes ==> exit.Reset? && 0 < afterBytes <= exit.forwarded < afterBytes + 32768
    ensures byBytes ==> used > 0 && |ReadBytes(turns[..used - 1])| < afterBytes
    ensures exit.Reset? && !byBytes ==> used < |turns| && turns[used].timer && !turns[used].cancelled
    ensures exit == Cancelled ==> used < |turns| && turns[used].cancelled && written == ReadBytes(turns[..used])
    ensures exit == WriteFailed <==> used > 0 && turns[used - 1].data != [] && turns[used - 1].failAfter.Some?
    ensures exit == WriteFailed ==>
              written == ReadBytes(turns[..used - 1]) + Write(turns[used - 1].data, turns[used - 1].failAfter).0
    ensures afterBytes > 0 && !byBytes && exit != WriteFailed ==> |written| < afterBytes
    ensures forall j :: 0 <= j < used ==> !turns[j].cancelled && !turns[j].timer
    ensures forall j :: 0 <= j < used - 1 ==> Whole(turns[j])
  {
    written, used, byBytes := [], 0, false;
    var forwarded := 0;
    while used < |turns|
      invariant 0 <= used <= |turns| && forwarded == |written|
      invariant written == ReadBytes(turns[..used])
      invariant afterBytes > 0 ==> forwarded < afterBytes
      invariant forall j :: 0 <= j < used ==> !turns[j].cancelled && !turns[j].timer && Whole(turns[j])
    {
      var t := turns[used];
      if t.cancelled {
        return written, Cancelled, false, used;
      }
      if t.timer {
        return written, Reset(forwarded), false, used;
      }
      ReadSnoc(turns, used);
      used := used + 1;
      if t.data != [] {
        var (out, ok) := Write(t.data, t.failAfter);
        written := written + out;
        if !ok {
          return written, WriteFailed, false, used;
        }
        forwarded := forwarded + |t.data|;
        if afterBytes > 0 && forwarded >= afterBytes {
          return written, Reset(forwarded), true, used;
        }
      }
      if t.err != NoErr {
        return written, AfterRead(t.err), false, used;
      }
    }
    exit := Running;
  }

  // ---------------------------------------------------------------- drip

  function Joined(writes: seq<seq<byte>>): seq<byte> {
    if writes == [] then [] else Joined(writes[..|writes| - 1]) + writes[|writes| - 1]
  }

  ghost predicate Full(writes: seq<seq<byte>>, chunk: int) {
    forall w :: w in writes ==> |w| == chunk
  }

  /** What happens to one drip: its write fails after some bytes, the context ends in the pause. */
  datatype Drop = Drop(failAfter: Option<nat>, stopped: bool)

  /** The k-th drip of a read, undisturbed if the script does not say. */
  function DropAt(drops: seq<Drop>, k: nat): Drop {
    if k < |drops| then drops[k] else Drop(None, false)
  }

  /** The piece of data that goes out next after `at` bytes. */
  function Piece(data: seq<byte>, at: nat, chunk: nat): seq<byte>
    requires at <= |data|
  {
    data[at..if at + chunk < |data| then at + chunk else |data|]
  }

  /** The pieces written of one read, all full but for the last, and how that ends: at the first drip
      whose write fails, or whose pause is cut with data left, or with all data out. */
  ghost predicate Dripped(chunk: nat, pause: bool, data: seq<byte>, drops: seq<Drop>,
                          writes: seq<seq<byte>>, exit: Exit) {
    var n := |writes|;
    && (forall k :: 0 <= k < n - 1 ==> DropAt(drops, k).failAfter.None? && !(pause && DropAt(drops, k).stopped))
    && (n > 0 ==>
          var init, last := writes[..n - 1], DropAt(drops, n - 1);
          && Full(init, chunk) && Joined(init) < data && Joined(init) <= data
          && writes[n - 1] == Write(Piece(data, |Joined(init)|, chunk), last.failAfter).0
          && (exit == WriteFailed <==> last.failAfter.Some?)
          && (exit == Cancelled <==> last.failAfter.None? && pause && last.stopped && |Joined(init)| + chunk < |data|))
    && (exit == Running ==> Joined(writes) == data)
    && (n == 0 ==> exit == Running)
    && (exit == Running || exit == WriteFailed || exit == Cancelled)
  }

  /** The loop before its next piece: `at` bytes are out, in full pieces, with nothing cut short. */
  ghost predicate Dripping(chunk: nat, pause: bool, data: seq<byte>, drops: seq<Drop>,
                           writes: seq<seq<byte>>, at: nat) {
    && at < |data| && Joined(writes) == data[..at] && Full(writes, chunk)
    && forall k :: 0 <= k < |writes| ==> DropAt(drops, k).failAfter.None? && !(pause && DropAt(drops, k).stopped)
  }

  lemma PieceWhole(writes: seq<seq<byte>>, data: seq<byte>, at: nat, chunk: nat)
    requires at < |data| && chunk > 0 && Joined(writes) == data[..at]
    ensures var p := Piece(data, at, chunk);
            && p != [] && Joined(writes + [p]) == data[..at + |p|]
            && (at + |p| < |data| ==> |p| == chunk) && (|p| < chunk ==> at + |p| == |data|)
            && (at + chunk < |data| <==> at + |p| < |data|)
  {
    var p := Piece(data, at, chunk);
    assert (writes + [p])[..|writes|] == writes;
    assert data[..at] + p == data[..at + |p|];
  }

  /** The next piece cut short by its write, or by its pause. */
  lemma DripCut(chunk: nat, pause: bool, data: seq<byte>, drops: seq<Drop>, writes: seq<seq<byte>>, at: nat)
    requires Dripping(chunk, pause, data, drops, writes, at) && chunk > 0
    ensures var p, d := Piece(data, at, chunk), DropAt(drops, |writes|);
            && (d.failAfter.Some? ==>
                  Dripped(chunk, pause, data, drops, writes + [Write(p, d.failAfter).0], WriteFailed))
            && (d.failAfter.None? && at + |p| < |data| && pause && d.stopped ==>
                  Dripped(chunk, pause, data, drops, writes + [p], Cancelled))
  {
    PieceWhole(writes, data, at, chunk);
    var p, d := Piece(data, at, chunk), DropAt(drops, |writes|);
    assert (writes + [Write(p, d.failAfter).0])[..|writes|] == writes;
    assert data[..at] < data;
  }

  /** The next piece whole: the data is out, or the loop goes on. */
  lemma DripOn(chunk: nat, pause: bool, data: seq<byte>, drops: seq<Drop>, writes: seq<seq<byte>>, at: nat)
    requires Dripping(chunk, pause, data, drops, writes, at) && chunk > 0
    requires DropAt(drops, |writes|).failAfter.None?
    requires var p := Piece(data, at, chunk); at + |p| == |data| || !(pause && DropAt(drops, |writes|).stopped)
    ensures var p := Piece(data, at, chunk);
            if at + |p| == |data| then Dripped(chunk, pause, data, drops, writes + [p], Running)
            else Dripping(chunk, pause, data, drops, writes + [p], at + |p|)
  {
    PieceWhole(writes, data, at, chunk);
    var p := Piece(data, at, chunk);
    assert (writes + [p])[..|writes|] == writes;
    assert data[..at] < data && data[..|data|] == data;
  }

  /** What went out is a prefix of the data, and a proper one when a pause was cut. */
  lemma DrippedPrefix(chunk: nat, pause: bool, data: seq<byte>, drops: seq<Drop>, writes: seq<seq<byte>>, exit: Exit)
    requires Dripped(chunk, pause, data, drops, writes, exit)
    ensures Joined(writes) <= data
    ensures exit == Cancelled ==> Joined(writes) < data
  {
    if writes != [] {
      var init, last := writes[..|writes| - 1], writes[|writes| - 1];
      var at := |Joined(init)|;
      assert last <= Piece(data, at, chunk) <= data[at..];
      assert data == data[..at] + data[at..];
    }
  }

  /** What that comes to, piece by piece: every piece before the last is full, went out whole and was
      followed by its whole pause; the last says how it ends. */
  lemma DrippedMeans(chunk: nat, pause: bool, data: seq<byte>, drops: seq<Drop>, writes: seq<seq<byte>>, exit: Exit)
    requires Dripped(chunk, pause, data, drops, writes, exit) && chunk > 0
    ensures var n := |writes|;
            && (forall k :: 0 <= k < n - 1 ==> |writes[k]| == chunk)
            && (forall k :: 0 <= k < n - 1 && k < |drops| ==>
                  drops[k].failAfter == None && !(pause && drops[k].stopped))
            && (exit == WriteFailed <==> 0 < n <= |drops| && drops[n - 1].failAfter.Some?)
            && (exit == Cancelled ==> 0 < n <= |drops| && pause && drops[n - 1].stopped && Joined(writes) < data)
            && (exit == Cancelled ==> |writes[n - 1]| == chunk)
            && (exit == Running <==> exit != WriteFailed && exit != Cancelled)
            && (exit == Running ==> Joined(writes) == data && (n > 0 ==> 0 < |writes[n - 1]| <= chunk))
            && (exit == Running && pause && 0 < n <= |drops| ==>
                  !drops[n - 1].stopped || |Joined(writes[..n - 1])| + chunk >= |data|)
            && (exit == WriteFailed ==>
                  var at, k := |Joined(writes[..n - 1])|, drops[n - 1].failAfter.value;
                  var left := |data| - at;
                  var size := if left < chunk then left else chunk;
                  0 < size && Joined(writes[..n - 1]) == data[..at]
                  && writes[n - 1] == data[at..at + if k < size then k else size])
  {
    DrippedPrefix(chunk, pause, data, drops, writes, exit);
    if writes != [] {
      var n, init := |writes|, writes[..|writes| - 1];
      assert forall k :: 0 <= k < n - 1 ==> init[k] == writes[k] && init[k] in init;
      assert forall k :: 0 <= k < n - 1 && k < |drops| ==> DropAt(drops, k) == drops[k];
      assert data[..|Joined(init)|] == Joined(init);
    }
  }

  lemma PieceOf(data: seq<byte>, at: nat, left: seq<byte>, chunk: nat)
    requires at <= |data| && left == data[at..]
    ensures var size := if chunk > |left| then |left| else chunk;
            left[..size] == Piece(data, at, chunk) && left[size..] == data[at + size..]
  {
  }

  /** The inner loop: one read's data goes out in pieces of at most `chunk` bytes. */
  method DripChunk(chunk: nat, pause: bool, data: seq<byte>, drops: seq<Drop>)
    returns (writes: seq<seq<byte>>, exit: Exit)
    requires chunk > 0
    ensures Dripped(chunk, pause, data, drops, writes, exit)
  {
    writes := [];
    ghost var at := 0;
    var left := data;
    while |left| > 0
      invariant 0 <= at <= |data| && left == data[at..]
      invariant if left != [] then Dripping(chunk, pause, data, drops, writes, at)
                else Dripped(chunk, pause, data, drops, writes, Running)
      decreases |left|
    {
      var size := if chunk > |left| then |left| else chunk;
      var drop := DropAt(drops, |writes|);
      PieceOf(data, at, left, chunk);
      DripCut(chunk, pause, data, drops, writes, at);
      var (out, ok) := Write(left[..size], drop.failAfter);
      if !ok {
        return writes + [out], WriteFailed;
      }
      if |left| == size || !(pause && drop.stopped) {
        DripOn(chunk, pause, data, drops, writes, at);
      }
      writes, left, at := writes + [out], left[size..], at + size;
      if |left| > 0 && pause && drop.stopped {
        return writes, Cancelled;
      }
    }
    exit := Running;
  }

  // ---------------------------------------------------------------- drip, turn by turn

  /** All bytes written; writes[j] are the pieces of turn j. */
  function AllBytes(writes: seq<seq<seq<byte>>>): seq<byte> {
    if writes == [] then [] else AllBytes(writes[..|writes| - 1]) + Joined(writes[|writes| - 1])
  }

  function DropsAt(drops: seq<seq<Drop>>, j: nat): seq<Drop> { if j < |drops| then drops[j] else [] }

  /** Turn j was read and dripped out whole, and the pipe went on. */
  ghost predicate WentOn(chunk: nat, pause: bool, t: Turn, drops: seq<Drop>, writes: seq<seq<byte>>) {
    !t.cancelled && t.err == NoErr && Dripped(chunk, pause, t.data, drops, writes, Running)
  }

  /** The exit after the last turn read: its own drips, the end of the stream, or the next select. */
  ghost predicate EndsWith(chunk: nat, pause: bool, turns: seq<Turn>, drops: seq<Drop>, writes: seq<seq<byte>>,
                           used: nat, exit: Exit)
    requires 0 < used <= |turns|
  {
    var t := turns[used - 1];
    && !t.cancelled
    && if exit == WriteFailed then Dripped(chunk, pause, t.data, drops, writes, WriteFailed)
       else if exit == Cancelled && Joined(writes) != t.data then
         Dripped(chunk, pause, t.data, drops, writes, Cancelled)
       else
         && Dripped(chunk, pause, t.data, drops, writes, Running)
         && if t.err != NoErr then exit == AfterRead(t.err)
            else if used < |turns| then exit == Cancelled && turns[used].cancelled
            else exit == Running
  }

  /** The loop after `used` turns, all gone out whole. */
  ghost predicate WentOnAll(chunk: nat, pause: bool, turns: seq<Turn>, drops: seq<seq<Drop>>,
                            writes: seq<seq<seq<byte>>>, used: nat)
  {
    && used == |writes| <= |turns|
    && AllBytes(writes) == ReadBytes(turns[..used])
    && forall j :: 0 <= j < used ==> WentOn(chunk, pause, turns[j], DropsAt(drops, j), writes[j])
  }

  /** How a pipe ends: every turn before the last went out whole, and the last says why it ends. */
  ghost predicate PipeEnds(chunk: nat, pause: bool, turns: seq<Turn>, drops: seq<seq<Drop>>,
                           writes: seq<seq<seq<byte>>>, used: nat, exit: Exit)
  {
    && used == |writes| <= |turns|
    && (forall j :: 0 <= j < used - 1 ==> WentOn(chunk, pause, turns[j], DropsAt(drops, j), writes[j]))
    && if used == 0 then if turns == [] then exit == Running else exit == Cancelled && turns[0].cancelled
       else
         && AllBytes(writes) == ReadBytes(turns[..used - 1]) + Joined(writes[used - 1])
         && EndsWith(chunk, pause, turns, DropsAt(drops, used - 1), writes[used - 1], used, exit)
  }

  /** What that comes to: every turn before the last was read, went out whole and was not the stream's
      last; and the last, or the select after it, says why the pipe ends. */
  lemma PipeEndsMeans(chunk: nat, pause: bool, turns: seq<Turn>, drops: seq<seq<Drop>>, writes: seq<seq<seq<byte>>>,
                      used: nat, exit: Exit)
    requires PipeEnds(chunk, pause, turns, drops, writes, used, exit) && chunk > 0
    ensures forall j :: 0 <= j < used - 1 ==>
              !turns[j].cancelled && turns[j].err == NoErr && Joined(writes[j]) == turns[j].data
    ensures used > 0 ==> !turns[used - 1].cancelled
    ensures exit == Nil ==> used > 0 && turns[used - 1].err == Eof && Joined(writes[used - 1]) == turns[used - 1].data
    ensures exit == ReadFailed ==>
              used > 0 && turns[used - 1].err == Broken && Joined(writes[used - 1]) == turns[used - 1].data
    ensures exit == Running ==> used == |turns|
    ensures exit == Cancelled ==>
              || (used < |turns| && turns[used].cancelled
                  && (used > 0 ==> Joined(writes[used - 1]) == turns[used - 1].data))
              || (used > 0 && pause && used <= |drops| && 0 < |writes[used - 1]| <= |drops[used - 1]|
                  && drops[used - 1][|writes[used - 1]| - 1].stopped && Joined(writes[used - 1]) < turns[used - 1].data)
    ensures exit == WriteFailed ==>
              && used > 0 && used <= |drops| && 0 < |writes[used - 1]| <= |drops[used - 1]|
              && drops[used - 1][|writes[used - 1]| - 1].failAfter.Some?
    ensures !exit.Reset?
  {
    if used > 0 {
      assert forall j :: 0 <= j < used - 1 ==> WentOn(chunk, pause, turns[j], DropsAt(drops, j), writes[j]);
    }
  }

  /** No drip of a turn before the last had a failing write, or a pause cut with more to come. */
  lemma EarlierDrips(chunk: nat, pause: bool, turns: seq<Turn>, drops: seq<seq<Drop>>, writes: seq<seq<seq<byte>>>,
                     used: nat, exit: Exit, j: nat, k: nat)
    requires PipeEnds(chunk, pause, turns, drops, writes, used, exit) && chunk > 0
    requires j < used - 1 && j < |drops| && k < |writes[j]| && k < |drops[j]|
    ensures drops[j][k].failAfter == None
    ensures k < |writes[j]| - 1 ==> !(pause && drops[j][k].stopped)
  {
    assert WentOn(chunk, pause, turns[j], DropsAt(drops, j), writes[j]);
    DripClean(chunk, pause, turns[j].data, drops[j], writes[j], k);
  }

  lemma DripClean(chunk: nat, pause: bool, data: seq<byte>, drops: seq<Drop>, writes: seq<seq<byte>>, k: nat)
    requires Dripped(chunk, pause, data, drops, writes, Running) && k < |writes| && k < |drops|
    ensures drops[k].failAfter == None && (k < |writes| - 1 ==> !(pause && drops[k].stopped))
  {
    assert DropAt(drops, k) == drops[k];
  }

  lemma BytesOut(turns: seq<Turn>, writes: seq<seq<seq<byte>>>, out: seq<seq<byte>>)
    requires |writes| < |turns| && AllBytes(writes) == ReadBytes(turns[..|writes|])
    requires Joined(out) <= turns[|writes|].data
    ensures AllBytes(writes + [out]) == ReadBytes(turns[..|writes|]) + Joined(out)
    ensures AllBytes(writes + [out]) <= ReadBytes(turns[..|writes| + 1])
  {
    var n := |writes|;
    var before, data := ReadBytes(turns[..n]), turns[n].data;
    assert (writes + [out])[..n] == writes && (writes + [out])[n] == out;
    assert AllBytes(writes + [out]) == before + Joined(out);
    ReadSnoc(turns, n);
    PrefixAppend(before, Joined(out), data);
  }

  /** One more turn that went out whole. */
  lemma WentOnMore(chunk: nat, pause: bool, turns: seq<Turn>, drops: seq<seq<Drop>>, writes: seq<seq<seq<byte>>>,
                   used: nat, out: seq<seq<byte>>)
    requires used < |turns| && WentOnAll(chunk, pause, turns, drops, writes, used)
    requires WentOn(chunk, pause, turns[used], DropsAt(drops, used), out)
    ensures WentOnAll(chunk, pause, turns, drops, writes + [out], used + 1)
  {
    assert AllBytes(writes + [out]) == ReadBytes(turns[..used + 1]) by {
      WholeBytesOut(turns, writes, out);
    }
    AllWentOn(chunk, pause, turns, drops, writes, out);
  }

  lemma AllWentOn(chunk: nat, pause: bool, turns: seq<Turn>, drops: seq<seq<Drop>>, writes: seq<seq<seq<byte>>>,
                  out: seq<seq<byte>>)
    requires |writes| < |turns| && WentOn(chunk, pause, turns[|writes|], DropsAt(drops, |writes|), out)
    requires forall j :: 0 <= j < |writes| ==> WentOn(chunk, pause, turns[j], DropsAt(drops, j), writes[j])
    ensures forall j :: 0 <= j <= |writes| ==>
              WentOn(chunk, pause, turns[j], DropsAt(drops, j), (writes + [out])[j])
  {
    forall j | 0 <= j <= |writes| ensures WentOn(chunk, pause, turns[j], DropsAt(drops, j), (writes + [out])[j]) {
      if j < |writes| {
        assert (writes + [out])[j] == writes[j];
      } else {
        assert (writes + [out])[j] == out;
      }
    }
  }

  lemma WholeBytesOut(turns: seq<Turn>, writes: seq<seq<seq<byte>>>, out: seq<seq<byte>>)
    requires |writes| < |turns| && AllBytes(writes) == ReadBytes(turns[..|writes|])
    requires Joined(out) == turns[|writes|].data
    ensures AllBytes(writes + [out]) == ReadBytes(turns[..|writes| + 1])
  {
    var n := |writes|;
    assert (writes + [out])[..n] == writes && (writes + [out])[n] == out;
    ReadSnoc(turns, n);
  }

  /** A last turn, cut short or at the end of the stream. */
  lemma TurnEnds(chunk: nat, pause: bool, turns: seq<Turn>, drops: seq<seq<Drop>>, writes: seq<seq<seq<byte>>>,
                 used: nat, out: seq<seq<byte>>, exit: Exit)
    requires used < |turns| && WentOnAll(chunk, pause, turns, drops, writes, used)
    requires EndsWith(chunk, pause, turns, DropsAt(drops, used), out, used + 1, exit)
    requires Joined(out) <= turns[used].data
    ensures PipeEnds(chunk, pause, turns, drops, writes + [out], used + 1, exit)
    ensures AllBytes(writes + [out]) <= ReadBytes(turns[..used + 1])
    ensures Joined(out) == turns[used].data ==> AllBytes(writes + [out]) == ReadBytes(turns[..used + 1])
  {
    var w := writes + [out];
    assert AllBytes(w) == ReadBytes(turns[..used]) + Joined(out) && AllBytes(w) <= ReadBytes(turns[..used + 1]) by {
      BytesOut(turns, writes, out);
    }
    ReadSnoc(turns, used);
    forall j | 0 <= j < used ensures WentOn(chunk, pause, turns[j], DropsAt(drops, j), w[j]) {
      assert w[j] == writes[j];
    }
    assert w[used] == out;
  }

  /** What the drips of a turn make of the pipe. */
  lemma TurnOut(chunk: nat, pause: bool, turns: seq<Turn>, drops: seq<seq<Drop>>, writes: seq<seq<seq<byte>>>,
                used: nat, out: seq<seq<byte>>, e: Exit)
    requires used < |turns| && WentOnAll(chunk, pause, turns, drops, writes, used) && !turns[used].cancelled
    requires Dripped(chunk, pause, turns[used].data, DropsAt(drops, used), out, e)
    ensures var w, t := writes + [out], turns[used];
            if e == Running && t.err == NoErr then WentOnAll(chunk, pause, turns, drops, w, used + 1)
            else
              var exit := if e == Running then AfterRead(t.err) else e;
              PipeEnds(chunk, pause, turns, drops, w, used + 1, exit) && Forwards(turns, used + 1, AllBytes(w), exit)
  {
    var t := turns[used];
    if e == Running && t.err == NoErr {
      WentOnMore(chunk, pause, turns, drops, writes, used, out);
    } else {
      DrippedPrefix(chunk, pause, t.data, DropsAt(drops, used), out, e);
      assert e == Running ==> Joined(out) == t.data;
      TurnEnds(chunk, pause, turns, drops, writes, used, out, if e == Running then AfterRead(t.err) else e);
    }
  }

  /** The loop ends between turns. */
  lemma BetweenTurns(chunk: nat, pause: bool, turns: seq<Turn>, drops: seq<seq<Drop>>,
                     writes: seq<seq<seq<byte>>>, used: nat)
    requires WentOnAll(chunk, pause, turns, drops, writes, used)
    requires used < |turns| ==> turns[used].cancelled
    ensures PipeEnds(chunk, pause, turns, drops, writes, used, if used < |turns| then Cancelled else Running)
    ensures Forwards(turns, used, AllBytes(writes), if used < |turns| then Cancelled else Running)
  {
    if used > 0 {
      ReadSnoc(turns, used - 1);
      assert turns[used - 1].err == NoErr && Joined(writes[used - 1]) == turns[used - 1].data by {
        assert WentOn(chunk, pause, turns[used - 1], DropsAt(drops, used - 1), writes[used - 1]);
      }
      LastBytes(turns, writes, used);
    }
  }

  lemma LastBytes(turns: seq<Turn>, writes: seq<seq<seq<byte>>>, used: nat)
    requires 0 < used == |writes| <= |turns| && AllBytes(writes) == ReadBytes(turns[..used])
    requires Joined(writes[used - 1]) == turns[used - 1].data
    ensures AllBytes(writes) == ReadBytes(turns[..used - 1]) + Joined(writes[used - 1])
  {
    ReadSnoc(turns, used - 1);
  }

  /** Drip.Pipe.  drops[j] scripts the drips of turn j. */
  method DripPipe(chunkSize: int, pause: bool, turns: seq<Turn>, drops: seq<seq<Drop>>)
    returns (writes: seq<seq<seq<byte>>>, exit: Exit, used: nat)
    ensures Forwards(turns, used, AllBytes(writes), exit)
    ensures PipeEnds(if chunkSize <= 0 then 1 else chunkSize, pause, turns, drops, writes, used, exit)
  {
    var chunk: nat := if chunkSize <= 0 then 1 else chunkSize;
    writes, used := [], 0;
    while used < |turns|
      invariant WentOnAll(chunk, pause, turns, drops, writes, used)
    {
      var t := turns[used];
      if t.cancelled {
        BetweenTurns(chunk, pause, turns, drops, writes, used);
        return writes, Cancelled, used;
      }
      var out, e := DripChunk(chunk, pause, t.data, DropsAt(drops, used));
      TurnOut(chunk, pause, turns, drops, writes, used, out, e);
      writes, used := writes + [out], used + 1;
      if e != Running {
        return writes, e, used;
      }
      if t.err != NoErr {
        return writes, AfterRead(t.err), used;
      }
    }
    BetweenTurns(chunk, pause, turns, drops, writes, used);
    exit := Running;
  }
}
