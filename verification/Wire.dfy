/** The transfer form of a cached entry: latency in whole microseconds. */
module Wire {
  import opened Base

  datatype WireEntry = WireEntry(
    key: string,
    statusCode: int,
    header: Option<Header>,
    body: seq<byte>,
    observedLatencyUs: int,
    recordedAt: int)

  function EntryToWire(e: Entry): WireEntry {
    WireEntry(e.key, e.statusCode, e.header, e.body, TruncDiv(e.observedLatency, 1000), e.recordedAt)
  }

  /** time.Duration(us) * time.Microsecond is an int64 product. */
  function WireToEntry(w: WireEntry): Entry {
    Entry(w.key, w.statusCode, w.header, w.body, Wrap64(w.observedLatencyUs * 1000), w.recordedAt)
  }

  /** Every field but the latency crosses as it is; the latency as its whole microseconds. */
  lemma WireFields(e: Entry)
    ensures var w := EntryToWire(e);
            && w.key == e.key && w.statusCode == e.statusCode && w.header == e.header && w.body == e.body
            && w.recordedAt == e.recordedAt
            && (e.observedLatency >= 0 ==> 0 <= e.observedLatency - 1000 * w.observedLatencyUs < 1000)
            && (e.observedLatency < 0 ==> -1000 < e.observedLatency - 1000 * w.observedLatencyUs <= 0)
  {
  }

  /** Wire to entry to wire is the identity exactly on the latencies whose nanoseconds fit. */
  lemma WireRoundTrip(w: WireEntry)
    ensures EntryToWire(WireToEntry(w)) == w <==> InInt64(w.observedLatencyUs * 1000)
  {
  }

  /** Entry to wire to entry keeps everything but the sub-microsecond part of the latency. */
  lemma EntryRoundTrip(e: Entry)
    requires InInt64(e.observedLatency)
    ensures var e' := WireToEntry(EntryToWire(e));
            && e' == e.(observedLatency := e'.observedLatency)
            && e'.observedLatency % 1000 == 0
            && (e.observedLatency >= 0 ==> 0 <= e.observedLatency - e'.observedLatency < 1000)
            && (e.observedLatency < 0 ==> -1000 < e.observedLatency - e'.observedLatency <= 0)
  {
  }

  /** A second trip over the wire changes nothing more. */
  lemma TripIdempotent(e: Entry)
    requires InInt64(e.observedLatency)
    ensures var e' := WireToEntry(EntryToWire(e)); WireToEntry(EntryToWire(e')) == e'
  {
    EntryRoundTrip(e);
    var e' := WireToEntry(EntryToWire(e));
    WrapInRange(e'.observedLatency);
    var q := TruncDiv(e.observedLatency, 1000);
    assert e'.observedLatency == q * 1000 by { WrapInRange(q * 1000); }
    assert TruncDiv(q * 1000, 1000) == q;
  }
}
