/** handleCacheBox as one request path runs it: bodies are consumed and replaced, the transport is called,
    the store and the recorder are changed in place.  Each path is a run of the dispatcher's steps. */
module Interceptors {
  import opened Base
  import opened RequestKey
  import opened BodyCapture
  import opened Recorders
  import opened CacheBox
  import Lru

  datatype Reply = Reply(statusCode: int, header: Header, body: Body)

  /** What the downstream service does. */
  datatype Service = Error | Success(reply: Reply, latency: int, at: int)

  /** The base RoundTripper: it logs each request with the body it was given. */
  class Transport {
    var sent: seq<Sent>
    const answer: Service

    constructor (answer: Service)
      ensures sent == [] && this.answer == answer
    {
      this.answer, sent := answer, [];
    }

    method RoundTrip(id: nat, req: Request, body: Body?) returns (up: Service)
      modifies this
      ensures up == answer
      ensures sent == old(sent) + [Sent(id, req, StreamOf(body).Contents())]
    {
      sent := sent + [Sent(id, req, StreamOf(body).Contents())];
      up := answer;
    }
  }

  function StreamOf(body: Body?): (s: Stream)
    reads body
    ensures body == null ==> s == NO_BODY
    ensures body != null ==> s.buffered == body.buffered && s.rest == body.rest && s.script == body.script
  {
    if body == null then NO_BODY else body.View()
  }

  function UpstreamOf(o: Service): (u: Upstream)
    reads if o.Success? then {o.reply.body} else {}
    ensures o.Error? <==> u.Down?
    ensures o.Success? ==>
              && u.statusCode == o.reply.statusCode && u.header == o.reply.header && u.body == o.reply.body.View()
              && u.latency == o.latency && u.at == o.at
  {
    if o.Error? then Down
    else Answer(o.reply.statusCode, o.reply.header, o.reply.body.View(), o.latency, o.at)
  }

  /** The reply handed to the caller, as a value. */
  function ResponseOf(reply: Option<Reply>): (r: Option<Response>)
    reads if reply.Some? then {reply.value.body} else {}
    ensures reply.None? <==> r.None?
    ensures reply.Some? ==>
              && r.value.statusCode == reply.value.statusCode && r.value.header == reply.value.header
              && r.value.body == reply.value.body.Contents()
  {
    if reply.None? then None
    else Some(Response(reply.value.statusCode, reply.value.header, reply.value.body.Contents()))
  }

  class Interceptor {
    const recorder: Recorder
    const strategy: Strategy
    const maxBody: nat
    const base: Transport

    ghost predicate Valid()
      reads this, recorder, recorder.store
    {
      recorder.Valid()
    }

    function Config(): Setup { Setup(recorder.cfg, strategy, maxBody) }

    constructor (recorder: Recorder, strategy: Strategy, maxBody: nat, base: Transport)
      requires recorder.Valid()
      ensures Valid() && this.recorder == recorder && this.strategy == strategy && this.maxBody == maxBody
      ensures this.base == base
    {
      this.recorder, this.strategy, this.maxBody, this.base := recorder, strategy, maxBody, base;
    }

    /** Forward the request, hand the whole response on, and offer it to the recorder exactly when it
        fits.  There is no reply when the service gives none or its body cannot be read. */
    method CacheBoxPassthrough(id: nat, req: Request, reqBody: Body?, captured: seq<byte>, key: string)
      returns (reply: Option<Reply>)
      requires Valid() && (base.answer.Success? ==> base.answer.reply.body != reqBody)
      modifies recorder, base, if base.answer.Success? then {base.answer.reply.body} else {}
      ensures Valid()
      ensures base.sent == old(base.sent) + [Sent(id, req, old(StreamOf(reqBody)).Contents())]
      ensures ResponseOf(reply) == Passed(maxBody, key, old(UpstreamOf(base.answer)))
      ensures reply.Some? ==> reply.value.body == base.answer.reply.body
      ensures base.answer.Success? && reply.None? ==> base.answer.reply.body.closed
      ensures recorder.state
              == var up := old(UpstreamOf(base.answer));
                 if Fits(maxBody, up)
                 then RecordCall(recorder.cfg, old(recorder.state), RecordOf(req, captured, up))
                 else old(recorder.state)
    {
      ghost var seen := UpstreamOf(base.answer);
      var up := base.RoundTrip(id, req, reqBody);
      if up.Error? {
        return None;
      }
      assert up.reply.body.View() == seen.body;
      var peeked, failed := up.reply.body.Peek(CopyN, maxBody);
      if failed {
        up.reply.body.closed := true;
        return None;
      }
      PeekKeeps(CopyN, seen.body, maxBody);
      assert up.reply.body.Contents() == seen.body.Contents();
      if peeked.None? {
        return Some(up.reply);
      }
      var rec := Record(req, captured, up.reply.statusCode, Some(up.reply.header), peeked.value, up.latency, up.at);
      var ok := recorder.Record(rec);
      reply := Some(up.reply.(header := TaggedHeader(up.reply.header, key, up.latency)));
    }

    /** A fresh response built from the entry. */
    method CacheBoxServe(entry: Entry, key: string, mode: Mode, delay: int) returns (reply: Reply)
      ensures fresh(reply.body) && reply.body.Contents() == entry.body
      ensures reply.statusCode == entry.statusCode && reply.header == ServedHeader(entry, key, mode, delay)
    {
      var body := new Body(Stream(entry.body, [], []));
      reply := Reply(entry.statusCode, ServedHeader(entry, key, mode, delay), body);
    }

    /** Look the key up; serve a hit, after the delay of a replay with delay, unless cancelled in it. */
    method TryReplay(key: string, mode: Mode, now: int, delay: int, cancelled: bool)
      returns (hit: bool, reply: Option<Reply>)
      requires Valid()
      modifies recorder, recorder.store
      ensures Valid()
      ensures recorder.state == Recorders.Next(recorder.cfg, old(recorder.state), Outside(Lru.Get(key, now)))
      ensures var found := Lru.Lookup(recorder.cfg.store, old(recorder.state).drain.store, key, now);
              && hit == found.Some?
              && (hit ==> ResponseOf(reply) == Replayed(found.value, key, mode, delay, cancelled))
      ensures hit && reply.Some? ==> fresh(reply.value.body)
    {
      var found := recorder.Lookup(key, now);
      if found.None? {
        return false, None;
      }
      var wait := if mode.ReplayDelay? then delay else 0;
      if wait > 0 && cancelled {
        return true, None;
      }
      var served := CacheBoxServe(found.value, key, mode, wait);
      return true, Some(served);
    }

    /** The key of the request, from its body exactly when the strategy reads bodies, this one fits and
        no read of it breaks; and what is then left of the body to forward. */
    method RequestKey(req: Request, reqBody: Body?) returns (key: string, captured: seq<byte>)
      modifies reqBody
      ensures captured == Captured(strategy, maxBody, old(StreamOf(reqBody)))
      ensures key == recorder.cfg.keyFn(req, captured)
      ensures StreamOf(reqBody).Contents() == Onward(strategy, maxBody, old(StreamOf(reqBody)))
    {
      captured := [];
      if strategy.ExactWithBody? {
        var c, _ := BufferRequestBody(reqBody, maxBody);
        if c.Some? { captured := c.value; }
      }
      key := recorder.cfg.keyFn(req, captured);
    }

    /** handleCacheBox: reply, upstream calls and recorder are those of the dispatcher's path. */
    method HandleCacheBox(id: nat, mode: Mode, req: Request, reqBody: Body?, now: int, delay: int, cancelled: bool)
      returns (reply: Option<Reply>)
      requires Valid() && (base.answer.Success? ==> base.answer.reply.body != reqBody)
      modifies recorder, recorder.store, base, reqBody, if base.answer.Success? then {base.answer.reply.body} else {}
      ensures Valid()
      ensures var q := KeyedOf(Config(), Arrive(id, req, old(StreamOf(reqBody)), mode, now));
              HandledAs(Config(), q, old(UpstreamOf(base.answer)), delay, cancelled,
                        old(recorder.state), old(base.sent), ResponseOf(reply), recorder.state, base.sent)
    {
      ghost var up := UpstreamOf(base.answer);
      var key, captured := RequestKey(req, reqBody);
      assert UpstreamOf(base.answer) == up;
      reply := Dispatch(id, mode, req, reqBody, captured, key, now, delay, cancelled);
    }

    /** The switch over the decision's mode. */
    method Dispatch(id: nat, mode: Mode, req: Request, reqBody: Body?, captured: seq<byte>, key: string,
                    now: int, delay: int, cancelled: bool)
      returns (reply: Option<Reply>)
      requires Valid() && (base.answer.Success? ==> base.answer.reply.body != reqBody)
      modifies recorder, recorder.store, base, if base.answer.Success? then {base.answer.reply.body} else {}
      ensures Valid()
      ensures HandledAs(Config(), Keyed(id, req, mode, now, key, captured, old(StreamOf(reqBody)).Contents()),
                        old(UpstreamOf(base.answer)), delay, cancelled,
                        old(recorder.state), old(base.sent), ResponseOf(reply), recorder.state, base.sent)
    {
      ghost var q := Keyed(id, req, mode, now, key, captured, StreamOf(reqBody).Contents());
      ghost var r, sent, up := recorder.state, base.sent, UpstreamOf(base.answer);
      if mode.Replay? || mode.ReplayDelay? {
        var hit;
        hit, reply := TryReplay(key, mode, now, delay, cancelled);
        if hit {
          HitHandled(Config(), q, up, delay, cancelled, r, sent);
          return;
        }
      } else if mode.Unknown? {
        var answer := base.RoundTrip(id, req, reqBody);
        reply := if answer.Success? then Some(answer.reply) else None;
        MissHandled(Config(), q, up, delay, cancelled, r, sent);
        return;
      }
      assert StreamOf(reqBody).Contents() == q.onward && UpstreamOf(base.answer) == up;
      reply := CacheBoxPassthrough(id, req, reqBody, captured, key);
      MissHandled(Config(), q, up, delay, cancelled, r, sent);
    }
  }
}
