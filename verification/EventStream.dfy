/** The server-sent event stream: which blocks of lines trigger a poll, and why a trigger that goes
    through the one-slot channel is never lost. */
module EventStream {

  /** unicode.IsSpace */
  predicate IsSpace(c: char) {
    var n := c as int;
    9 <= n <= 13 || n == 32 || n == 0x85 || n == 0xA0 || n == 0x1680 || 0x2000 <= n <= 0x200A
    || n == 0x2028 || n == 0x2029 || n == 0x202F || n == 0x205F || n == 0x3000
  }

  function TrimLeft(s: string): string {
    if s != [] && IsSpace(s[0]) then TrimLeft(s[1..]) else s
  }

  function TrimRight(s: string): string {
    if s != [] && IsSpace(s[|s| - 1]) then TrimRight(s[..|s| - 1]) else s
  }

  function Trim(s: string): string { TrimRight(TrimLeft(s)) }

  predicate Spaces(s: string) { forall c :: c in s ==> IsSpace(c) }

  lemma {:induction false} TrimLeftFacts(s: string)
    ensures exists a :: Spaces(a) && s == a + TrimLeft(s)
    ensures TrimLeft(s) == [] || !IsSpace(TrimLeft(s)[0])
  {
    if s != [] && IsSpace(s[0]) {
      TrimLeftFacts(s[1..]);
      var a :| Spaces(a) && s[1..] == a + TrimLeft(s[1..]);
      assert Spaces([s[0]] + a) && s == ([s[0]] + a) + TrimLeft(s);
    } else {
      assert Spaces([]) && s == [] + TrimLeft(s);
    }
  }

  lemma {:induction false} TrimRightFacts(s: string)
    ensures exists b :: Spaces(b) && s == TrimRight(s) + b
    ensures TrimRight(s) == [] || !IsSpace(TrimRight(s)[|TrimRight(s)| - 1])
    ensures TrimRight(s) <= s
  {
    if s != [] && IsSpace(s[|s| - 1]) {
      var init, last := s[..|s| - 1], s[|s| - 1];
      TrimRightFacts(init);
      var b :| Spaces(b) && init == TrimRight(init) + b;
      assert Spaces(b + [last]) && s == TrimRight(s) + (b + [last]);
    } else {
      assert Spaces([]) && s == TrimRight(s) + [];
    }
  }

  /** Trimming cuts white space off both ends and leaves none there. */
  lemma TrimFacts(s: string)
    ensures exists a, b :: Spaces(a) && Spaces(b) && s == a + Trim(s) + b
    ensures Trim(s) == [] || (!IsSpace(Trim(s)[0]) && !IsSpace(Trim(s)[|Trim(s)| - 1]))
  {
    TrimLeftFacts(s);
    TrimRightFacts(TrimLeft(s));
    var a :| Spaces(a) && s == a + TrimLeft(s);
    var b :| Spaces(b) && TrimLeft(s) == Trim(s) + b;
    assert s == a + Trim(s) + b;
  }

  const EVENT_FIELD := "event:"
  const RULES_CHANGED := "rules_changed"

  predicate IsEventLine(line: string) { EVENT_FIELD <= line }

  function EventName(line: string): string
    requires IsEventLine(line)
  {
    Trim(line[|EVENT_FIELD|..])
  }

  /** The field's name is read through any white space around it, blanks and tabs included. */
  lemma {:induction false} TrimsBoth(a: string, name: string, b: string)
    requires Spaces(a) && Spaces(b) && name != [] && !IsSpace(name[0]) && !IsSpace(name[|name| - 1])
    ensures Trim(a + name + b) == name
  {
    TrimLeftAll(a, name + b);
    assert a + name + b == a + (name + b);
    TrimRightAll(name, b);
  }

  lemma {:induction false} TrimLeftAll(a: string, s: string)
    requires Spaces(a) && s != [] && !IsSpace(s[0])
    ensures TrimLeft(a + s) == s
  {
    if a == [] {
      assert a + s == s;
    } else {
      assert (a + s)[1..] == a[1..] + s;
      TrimLeftAll(a[1..], s);
    }
  }

  lemma {:induction false} TrimRightAll(s: string, b: string)
    requires Spaces(b) && s != [] && !IsSpace(s[|s| - 1])
    ensures TrimRight(s + b) == s
    decreases |b|
  {
    if b == [] {
      assert s + b == s;
    } else {
      assert (s + b)[..|s + b| - 1] == s + b[..|b| - 1];
      TrimRightAll(s, b[..|b| - 1]);
    }
  }

  /** White space is what Unicode calls so: in ASCII the blank and the five control characters from tab to
      carriage return, and never a letter or an underscore. */
  lemma SpaceLaw(c: char)
    ensures c as int < 0x80 ==> (IsSpace(c) <==> c == ' ' || '\t' <= c <= '\r')
    ensures c == '_' || 'a' <= c <= 'z' ==> !IsSpace(c)
  {
  }

  /** An event line names what is between the colon and the end, less the white space around it. */
  lemma EventLineName(a: string, name: string, b: string)
    requires Spaces(a) && Spaces(b) && name != [] && !IsSpace(name[0]) && !IsSpace(name[|name| - 1])
    ensures var line := "event:" + (a + name + b); IsEventLine(line) && EventName(line) == name
  {
    TrimsBoth(a, name, b);
    assert ("event:" + (a + name + b))[6..] == a + name + b;
  }

  // ---------------------------------------------------------------- the line loop

  /** The loop's variable after a line, and whether the line triggers. */
  function OnLine(event: string, line: string): (string, bool) {
    if line == "" then ("", event == RULES_CHANGED)
    else if line[0] == ':' then (event, false)
    else if IsEventLine(line) then (EventName(line), false)
    else (event, false)
  }

  function Scan(lines: seq<string>): (string, nat) {
    if lines == [] then ("", 0)
    else
      var (event, n) := Scan(lines[..|lines| - 1]);
      var (event', fires) := OnLine(event, lines[|lines| - 1]);
      (event', if fires then n + 1 else n)
  }

  /** sseStream's loop over the scanned lines. */
  method ScanLines(lines: seq<string>) returns (triggers: nat)
    ensures triggers == Scan(lines).1
  {
    var event := "";
    triggers := 0;
    for i := 0 to |lines|
      invariant (event, triggers) == Scan(lines[..i])
    {
      var line := lines[i];
      assert lines[..i + 1][..i] == lines[..i];
      if line == "" {
        if event == RULES_CHANGED {
          triggers := triggers + 1;
        }
        event := "";
      } else if line[0] == ':' {
      } else if IsEventLine(line) {
        event := EventName(line);
      }
    }
    assert lines[..|lines|] == lines;
  }

  /** So "rules_changed", with or without a blank or other white space around it, triggers at the blank
      line after it, and no other name does. */
  lemma AnnouncementTriggers(a: string, b: string, other: string)
    requires Spaces(a) && Spaces(b) && Trim(other) != "rules_changed"
    ensures Scan(["event:" + (a + "rules_changed" + b), ""]).1 == 1
    ensures Scan(["event:" + other, ""]).1 == 0
  {
    EventLineName(a, "rules_changed", b);
    ScanPair("event:" + (a + "rules_changed" + b));
    assert ("event:" + other)[6..] == other;
    ScanPair("event:" + other);
  }

  lemma ScanPair(line: string)
    requires IsEventLine(line)
    ensures Scan([line, ""]).1 == if EventName(line) == RULES_CHANGED then 1 else 0
  {
    assert [line, ""][..1] == [line] && [line][..0] == [];
    assert Scan([line]) == (EventName(line), 0);
  }

  // ---------------------------------------------------------------- blocks

  /** The lines of a stream cut at blank lines: the blocks that were terminated, and the open rest. */
  function Blocks(lines: seq<string>): (seq<seq<string>>, seq<string>) {
    if lines == [] then ([], [])
    else
      var (blocks, open) := Blocks(lines[..|lines| - 1]);
      var line := lines[|lines| - 1];
      if line == "" then (blocks + [open], []) else (blocks, open + [line])
  }

  /** i is the last event field of a block. */
  ghost predicate LastEvent(block: seq<string>, i: nat) {
    && i < |block| && IsEventLine(block[i])
    && forall j :: i < j < |block| ==> !IsEventLine(block[j])
  }

  /** The block's last event field trims to rules_changed; no data line is asked for. */
  ghost predicate Announces(block: seq<string>) {
    exists i: nat :: LastEvent(block, i) && EventName(block[i]) == RULES_CHANGED
  }

  ghost function Announcements(blocks: seq<seq<string>>): nat {
    if blocks == [] then 0
    else Announcements(blocks[..|blocks| - 1]) + if Announces(blocks[|blocks| - 1]) then 1 else 0
  }

  /** The event variable is what the open block's last event field says. */
  ghost predicate Holds(event: string, open: seq<string>) {
    && (forall i: nat :: LastEvent(open, i) ==> event == EventName(open[i]))
    && ((forall i :: 0 <= i < |open| ==> !IsEventLine(open[i])) ==> event == "")
  }

  lemma {:induction false} HasLastEvent(block: seq<string>) returns (i: nat)
    ensures LastEvent(block, i) || forall j :: 0 <= j < |block| ==> !IsEventLine(block[j])
  {
    i := 0;
    if block != [] {
      var n := |block| - 1;
      if IsEventLine(block[n]) {
        i := n;
      } else {
        i := HasLastEvent(block[..n]);
        assert forall j :: 0 <= j < n ==> block[..n][j] == block[j];
      }
    }
  }

  lemma HoldsMeansAnnounces(event: string, open: seq<string>)
    requires Holds(event, open)
    ensures event == RULES_CHANGED <==> Announces(open)
  {
    var i := HasLastEvent(open);
  }

  lemma HoldsNext(event: string, open: seq<string>, line: string)
    requires Holds(event, open) && line != ""
    ensures Holds(OnLine(event, line).0, open + [line])
  {
    var open', n := open + [line], |open|;
    assert forall j :: 0 <= j < n ==> open'[j] == open[j];
    forall i: nat | LastEvent(open', i)
      ensures OnLine(event, line).0 == EventName(open'[i])
    {
      if i < n {
        assert !IsEventLine(open'[n]);
        assert LastEvent(open, i);
      }
    }
    if forall i :: 0 <= i < |open'| ==> !IsEventLine(open'[i]) {
      assert !IsEventLine(open'[n]);
    }
  }

  /** The loop triggers exactly once per terminated block that announces a rule change. */
  lemma {:induction false} TriggersAreAnnouncements(lines: seq<string>)
    ensures Scan(lines).1 == Announcements(Blocks(lines).0)
    ensures Holds(Scan(lines).0, Blocks(lines).1)
  {
    if lines != [] {
      var init, line := lines[..|lines| - 1], lines[|lines| - 1];
      TriggersAreAnnouncements(init);
      var event, open := Scan(init).0, Blocks(init).1;
      if line == "" {
        HoldsMeansAnnounces(event, open);
        assert (Blocks(init).0 + [open])[..|Blocks(init).0|] == Blocks(init).0;
      } else {
        HoldsNext(event, open, line);
      }
    }
  }

  // ---------------------------------------------------------------- the channel

  /** The listener reads a line, or its stream ends and it connects anew; the poll loop wakes on its
      ticker, or it takes a value out of the channel (which changes nothing when there is none). */
  datatype Event = Line(text: string) | Reconnect | TickPoll | TokenPoll

  /** event: the variable of the current connection's loop.  token: the capacity-1 channel holds a
      value. */
  datatype State = State(event: string, token: bool)

  function Next(s: State, e: Event): State {
    match e
    case Line(text) =>
      var (event, fires) := OnLine(s.event, text);
      State(event, s.token || fires)
    case Reconnect => s.(event := "")
    case TickPoll => s
    case TokenPoll => s.(token := false)
  }

  function Run(events: seq<Event>): State {
    if events == [] then State("", false)
    else Next(Run(events[..|events| - 1]), events[|events| - 1])
  }

  /** The lines of each connection that has ended, and those of the current one. */
  datatype Streams = Streams(ended: seq<seq<string>>, current: seq<string>)

  function StreamsOf(events: seq<Event>): Streams {
    if events == [] then Streams([], [])
    else
      var before, e := StreamsOf(events[..|events| - 1]), events[|events| - 1];
      if e.Line? then before.(current := before.current + [e.text])
      else if e.Reconnect? then Streams(before.ended + [before.current], [])
      else before
  }

  /** Blocks that announce a change, each within one connection. */
  ghost function AnnouncedIn(streams: seq<seq<string>>): nat {
    if streams == [] then 0
    else AnnouncedIn(streams[..|streams| - 1]) + Announcements(Blocks(streams[|streams| - 1]).0)
  }

  /** Announced blocks among the first i events. */
  ghost function AnnouncedBy(events: seq<Event>, i: nat): nat
    requires i <= |events|
  {
    var s := StreamsOf(events[..i]);
    AnnouncedIn(s.ended) + Announcements(Blocks(s.current).0)
  }

  lemma {:induction false} EventVariable(events: seq<Event>)
    ensures Run(events).event == Scan(StreamsOf(events).current).0
  {
    if events != [] {
      EventVariable(events[..|events| - 1]);
      var before := StreamsOf(events[..|events| - 1]).current;
      if events[|events| - 1].Line? {
        assert (before + [events[|events| - 1].text])[..|before|] == before;
      }
    }
  }

  lemma AnnouncedStep(events: seq<Event>)
    requires events != []
    ensures var n := |events| - 1;
            var s := Run(events[..n]);
            var fires := events[n].Line? && OnLine(s.event, events[n].text).1;
            AnnouncedBy(events, |events|) == AnnouncedBy(events, n) + if fires then 1 else 0
  {
    var n := |events| - 1;
    var init := events[..n];
    var before, after := StreamsOf(init), StreamsOf(events);
    assert events[..|events|] == events;
    TriggersAreAnnouncements(before.current);
    TriggersAreAnnouncements(after.current);
    EventVariable(init);
    if events[n].Line? {
      assert (before.current + [events[n].text])[..|before.current|] == before.current;
    } else if events[n].Reconnect? {
      assert after.ended[..|before.ended|] == before.ended;
    }
  }

  /** A block cut by the end of its connection never triggers, nor does the next connection's first
      blank line in its stead. */
  lemma CutBlockIsLost(line: string)
    requires IsEventLine(line) && EventName(line) == RULES_CHANGED
    ensures !Run([Line(line), Reconnect, Line("")]).token
    ensures Run([Line(line), Line("")]).token
  {
    var a, b := [Line(line)], [Line(line), Reconnect];
    assert a[..0] == [] && b[..1] == a && [Line(line), Reconnect, Line("")][..2] == b;
    assert [Line(line), Line("")][..1] == a;
    assert Run(a) == Next(State("", false), Line(line)) && Run(a).event == RULES_CHANGED;
    assert Run(b) == State("", false);
  }

  /** No lost wake-up: the channel holds a value exactly when some block has announced a change since
      the last poll that took one out. */
  lemma {:induction false} TokenIffUnserved(events: seq<Event>) returns (last: nat)
    ensures last <= |events|
    ensures last == 0 || events[last - 1].TokenPoll?
    ensures forall j :: last <= j < |events| ==> !events[j].TokenPoll?
    ensures Run(events).token <==> AnnouncedBy(events, |events|) > AnnouncedBy(events, last)
    ensures AnnouncedBy(events, last) <= AnnouncedBy(events, |events|)
  {
    last := 0;
    if events != [] {
      var n := |events| - 1;
      var init := events[..n];
      AnnouncedStep(events);
      if events[n].TokenPoll? {
        last := |events|;
      } else {
        last := TokenIffUnserved(init);
        assert forall j :: 0 <= j < n ==> init[j] == events[j];
        assert init[..last] == events[..last] && init[..n] == events[..n];
      }
    }
  }

  /** In particular a change announced with no poll at all after it is still in the channel. */
  lemma {:induction false} UnpolledChangeIsPending(events: seq<Event>, i: nat)
    requires i < |events| && AnnouncedBy(events, i + 1) > AnnouncedBy(events, i)
    requires forall j :: i < j < |events| ==> events[j].Line? || events[j].Reconnect?
    ensures Run(events).token
  {
    var last := TokenIffUnserved(events);
    AnnouncerIsLine(events, i);
    NoPollAfter(events, i, last);
    AnnouncedMonotone(events, last, i);
    AnnouncedMonotone(events, i + 1, |events|);
  }

  lemma NoPollAfter(events: seq<Event>, i: nat, last: nat)
    requires i < |events| && last <= |events| && events[i].Line?
    requires forall j :: i < j < |events| ==> events[j].Line? || events[j].Reconnect?
    requires last == 0 || events[last - 1].TokenPoll?
    ensures last <= i
  {
  }

  lemma AnnouncerIsLine(events: seq<Event>, i: nat)
    requires i < |events| && AnnouncedBy(events, i + 1) > AnnouncedBy(events, i)
    ensures events[i].Line?
  {
    var p := events[..i + 1];
    AnnouncedStep(p);
    assert p[..i + 1] == events[..i + 1] && p[..i] == events[..i];
  }

  lemma {:induction false} AnnouncedMonotone(events: seq<Event>, i: nat, j: nat)
    requires i <= j <= |events|
    ensures AnnouncedBy(events, i) <= AnnouncedBy(events, j)
    decreases j
  {
    if i < j {
      AnnouncedMonotone(events, i, j - 1);
      var p := events[..j];
      AnnouncedStep(p);
      assert p[..j] == events[..j] && p[..j - 1] == events[..j - 1];
    }
  }
}
