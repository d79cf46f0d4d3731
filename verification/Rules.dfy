/** Compiled rules: a stable sort by priority, all-or-nothing decoding and first-match evaluation. */
module Rules {
  import opened Base

  type Labels = map<string, string>

  datatype Point = Ingress | Egress | Transient | Custom
  datatype RunMode = Background | Inline
  datatype Policy = DeduplicateByRule | DeduplicateByType | AlwaysStart

  /** A fault spec as decodeFault sees it: it yields some fault, or an error. */
  datatype FaultSpec = Decodes(fault: int) | Fails

  datatype CompiledRule = CompiledRule(
    name: string, point: string, labels: Labels, mode: string, priority: int, startPolicy: string,
    fault: Option<FaultSpec>, composed: bool)

  datatype Decision = Decision(name: string, fault: Option<int>, mode: RunMode, policy: Policy)

  datatype StaticRule = StaticRule(name: string, point: Point, labels: Labels, decision: Decision)

  datatype Request = Request(point: Point, labels: Labels)

  datatype Result<T> = Ok(value: T) | Err(rule: string)

  // ---------------------------------------------------------------- decoding

  function ParsePoint(s: string): Point {
    if s == "egress" then Egress
    else if s == "transient" then Transient
    else if s == "custom" then Custom
    else Ingress
  }

  function ParseMode(s: string): RunMode { if s == "background" then Background else Inline }

  function ParsePolicy(s: string): Policy { if s == "always_start" then AlwaysStart else DeduplicateByRule }

  /** A rule is refused when its fault does not decode or it is a composition. */
  predicate Decodable(cr: CompiledRule) {
    cr.fault != Some(Fails) && !cr.composed
  }

  function StaticOf(cr: CompiledRule): StaticRule {
    StaticRule(cr.name, ParsePoint(cr.point), cr.labels,
               Decision(cr.name, if cr.fault.Some? && cr.fault.value.Decodes? then Some(cr.fault.value.fault) else None,
                        ParseMode(cr.mode), ParsePolicy(cr.startPolicy)))
  }

  function DecodeOne(cr: CompiledRule): Result<StaticRule> {
    if cr.fault == Some(Fails) then Err(cr.name)
    else if cr.composed then Err(cr.name)
    else Ok(StaticOf(cr))
  }

  /** The words the SDK prints for what it has read. */
  function PointName(p: Point): string {
    match p
    case Ingress => "ingress"
    case Egress => "egress"
    case Transient => "transient"
    case Custom => "custom"
  }

  function ModeWord(m: RunMode): string { if m == Background then "background" else "inline" }

  function PolicyName(p: Policy): string {
    match p
    case DeduplicateByRule => "deduplicate_by_rule"
    case DeduplicateByType => "deduplicate_by_type"
    case AlwaysStart => "always_start"
  }

  /** A rule spelled out as a compiled one. */
  function Spelled(r: StaticRule, priority: int): CompiledRule {
    CompiledRule(r.name, PointName(r.point), r.labels, ModeWord(r.decision.mode), priority,
                 PolicyName(r.decision.policy),
                 if r.decision.fault.Some? then Some(Decodes(r.decision.fault.value)) else None, false)
  }

  /** Decoding reads back a rule spelled out in the SDK's own words, unless it starts by type: that word
      is printed but not read. */
  lemma SpelledRoundTripIff(r: StaticRule, priority: int)
    requires r.decision.name == r.name
    ensures DecodeOne(Spelled(r, priority)) == Ok(r) <==> r.decision.policy != DeduplicateByType
  {
    assert |"egress"| == 6 && |"transient"| == 9 && |"ingress"| == 7 && "custom"[0] != "egress"[0];
    assert |"background"| == 10 && |"always_start"| == 12;
  }

  /** A rule that starts by type comes back as one that starts by rule, and otherwise the same. */
  lemma ByTypeReadsAsByRule(r: StaticRule, priority: int)
    requires r.decision.name == r.name && r.decision.policy == DeduplicateByType
    ensures DecodeOne(Spelled(r, priority)) == Ok(r.(decision := r.decision.(policy := DeduplicateByRule)))
  {
    SpelledRoundTripIff(r.(decision := r.decision.(policy := DeduplicateByRule)), priority);
  }

  /** Words the SDK does not know, the empty one among them, read as ingress, inline and start by rule. */
  lemma UnknownWords(word: string)
    ensures word != "ingress" && word != "egress" && word != "transient" && word != "custom" ==>
              ParsePoint(word) == Ingress
    ensures word != "background" && word != "inline" ==> ParseMode(word) == Inline
    ensures word != "always_start" ==> ParsePolicy(word) == DeduplicateByRule
  {
  }

  /** A rule is refused exactly when it has a fault that does not decode or is a composition, and then
      by its name. */
  lemma RefusedIff(cr: CompiledRule)
    ensures DecodeOne(cr).Ok? <==> (cr.fault.None? || cr.fault.value.Decodes?) && !cr.composed
    ensures DecodeOne(cr).Err? ==> DecodeOne(cr).rule == cr.name
  {
  }

  /** Spelling a decoded rule out again settles its words and changes nothing that is decided by it. */
  lemma DecodeSettles(cr: CompiledRule)
    requires DecodeOne(cr).Ok?
    ensures var again := Spelled(DecodeOne(cr).value, cr.priority);
            && DecodeOne(again) == DecodeOne(cr)
            && again.labels == cr.labels && again.name == cr.name && again.fault == cr.fault
            && forall req :: Applies(again, req) <==> Applies(cr, req)
  {
    SpelledRoundTripIff(DecodeOne(cr).value, cr.priority);
  }

  // ---------------------------------------------------------------- the stable sort

  /** Puts x, which came earlier in the list than all of s, before everything not above it. */
  function Insert(x: CompiledRule, s: seq<CompiledRule>): seq<CompiledRule> {
    if s == [] || x.priority >= s[0].priority then [x] + s
    else [s[0]] + Insert(x, s[1..])
  }

  function StableSort(s: seq<CompiledRule>): seq<CompiledRule> {
    if s == [] then [] else Insert(s[0], StableSort(s[1..]))
  }

  predicate Descending(s: seq<CompiledRule>) {
    |s| <= 1 || (s[0].priority >= s[1].priority && Descending(s[1..]))
  }

  /** The rules of one priority, in list order. */
  function OfPriority(s: seq<CompiledRule>, p: int): seq<CompiledRule> {
    if s == [] then []
    else (if s[0].priority == p then [s[0]] else []) + OfPriority(s[1..], p)
  }

  lemma {:induction false} InsertFacts(x: CompiledRule, s: seq<CompiledRule>, p: int)
    requires Descending(s)
    ensures Descending(Insert(x, s))
    ensures OfPriority(Insert(x, s), p) == OfPriority([x] + s, p)
    ensures Insert(x, s)[0] == x || (s != [] && Insert(x, s)[0] == s[0])
  {
    assert ([x] + s)[1..] == s;
    if s != [] && x.priority < s[0].priority {
      InsertFacts(x, s[1..], p);
      var rest := Insert(x, s[1..]);
      assert Insert(x, s)[1..] == rest;
      assert ([x] + s[1..])[1..] == s[1..];
      OfPriorityBelow(x, s, p);
    }
  }

  lemma OfPriorityBelow(x: CompiledRule, s: seq<CompiledRule>, p: int)
    requires s != [] && x.priority < s[0].priority
    ensures OfPriority([x] + s, p)
            == (if s[0].priority == p then [s[0]] else []) + OfPriority([x] + s[1..], p)
  {
  }

  /** The sort is descending and keeps the list order within each priority. */
  lemma {:induction false} StableSortFacts(s: seq<CompiledRule>, p: int)
    ensures Descending(StableSort(s))
    ensures OfPriority(StableSort(s), p) == OfPriority(s, p)
  {
    if s != [] {
      StableSortFacts(s[1..], p);
      InsertFacts(s[0], StableSort(s[1..]), p);
      assert ([s[0]] + StableSort(s[1..]))[1..] == StableSort(s[1..]);
    }
  }

  lemma {:induction false} AllBelow(s: seq<CompiledRule>, p: int)
    requires Descending(s) && (s == [] || s[0].priority < p)
    ensures OfPriority(s, p) == []
  {
    if s != [] { AllBelow(s[1..], p); }
  }

  lemma SameHead(a: seq<CompiledRule>, b: seq<CompiledRule>)
    requires Descending(a) && Descending(b) && a != [] && b != []
    requires OfPriority(a, a[0].priority) == OfPriority(b, a[0].priority)
    requires OfPriority(a, b[0].priority) == OfPriority(b, b[0].priority)
    ensures a[0] == b[0]
  {
    HeadPriority(a);
    HeadPriority(b);
    if a[0].priority > b[0].priority { AllBelow(b, a[0].priority); }
    if a[0].priority < b[0].priority { AllBelow(a, b[0].priority); }
  }

  lemma {:induction false} DescendingUnique(a: seq<CompiledRule>, b: seq<CompiledRule>)
    requires Descending(a) && Descending(b)
    requires forall p :: OfPriority(a, p) == OfPriority(b, p)
    ensures a == b
    decreases |a| + |b|
  {
    HeadPriority(a);
    HeadPriority(b);
    if a != [] && b != [] {
      SameHead(a, b);
      forall r ensures OfPriority(a[1..], r) == OfPriority(b[1..], r) {
        TailOfPriority(a, r);
        TailOfPriority(b, r);
      }
      DescendingUnique(a[1..], b[1..]);
      assert a == [a[0]] + a[1..] && b == [b[0]] + b[1..];
    }
  }

  /** Any stable descending sort of s, however it is computed, is StableSort(s). */
  lemma AnyStableSort(s: seq<CompiledRule>, t: seq<CompiledRule>)
    requires Descending(t) && forall p :: OfPriority(t, p) == OfPriority(s, p)
    ensures t == StableSort(s)
  {
    StableSortFacts(s, 0);
    forall p ensures OfPriority(t, p) == OfPriority(StableSort(s), p) { StableSortFacts(s, p); }
    DescendingUnique(t, StableSort(s));
  }

  lemma HeadPriority(s: seq<CompiledRule>)
    ensures s != [] ==> |OfPriority(s, s[0].priority)| > 0 && OfPriority(s, s[0].priority)[0] == s[0]
  {
  }

  lemma TailOfPriority(s: seq<CompiledRule>, r: int)
    requires s != []
    ensures OfPriority(s[1..], r) == if s[0].priority == r then OfPriority(s, r)[1..] else OfPriority(s, r)
  {
  }

  // ---------------------------------------------------------------- decoding a list

  function DecodeAll(s: seq<CompiledRule>): Result<seq<StaticRule>> {
    if s == [] then Ok([])
    else
      var r := DecodeOne(s[0]);
      if r.Err? then Err(r.rule)
      else
        var rest := DecodeAll(s[1..]);
        if rest.Err? then rest else Ok([r.value] + rest.value)
  }

  lemma {:induction false} DecodeAllFacts(s: seq<CompiledRule>)
    ensures DecodeAll(s).Ok? <==> forall i :: 0 <= i < |s| ==> Decodable(s[i])
    ensures DecodeAll(s).Ok? ==>
              && |DecodeAll(s).value| == |s|
              && forall i :: 0 <= i < |s| ==> DecodeAll(s).value[i] == StaticOf(s[i])
  {
    if s != [] {
      DecodeAllFacts(s[1..]);
      assert forall i :: 1 <= i < |s| ==> s[i] == s[1..][i - 1];
      if DecodeAll(s).Ok? {
        var v, rest := DecodeAll(s).value, DecodeAll(s[1..]).value;
        assert forall i :: 1 <= i < |s| ==> v[i] == rest[i - 1];
      }
    }
  }

  lemma {:induction false} SameMembers(s: seq<CompiledRule>, x: CompiledRule)
    ensures x in StableSort(s) <==> x in s
  {
    if s != [] {
      SameMembers(s[1..], x);
      InsertMembers(s[0], StableSort(s[1..]), x);
      assert s == [s[0]] + s[1..];
    }
  }

  lemma {:induction false} InsertMembers(y: CompiledRule, s: seq<CompiledRule>, x: CompiledRule)
    ensures x in Insert(y, s) <==> x == y || x in s
  {
    if s != [] && y.priority < s[0].priority {
      InsertMembers(y, s[1..], x);
      assert s == [s[0]] + s[1..];
    }
  }

  /** A list decodes exactly when every rule of it does. */
  lemma DecodesIffAllDo(s: seq<CompiledRule>)
    ensures DecodeAll(StableSort(s)).Ok? <==> forall x :: x in s ==> Decodable(x)
  {
    DecodeAllFacts(StableSort(s));
    forall x ensures x in StableSort(s) <==> x in s { SameMembers(s, x); }
    if forall x :: x in s ==> Decodable(x) {
      assert forall i :: 0 <= i < |StableSort(s)| ==> StableSort(s)[i] in StableSort(s);
    }
  }

  /** When a list does not decode, the error names its first refused rule in sorted order. */
  lemma {:induction false} ErrorNamesFirst(s: seq<CompiledRule>) returns (i: nat)
    requires DecodeAll(s).Err?
    ensures i < |s| && !Decodable(s[i]) && DecodeAll(s).rule == s[i].name
    ensures forall j :: 0 <= j < i ==> Decodable(s[j])
  {
    i := 0;
    if DecodeOne(s[0]).Ok? {
      var k := ErrorNamesFirst(s[1..]);
      i := k + 1;
      assert forall j :: 0 < j <= k ==> s[j] == s[1..][j - 1];
    }
  }

  /** DecodeCompiledRules: copy, sort in place, decode one by one, give up at the first failure. */
  method DecodeCompiledRules(compiled: seq<CompiledRule>) returns (r: Result<seq<StaticRule>>)
    ensures r == DecodeAll(StableSort(compiled))
    ensures r.Ok? <==> forall x :: x in compiled ==> Decodable(x)
  {
    var sorted := SortStable(compiled);
    DecodesIffAllDo(compiled);
    var rules := [];
    var i := 0;
    assert sorted[0..] == sorted && (DecodeAll(sorted).Ok? ==> [] + DecodeAll(sorted).value == DecodeAll(sorted).value);
    while i < |sorted|
      invariant 0 <= i <= |sorted|
      invariant DecodeAll(sorted[i..]).Err? ==> DecodeAll(sorted) == DecodeAll(sorted[i..])
      invariant DecodeAll(sorted[i..]).Ok? ==> DecodeAll(sorted) == Ok(rules + DecodeAll(sorted[i..]).value)
    {
      var d := DecodeOne(sorted[i]);
      ghost var rest := DecodeAll(sorted[i + 1..]);
      assert sorted[i..][1..] == sorted[i + 1..];
      if d.Err? {
        return Err(d.rule);
      }
      assert rest.Ok? ==> rules + ([d.value] + rest.value) == rules + [d.value] + rest.value;
      rules := rules + [d.value];
      i := i + 1;
    }
    assert rules + [] == rules;
    return Ok(rules);
  }

  /** sort.SliceStable with the greater-priority order. */
  method SortStable(s: seq<CompiledRule>) returns (sorted: seq<CompiledRule>)
    ensures sorted == StableSort(s)
  {
    sorted := [];
    var i := |s|;
    while i > 0
      invariant 0 <= i <= |s|
      invariant sorted == StableSort(s[i..])
    {
      i := i - 1;
      assert s[i..][1..] == s[i + 1..];
      sorted := Insert(s[i], sorted);
    }
    assert s[0..] == s;
  }

  // ---------------------------------------------------------------- evaluation

  /** labelsMatch: a missing label reads as "". */
  predicate LabelsMatch(want: Labels, have: Labels) {
    forall k :: k in want ==> (if k in have then have[k] else "") == want[k]
  }

  predicate Matches(point: Point, labels: Labels, req: Request) {
    point == req.point && LabelsMatch(labels, req.labels)
  }

  method CheckLabels(want: Labels, have: Labels) returns (ok: bool)
    ensures ok == LabelsMatch(want, have)
  {
    var left := want;
    while left != map[]
      invariant left.Keys <= want.Keys && (forall k :: k in left ==> left[k] == want[k])
      invariant LabelsMatch(want, have) <==> LabelsMatch(left, have)
      decreases |left|
    {
      var k :| k in left;
      if (if k in have then have[k] else "") != left[k] {
        return false;
      }
      left := left - {k};
    }
    return true;
  }

  function FirstMatch(rules: seq<StaticRule>, req: Request): Option<Decision> {
    if rules == [] then None
    else if Matches(rules[0].point, rules[0].labels, req) then Some(rules[0].decision)
    else FirstMatch(rules[1..], req)
  }

  /** On this request the label reads as that value, an absent one as "". */
  predicate ReadsAs(have: Labels, k: string, v: string) {
    if k in have then have[k] == v else v == ""
  }

  /** The rule is for the request's point, and every label it wants reads as wanted. */
  ghost predicate Fits(point: Point, want: Labels, req: Request) {
    point == req.point && forall k :: k in want ==> ReadsAs(req.labels, k, want[k])
  }

  /** The answer is the decision of the first rule that is for the request's injection point and whose
      wanted labels all read alike on it; there is none exactly when no rule is. */
  lemma {:induction false} FirstMatchIsFirstFit(rules: seq<StaticRule>, req: Request) returns (i: nat)
    ensures FirstMatch(rules, req).None? ==>
              forall j :: 0 <= j < |rules| ==> !Fits(rules[j].point, rules[j].labels, req)
    ensures FirstMatch(rules, req).Some? ==>
              && i < |rules| && FirstMatch(rules, req) == Some(rules[i].decision)
              && Fits(rules[i].point, rules[i].labels, req)
              && forall j :: 0 <= j < i ==> !Fits(rules[j].point, rules[j].labels, req)
  {
    i := 0;
    if rules != [] {
      MatchesIffFits(rules[0].point, rules[0].labels, req);
      if !Matches(rules[0].point, rules[0].labels, req) {
        var k := FirstMatchIsFirstFit(rules[1..], req);
        i := k + 1;
        assert forall j :: 0 < j < |rules| ==> rules[j] == rules[1..][j - 1];
      }
    }
  }

  lemma MatchesIffFits(point: Point, want: Labels, req: Request)
    ensures Matches(point, want, req) <==> Fits(point, want, req)
  {
  }

  /** Which point a compiled rule's word is for. */
  predicate WordIsFor(word: string, p: Point) {
    match p
    case Egress => word == "egress"
    case Transient => word == "transient"
    case Custom => word == "custom"
    case Ingress => word != "egress" && word != "transient" && word != "custom"
  }

  /** A compiled rule applies exactly to requests at the point its word is for, whose labels read as it
      wants them. */
  lemma AppliesIff(cr: CompiledRule, req: Request)
    ensures Applies(cr, req) <==>
              WordIsFor(cr.point, req.point) && forall k :: k in cr.labels ==> ReadsAs(req.labels, k, cr.labels[k])
  {
    assert |"egress"| == 6 && |"transient"| == 9 && "custom"[0] != "egress"[0];
  }

  predicate Applies(cr: CompiledRule, req: Request) {
    Matches(ParsePoint(cr.point), cr.labels, req)
  }

  /** i is the rule a reader of the unsorted list would pick: it applies, nothing that applies has a
      higher priority, and nothing before it has the same. */
  ghost predicate Best(s: seq<CompiledRule>, req: Request, i: nat) {
    && i < |s| && Applies(s[i], req)
    && (forall j :: 0 <= j < |s| && Applies(s[j], req) ==> s[j].priority <= s[i].priority)
    && (forall j :: 0 <= j < i && Applies(s[j], req) ==> s[j].priority < s[i].priority)
  }

  /** The first applicable rule of a list. */
  function First(s: seq<CompiledRule>, req: Request): Option<CompiledRule> {
    if s == [] then None else if Applies(s[0], req) then Some(s[0]) else First(s[1..], req)
  }

  lemma {:induction false} FirstOfInsert(x: CompiledRule, s: seq<CompiledRule>, req: Request)
    requires Descending(s)
    ensures var f := First(s, req);
            First(Insert(x, s), req)
            == if Applies(x, req) && (f.None? || x.priority >= f.value.priority) then Some(x) else f
  {
    if s == [] || x.priority >= s[0].priority {
      assert ([x] + s)[1..] == s;
      FirstAtMostHead(s, req);
    } else {
      FirstOfInsert(x, s[1..], req);
      assert Insert(x, s)[1..] == Insert(x, s[1..]);
    }
  }

  lemma {:induction false} FirstAtMostHead(s: seq<CompiledRule>, req: Request)
    requires Descending(s)
    ensures First(s, req).Some? ==> First(s, req).value.priority <= s[0].priority
  {
    if s != [] && !Applies(s[0], req) { FirstAtMostHead(s[1..], req); }
  }

  /** The first applicable rule after sorting is the best one before sorting. */
  lemma {:induction false} FirstIsBest(s: seq<CompiledRule>, req: Request) returns (i: nat)
    ensures First(StableSort(s), req).None? <==> forall j :: 0 <= j < |s| ==> !Applies(s[j], req)
    ensures First(StableSort(s), req).Some? ==> Best(s, req, i) && s[i] == First(StableSort(s), req).value
  {
    i := 0;
    if s != [] {
      var rest := s[1..];
      var k := FirstIsBest(rest, req);
      StableSortFacts(rest, 0);
      FirstOfInsert(s[0], StableSort(rest), req);
      assert forall j :: 1 <= j < |s| ==> s[j] == rest[j - 1];
      var f := First(StableSort(rest), req);
      if f.Some? && !(Applies(s[0], req) && s[0].priority >= f.value.priority) {
        i := k + 1;
      }
      if f.Some? {
        assert forall j :: 1 <= j < |s| && Applies(s[j], req) ==> rest[j - 1].priority <= rest[k].priority;
      }
    }
  }

  lemma BestUnique(s: seq<CompiledRule>, req: Request, i: nat, j: nat)
    requires Best(s, req, i) && Best(s, req, j)
    ensures i == j
  {
  }

  lemma {:induction false} DecodedFirst(s: seq<CompiledRule>, req: Request)
    requires DecodeAll(s).Ok?
    ensures FirstMatch(DecodeAll(s).value, req)
            == if First(s, req).Some? then Some(StaticOf(First(s, req).value).decision) else None
  {
    if s != [] {
      DecodedFirst(s[1..], req);
      assert DecodeAll(s).value[1..] == DecodeAll(s[1..]).value;
    }
  }

  /** Evaluating any request on decoded rules gives the decision of the applicable rule of highest
      priority, ties going to the earliest in the list as received, and nothing iff none applies. */
  lemma SortThenFirstIsBest(s: seq<CompiledRule>, req: Request)
    requires DecodeAll(StableSort(s)).Ok?
    ensures var d := FirstMatch(DecodeAll(StableSort(s)).value, req);
            && (d.None? <==> forall j :: 0 <= j < |s| ==> !Applies(s[j], req))
            && (forall i: nat :: Best(s, req, i) ==> d == Some(StaticOf(s[i]).decision))
            && (d.Some? ==> exists i: nat :: Best(s, req, i))
  {
    var i := FirstIsBest(s, req);
    DecodedFirst(StableSort(s), req);
    forall j: nat | Best(s, req, j)
      ensures FirstMatch(DecodeAll(StableSort(s)).value, req) == Some(StaticOf(s[j]).decision)
    {
      BestUnique(s, req, i, j);
    }
  }

  /** A rule label with the empty value also matches a request that lacks the label. */
  lemma EmptyLabelMatchesAbsent(k: string)
    ensures LabelsMatch(map[k := ""], map[]) && LabelsMatch(map[k := ""], map[k := ""])
  {
  }

  /** Every wanted label is present with the wanted value. */
  predicate HasAll(want: Labels, have: Labels) {
    forall k :: k in want ==> k in have && have[k] == want[k]
  }

  /** Matching is having every label, for every request, if and only if the rule wants no empty value. */
  lemma MatchingIsHavingIff(want: Labels)
    ensures (forall have :: LabelsMatch(want, have) <==> HasAll(want, have))
            <==> forall k :: k in want ==> want[k] != ""
  {
    if k :| k in want && want[k] == "" {
      assert LabelsMatch(want, want - {k}) && !HasAll(want, want - {k});
    }
  }

  // ---------------------------------------------------------------- the evaluator

  class StaticEvaluator {
    var rules: seq<StaticRule>

    constructor (rules: seq<StaticRule>)
      ensures this.rules == rules
    {
      this.rules := rules;
    }

    method SetRules(rules: seq<StaticRule>)
      modifies this
      ensures this.rules == rules
    {
      this.rules := rules;
    }

    method Evaluate(req: Request) returns (d: Option<Decision>)
      ensures d == FirstMatch(rules, req)
    {
      var i := 0;
      assert rules[0..] == rules;
      while i < |rules|
        invariant 0 <= i <= |rules|
        invariant FirstMatch(rules, req) == FirstMatch(rules[i..], req)
      {
        var r := rules[i];
        assert rules[i..][1..] == rules[i + 1..];
        i := i + 1;
        if r.point != req.point {
          continue;
        }
        var ok := CheckLabels(r.labels, req.labels);
        if !ok {
          continue;
        }
        return Some(r.decision);
      }
      return None;
    }
  }

  datatype Applied = Done | NoTarget | BadRule(rule: string)

  /** The rules part of Apply: an empty list is no change, a failing one leaves the rules alone. */
  method Apply(rules: seq<CompiledRule>, target: StaticEvaluator?) returns (r: Applied)
    modifies target
    ensures rules == [] ==> r == Done
    ensures rules != [] && target == null ==> r == NoTarget
    ensures rules != [] && target != null ==> (r == Done <==> forall x :: x in rules ==> Decodable(x))
    ensures rules != [] && r == Done ==> DecodeAll(StableSort(rules)).Ok?
    ensures target != null ==>
              target.rules == if rules != [] && r == Done then DecodeAll(StableSort(rules)).value else old(target.rules)
  {
    if |rules| == 0 {
      return Done;
    }
    if target == null {
      return NoTarget;
    }
    var decoded := DecodeCompiledRules(rules);
    if decoded.Err? {
      return BadRule(decoded.rule);
    }
    target.SetRules(decoded.value);
    return Done;
  }
}
