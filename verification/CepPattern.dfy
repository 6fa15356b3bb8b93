/** Patterns of the complex-event engine, and what one event does to one partial match
    (pkg/cep/pattern.go, pkg/cep/dsl.go, pkg/cep/engine.go). */
module CepPatterns {
  import opened Seqs

  datatype Value = Int(i: int) | Float(x: real) | Text(s: string) | Other(id: int)

  datatype Event = Event(time: int, fields: map<string, Value>)

  datatype Quantifier = ExactlyOne | Exactly | AtLeast | AtMost | Range | OneOrMore | ZeroOrMore

  datatype TemporalKind = Within | After | Before

  datatype TemporalConstraint = TemporalConstraint(kind: TemporalKind, duration: int)

  /** `operand` stands for the library call that reads the number out of an operator text such as ">10000". */
  datatype EventPattern = EventPattern(
    kind: string, predicates: map<string, Value>, operand: string -> real, optional: bool, negated: bool,
    quantifier: Quantifier, minOccurrences: int, maxOccurrences: int, temporal: Option<TemporalConstraint>)

  datatype Pattern = Pattern(events: seq<EventPattern>, timeWindow: int, conditions: seq<Event> -> bool)

  datatype Match = Match(events: seq<Event>, firstTime: int, lastTime: int)

  // ------------------------------------------------------------------
  // Matching one event against one step
  // ------------------------------------------------------------------

  function Kind(e: Event): Option<string> {
    if "type" in e.fields && e.fields["type"].Text? then Some(e.fields["type"].s) else None
  }

  predicate IsOperator(v: Value) {
    v.Text? && |v.s| > 0 && (v.s[0] == '>' || v.s[0] == '<')
  }

  function Number(v: Value): Option<real> {
    match v
    case Int(i) => Some(i as real)
    case Float(x) => Some(x)
    case _ => None
  }

  predicate OperatorHolds(actual: Value, text: string, operand: string -> real) {
    && |text| >= 2
    && Number(actual).Some?
    && if text[0] == '>' then Number(actual).value > operand(text[1..])
       else text[0] == '<' && Number(actual).value < operand(text[1..])
  }

  predicate FieldMatches(e: Event, ep: EventPattern, key: string, expected: Value) {
    && key in e.fields
    && if IsOperator(expected) then OperatorHolds(e.fields[key], expected.s, ep.operand) else e.fields[key] == expected
  }

  /** The engine's test: an event without a string type never matches, and operator texts compare numbers. */
  predicate EngineMatches(e: Event, ep: EventPattern) {
    && Kind(e) == Some(ep.kind)
    && forall key :: key in ep.predicates ==> FieldMatches(e, ep, key, ep.predicates[key])
  }

  predicate Satisfied(ep: EventPattern, count: int) {
    match ep.quantifier
    case ExactlyOne => count >= 1
    case Exactly => count >= ep.minOccurrences
    case AtLeast => count >= ep.minOccurrences
    case AtMost => 1 <= count <= ep.maxOccurrences
    case Range => count >= ep.minOccurrences
    case OneOrMore => count >= 1
    case ZeroOrMore => true
  }

  predicate TooLate(ep: EventPattern, gap: int) {
    ep.temporal.Some? && !ep.temporal.value.kind.After? && gap > ep.temporal.value.duration
  }

  predicate TooEarly(ep: EventPattern, gap: int) {
    ep.temporal.Some? && ep.temporal.value.kind.After? && gap < ep.temporal.value.duration
  }

  // ------------------------------------------------------------------
  // Partial matches
  // ------------------------------------------------------------------

  datatype Partial = Partial(
    matched: seq<Event>, step: nat, startTime: int, lastTime: int, counts: map<nat, nat>, buffer: seq<Event>)

  /** What becomes of a partial match. */
  datatype Life = Active(pm: Partial) | Emitted(pm: Partial) | Gone

  function Count(counts: map<nat, nat>, s: nat): nat {
    if s in counts then counts[s] else 0
  }

  predicate CanStart(p: Pattern, e: Event) {
    |p.events| > 0 && !p.events[0].negated && EngineMatches(e, p.events[0])
  }

  function Create(p: Pattern, e: Event): Partial
    requires |p.events| > 0
  {
    Partial([e], if Satisfied(p.events[0], 1) then 1 else 0, e.time, e.time, map[0 := 1], [])
  }

  function IfCompleted(p: Pattern, pm: Partial): Life {
    if pm.step < |p.events| then Active(pm)
    else if p.conditions(pm.matched) then Emitted(pm)
    else Gone
  }

  predicate SomeMatch(buffer: seq<Event>, ep: EventPattern) {
    exists i :: 0 <= i < |buffer| && EngineMatches(buffer[i], ep)
  }

  function Consumed(pm: Partial, e: Event): Partial {
    pm.(counts := pm.counts[pm.step := Count(pm.counts, pm.step) + 1], matched := pm.matched + [e], lastTime := e.time)
  }

  function TryAdvance(p: Pattern, pm: Partial, e: Event): Life
    decreases |p.events| - pm.step
  {
    if pm.step >= |p.events| then Emitted(pm) else
      var ep := p.events[pm.step];
      if ep.negated then
        var buffer := pm.buffer + [e];
        if SomeMatch(buffer, ep) then Gone
        else if ep.temporal.Some? && e.time - pm.lastTime > ep.temporal.value.duration then
          IfCompleted(p, pm.(step := pm.step + 1, buffer := []))
        else Active(pm.(buffer := buffer))
      else if !EngineMatches(e, ep) then
        if ep.optional then TryAdvance(p, pm.(step := pm.step + 1), e) else Gone
      else if TooLate(ep, e.time - pm.lastTime) then Gone
      else if TooEarly(ep, e.time - pm.lastTime) then Active(pm)
      else
        var next := Consumed(pm, e);
        if Satisfied(ep, next.counts[pm.step]) then IfCompleted(p, next.(step := pm.step + 1)) else Active(next)
  }

  // ------------------------------------------------------------------
  // Runs
  // ------------------------------------------------------------------

  /** An event reaches the engine at clock time `now`, or the background cleanup fires. */
  datatype Step = Arrive(event: Event, now: int) | Tick(now: int)

  predicate TimedOut(p: Pattern, timeout: int, pm: Partial, now: int) {
    && timeout != 0
    && now - pm.lastTime > if p.timeWindow > 0 && p.timeWindow < timeout then p.timeWindow else timeout
  }

  predicate OutsideWindow(p: Pattern, pm: Partial, e: Event) {
    p.timeWindow > 0 && e.time - pm.startTime > p.timeWindow
  }

  function AfterStep(p: Pattern, timeout: int, pm: Partial, step: Step): Life {
    if TimedOut(p, timeout, pm, step.now) then Gone
    else if step.Tick? then Active(pm)
    else if OutsideWindow(p, pm, step.event) then Gone
    else TryAdvance(p, pm, step.event)
  }

  function ActiveOf(l: Life): seq<Partial> {
    if l.Active? then [l.pm] else []
  }

  function MatchOf(l: Life): seq<Match> {
    if l.Emitted? then [Match(l.pm.matched, l.pm.startTime, l.pm.lastTime)] else []
  }

  function Kept(p: Pattern, timeout: int, pms: seq<Partial>, step: Step): seq<Partial> {
    if pms == [] then [] else
      Kept(p, timeout, pms[..|pms| - 1], step) + ActiveOf(AfterStep(p, timeout, pms[|pms| - 1], step))
  }

  function Completed(p: Pattern, timeout: int, pms: seq<Partial>, step: Step): seq<Match> {
    if pms == [] then [] else
      Completed(p, timeout, pms[..|pms| - 1], step) + MatchOf(AfterStep(p, timeout, pms[|pms| - 1], step))
  }

  /** The partial match a step starts, if any. */
  function Begun(p: Pattern, step: Step): Life {
    if step.Arrive? && CanStart(p, step.event) then Active(Create(p, step.event)) else Gone
  }

  function NextState(p: Pattern, timeout: int, pms: seq<Partial>, step: Step): seq<Partial> {
    Kept(p, timeout, pms, step) + ActiveOf(Begun(p, step))
  }

  /** The partial matches of one registered pattern after a run. */
  function State(p: Pattern, timeout: int, run: seq<Step>): seq<Partial> {
    if run == [] then [] else NextState(p, timeout, State(p, timeout, run[..|run| - 1]), run[|run| - 1])
  }

  /** The matches emitted by the last step of a run. */
  function EmittedLast(p: Pattern, timeout: int, run: seq<Step>): seq<Match> {
    if run == [] then [] else Completed(p, timeout, State(p, timeout, run[..|run| - 1]), run[|run| - 1])
  }

  function EmittedBy(p: Pattern, timeout: int, run: seq<Step>): seq<Match> {
    if run == [] then [] else EmittedBy(p, timeout, run[..|run| - 1]) + EmittedLast(p, timeout, run)
  }

  function Arrivals(run: seq<Step>): seq<Event> {
    if run == [] then [] else
      Arrivals(run[..|run| - 1]) + if run[|run| - 1].Arrive? then [run[|run| - 1].event] else []
  }

  function NextLife(p: Pattern, timeout: int, l: Life, step: Step): Life {
    if l.Active? then AfterStep(p, timeout, l.pm, step) else Gone
  }

  lemma {:induction false} KeptSnoc(p: Pattern, timeout: int, pms: seq<Partial>, l: Life, step: Step)
    ensures Kept(p, timeout, pms + ActiveOf(l), step)
         == Kept(p, timeout, pms, step) + ActiveOf(NextLife(p, timeout, l, step))
    ensures Completed(p, timeout, pms + ActiveOf(l), step)
         == Completed(p, timeout, pms, step) + MatchOf(NextLife(p, timeout, l, step))
  {
    if l.Active? {
      assert (pms + [l.pm])[..|pms|] == pms;
    } else {
      assert pms + [] == pms;
    }
  }

  // ------------------------------------------------------------------
  // One start at a time: the engine runs the partial matches independently
  // ------------------------------------------------------------------

  /** The life, after the run, of the partial match that step `i` may have started. */
  function Track(p: Pattern, timeout: int, run: seq<Step>, i: nat): Life
    requires i < |run|
    decreases |run|
  {
    var last := run[|run| - 1];
    if i == |run| - 1 then Begun(p, last) else
      NextLife(p, timeout, Track(p, timeout, run[..|run| - 1], i), last)
  }

  function ActiveTracks(p: Pattern, timeout: int, run: seq<Step>, k: nat): seq<Partial>
    requires k <= |run|
  {
    if k == 0 then [] else ActiveTracks(p, timeout, run, k - 1) + ActiveOf(Track(p, timeout, run, k - 1))
  }

  function EmittingTracks(p: Pattern, timeout: int, run: seq<Step>, k: nat): seq<Match>
    requires k <= |run|
  {
    if k == 0 then [] else EmittingTracks(p, timeout, run, k - 1) + MatchOf(Track(p, timeout, run, k - 1))
  }

  lemma {:induction false} StepTracks(p: Pattern, timeout: int, run: seq<Step>, k: nat)
    requires k < |run|
    ensures var before, last := run[..|run| - 1], run[|run| - 1];
            && Kept(p, timeout, ActiveTracks(p, timeout, before, k), last) == ActiveTracks(p, timeout, run, k)
            && Completed(p, timeout, ActiveTracks(p, timeout, before, k), last) == EmittingTracks(p, timeout, run, k)
  {
    if k > 0 {
      StepTracks(p, timeout, run, k - 1);
      var before, last := run[..|run| - 1], run[|run| - 1];
      KeptSnoc(p, timeout, ActiveTracks(p, timeout, before, k - 1), Track(p, timeout, before, k - 1), last);
    }
  }

  /** Partial matches never influence one another: the engine's list is, in start order, the tracks still active, and
      a step emits, in start order, the tracks it completes. */
  lemma {:induction false} StateIsTracks(p: Pattern, timeout: int, run: seq<Step>)
    ensures State(p, timeout, run) == ActiveTracks(p, timeout, run, |run|)
    ensures EmittedLast(p, timeout, run) == EmittingTracks(p, timeout, run, |run|)
  {
    if run != [] {
      StateIsTracks(p, timeout, run[..|run| - 1]);
      StepTracks(p, timeout, run, |run| - 1);
      assert MatchOf(Begun(p, run[|run| - 1])) == [];
    }
  }

  lemma {:induction false} EmissionHasTrack(p: Pattern, timeout: int, run: seq<Step>, k: nat, m: Match) returns (i: nat)
    requires k <= |run| && m in EmittingTracks(p, timeout, run, k)
    ensures i < k && MatchOf(Track(p, timeout, run, i)) == [m]
  {
    if m in MatchOf(Track(p, timeout, run, k - 1)) {
      i := k - 1;
    } else {
      i := EmissionHasTrack(p, timeout, run, k - 1, m);
    }
  }
}
