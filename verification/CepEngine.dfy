/** The complex-event engine as the objects it keeps: partial matches updated in place, one list per registered pattern
    (pkg/cep/engine.go). */
module CepEngines {
  import opened Seqs
  import opened CepPatterns

  class PartialMatch {
    const patternID: string
    var matchedEvents: seq<Event>
    var currentStep: nat
    var startTime: int
    var lastEventTime: int
    var eventCounts: map<nat, nat>
    var negationBuffer: seq<Event>

    constructor (patternID: string, pattern: Pattern, event: Event)
      requires |pattern.events| > 0
      ensures this.patternID == patternID && View() == Create(pattern, event)
    {
      this.patternID := patternID;
      matchedEvents := [event];
      currentStep := if Satisfied(pattern.events[0], 1) then 1 else 0;
      startTime := event.time;
      lastEventTime := event.time;
      eventCounts := map[0 := 1];
      negationBuffer := [];
    }

    function View(): Partial
      reads this
    {
      Partial(matchedEvents, currentStep, startTime, lastEventTime, eventCounts, negationBuffer)
    }
  }

  // ------------------------------------------------------------------
  // Lists of partial matches
  // ------------------------------------------------------------------

  /** The partial matches from index `i` on have the values `views`. */
  ghost predicate Untouched(pms: seq<PartialMatch>, views: seq<Partial>, i: nat)
    reads pms
  {
    |views| == |pms| && forall j {:trigger pms[j]} {:trigger views[j]} :: i <= j < |pms| ==> pms[j].View() == views[j]
  }

  ghost predicate NoRepeats(pms: seq<PartialMatch>) {
    forall i, j :: 0 <= i < j < |pms| ==> pms[i] != pms[j]
  }

  /** One pattern's list: its own partial matches, each once. */
  ghost predicate Listed(id: string, pms: seq<PartialMatch>) {
    (forall x :: x in pms ==> x.patternID == id) && NoRepeats(pms)
  }

  /** A well-formed list whose objects have the values `views`. */
  ghost predicate Holds(id: string, pms: seq<PartialMatch>, views: seq<Partial>)
    reads pms
  {
    Listed(id, pms) && Untouched(pms, views, 0)
  }

  /** `active` was picked, without repeats, from the first `i` elements. */
  ghost predicate Behind(active: seq<PartialMatch>, pms: seq<PartialMatch>, i: nat) {
    && NoRepeats(active)
    && (forall x :: x in active ==> x in pms)
    && (forall j {:trigger pms[j]} :: i <= j < |pms| ==> pms[j] !in active)
  }

  lemma {:induction false} BehindStep(active: seq<PartialMatch>, pms: seq<PartialMatch>, i: nat)
    requires NoRepeats(pms) && i < |pms| && Behind(active, pms, i)
    ensures pms[i] !in active
    ensures Behind(active, pms, i + 1) && Behind(active + [pms[i]], pms, i + 1)
    ensures forall j {:trigger pms[j]} :: i < j < |pms| ==> pms[j] != pms[i]
  {
  }

  lemma {:induction false} UntouchedSnoc(pms: seq<PartialMatch>, views: seq<Partial>, pm: PartialMatch, view: Partial)
    requires Untouched(pms, views, 0) && pm.View() == view
    ensures Untouched(pms + [pm], views + [view], 0)
  {
  }

  lemma {:induction false} KeptAt(p: Pattern, timeout: int, before: seq<Partial>, i: nat, step: Step) returns (l: Life)
    requires i < |before|
    ensures l == AfterStep(p, timeout, before[i], step)
    ensures var kept := Kept(p, timeout, before[..i], step);
            Kept(p, timeout, before[..i + 1], step) == if l.Active? then kept + [l.pm] else kept
    ensures var done := Completed(p, timeout, before[..i], step);
            Completed(p, timeout, before[..i + 1], step)
            == if l.Emitted? then done + [Match(l.pm.matched, l.pm.startTime, l.pm.lastTime)] else done
  {
    assert before[..i + 1][..i] == before[..i];
    l := AfterStep(p, timeout, before[i], step);
  }

  // ------------------------------------------------------------------
  // The lists of all patterns
  // ------------------------------------------------------------------

  /** Every listed partial match is owned by the engine. */
  ghost predicate Owned(lists: map<string, seq<PartialMatch>>, owned: set<PartialMatch>) {
    forall k, x :: k in lists && x in lists[k] ==> x in owned
  }

  ghost predicate AllHold(
    ids: set<string>, lists: map<string, seq<PartialMatch>>, views: map<string, seq<Partial>>, owned: set<PartialMatch>)
    requires ids <= lists.Keys && ids <= views.Keys && Owned(lists, owned)
    reads owned
  {
    forall k {:trigger Holds(k, lists[k], views[k])} :: k in ids ==> Holds(k, lists[k], views[k])
  }

  lemma {:induction false} ReplaceOne(
    id: string, active: seq<PartialMatch>, now: seq<Partial>, lists: map<string, seq<PartialMatch>>,
    views: map<string, seq<Partial>>, owned: set<PartialMatch>, wider: set<PartialMatch>)
    requires lists.Keys == views.Keys && id in lists
    requires Owned(lists, owned) && owned <= wider && forall x :: x in active ==> x in wider
    requires AllHold(lists.Keys - {id}, lists, views, owned) && Holds(id, active, now)
    ensures Owned(lists[id := active], wider)
    ensures AllHold(lists.Keys, lists[id := active], views[id := now], wider)
  {
    var lists', views' := lists[id := active], views[id := now];
    forall k | k in lists.Keys ensures Holds(k, lists'[k], views'[k]) {
      if k != id {
        assert Holds(k, lists[k], views[k]);
      }
    }
  }

  /** Every pattern outside `todo` has taken the step. */
  ghost predicate Moved(
    patterns: map<string, Pattern>, timeout: int, before: map<string, seq<Partial>>, now: map<string, seq<Partial>>,
    todo: set<string>, step: Step)
  {
    && now.Keys == before.Keys == patterns.Keys
    && forall k {:trigger now[k]} :: k in now ==>
         now[k] == if k in todo then before[k] else NextState(patterns[k], timeout, before[k], step)
  }

  /** The matches of one step, pattern by pattern in the order in which the patterns were visited. */
  ghost function Emissions(
    patterns: map<string, Pattern>, timeout: int, views: map<string, seq<Partial>>, step: Step, order: seq<string>)
    : seq<Match>
    requires forall k :: k in order ==> k in patterns && k in views
  {
    if order == [] then [] else
      var k := order[|order| - 1];
      Emissions(patterns, timeout, views, step, order[..|order| - 1]) + Completed(patterns[k], timeout, views[k], step)
  }

  /** Where a pass over the patterns stands when `todo` is still to be visited. */
  ghost predicate Visited(
    patterns: map<string, Pattern>, timeout: int, before: map<string, seq<Partial>>, now: map<string, seq<Partial>>,
    todo: set<string>, step: Step, order: seq<string>, matches: seq<Match>)
  {
    && Moved(patterns, timeout, before, now, todo, step)
    && todo <= patterns.Keys
    && Enumerates(order, patterns.Keys - todo)
    && matches == Emissions(patterns, timeout, before, step, order)
  }

  lemma {:induction false} VisitNext(
    patterns: map<string, Pattern>, timeout: int, before: map<string, seq<Partial>>, now: map<string, seq<Partial>>,
    todo: set<string>, step: Step, order: seq<string>, matches: seq<Match>, k: string)
    requires Visited(patterns, timeout, before, now, todo, step, order, matches) && k in todo
    ensures k in patterns && k in now
    ensures Visited(patterns, timeout, before, now[k := NextState(patterns[k], timeout, now[k], step)], todo - {k},
                    step, order + [k], matches + Completed(patterns[k], timeout, now[k], step))
  {
    assert now[k] == before[k];
    assert (order + [k])[..|order|] == order;
    assert Enumerates(order + [k], patterns.Keys - (todo - {k}));
  }

  ghost predicate Unvisited(
    lists: map<string, seq<PartialMatch>>, now: map<string, seq<PartialMatch>>, todo: set<string>)
  {
    todo <= lists.Keys && todo <= now.Keys && forall k {:trigger now[k]} :: k in todo ==> now[k] == lists[k]
  }

  lemma {:induction false} UnvisitedIsOwned(
    lists: map<string, seq<PartialMatch>>, owned: set<PartialMatch>, now: map<string, seq<PartialMatch>>,
    todo: set<string>, k: string)
    requires Owned(lists, owned) && Unvisited(lists, now, todo) && k in todo
    ensures forall x :: x in now[k] ==> x in owned
  {
  }

  /** How the source's two result flags report a life. */
  predicate Reports(l: Life, advanced: bool, completed: bool, now: Partial) {
    match l
    case Active(pm) => advanced && !completed && now == pm
    case Emitted(pm) => completed && !advanced && now == pm
    case Gone => !advanced && !completed
  }

  class CEPEngine {
    const maxBufferSize: nat
    const timeoutDuration: int
    var patterns: map<string, Pattern>
    var partialMatches: map<string, seq<PartialMatch>>
    var eventBuffer: seq<Event>
    /** For each pattern, the values of the objects on its list. */
    ghost var views: map<string, seq<Partial>>
    /** Every partial match ever put on a list. */
    ghost var owned: set<PartialMatch>

    ghost predicate Valid()
      reads this, owned
    {
      && partialMatches.Keys == views.Keys == patterns.Keys
      && Owned(partialMatches, owned)
      && AllHold(partialMatches.Keys, partialMatches, views, owned)
    }

    constructor (maxBufferSize: nat, timeoutDuration: int)
      ensures Valid() && views == map[] && eventBuffer == []
      ensures this.maxBufferSize == maxBufferSize && this.timeoutDuration == timeoutDuration
    {
      this.maxBufferSize := maxBufferSize;
      this.timeoutDuration := timeoutDuration;
      patterns, partialMatches, eventBuffer, views, owned := map[], map[], [], map[], {};
    }

    method RegisterPattern(id: string, pattern: Pattern)
      requires Valid()
      modifies this
      ensures Valid()
      ensures patterns == old(patterns)[id := pattern] && views == old(views)[id := []]
      ensures eventBuffer == old(eventBuffer)
    {
      patterns := patterns[id := pattern];
      partialMatches := partialMatches[id := []];
      views := views[id := []];
    }

    method UnregisterPattern(id: string)
      requires Valid()
      modifies this
      ensures Valid()
      ensures patterns == old(patterns) - {id} && views == old(views) - {id}
      ensures eventBuffer == old(eventBuffer)
    {
      patterns := patterns - {id};
      partialMatches := partialMatches - {id};
      views := views - {id};
    }

    // ------------------------------------------------------------------
    // One partial match
    // ------------------------------------------------------------------

    method CheckIfCompleted(pattern: Pattern, pm: PartialMatch) returns (advanced: bool, completed: bool)
      ensures Reports(IfCompleted(pattern, pm.View()), advanced, completed, pm.View())
    {
      if pm.currentStep >= |pattern.events| {
        if pattern.conditions(pm.matchedEvents) {
          return false, true;
        }
        return false, false;
      }
      return true, false;
    }

    method AnyMatches(buffer: seq<Event>, ep: EventPattern) returns (found: bool)
      ensures found == SomeMatch(buffer, ep)
    {
      for i := 0 to |buffer|
        invariant forall j :: 0 <= j < i ==> !EngineMatches(buffer[j], ep)
      {
        if EngineMatches(buffer[i], ep) {
          return true;
        }
      }
      return false;
    }

    method TryAdvanceMatch(pattern: Pattern, pm: PartialMatch, event: Event) returns (advanced: bool, completed: bool)
      modifies pm
      ensures Reports(TryAdvance(pattern, old(pm.View()), event), advanced, completed, pm.View())
      decreases |pattern.events| - pm.currentStep
    {
      if pm.currentStep >= |pattern.events| {
        return false, true;
      }
      var current := pattern.events[pm.currentStep];
      if current.negated {
        pm.negationBuffer := pm.negationBuffer + [event];
        var violated := AnyMatches(pm.negationBuffer, current);
        if violated {
          return false, false;
        }
        if current.temporal.Some? && event.time - pm.lastEventTime > current.temporal.value.duration {
          pm.currentStep := pm.currentStep + 1;
          pm.negationBuffer := [];
          advanced, completed := CheckIfCompleted(pattern, pm);
          return;
        }
        return true, false;
      }
      if !EngineMatches(event, current) {
        if current.optional {
          pm.currentStep := pm.currentStep + 1;
          advanced, completed := TryAdvanceMatch(pattern, pm, event);
          return;
        }
        return false, false;
      }
      if current.temporal.Some? {
        var timeDiff, limit := event.time - pm.lastEventTime, current.temporal.value;
        match limit.kind {
          case Within => if timeDiff > limit.duration { return false, false; }
          case After => if timeDiff < limit.duration { return true, false; }
          case Before => if timeDiff > limit.duration { return false, false; }
        }
      }
      var count := Count(pm.eventCounts, pm.currentStep) + 1;
      pm.eventCounts := pm.eventCounts[pm.currentStep := count];
      pm.matchedEvents := pm.matchedEvents + [event];
      pm.lastEventTime := event.time;
      if Satisfied(current, count) {
        pm.currentStep := pm.currentStep + 1;
        advanced, completed := CheckIfCompleted(pattern, pm);
        return;
      }
      return true, false;
    }

    // ------------------------------------------------------------------
    // One pattern
    // ------------------------------------------------------------------

    method AdvancePartialMatches(
      pattern: Pattern, pms: seq<PartialMatch>, event: Event, now: int, ghost before: seq<Partial>)
      returns (active: seq<PartialMatch>, matches: seq<Match>)
      requires NoRepeats(pms) && Untouched(pms, before, 0)
      modifies pms
      ensures NoRepeats(active) && forall x :: x in active ==> x in pms
      ensures Untouched(active, Kept(pattern, timeoutDuration, before, Arrive(event, now)), 0)
      ensures matches == Completed(pattern, timeoutDuration, before, Arrive(event, now))
    {
      active, matches := [], [];
      ghost var step := Arrive(event, now);
      for i := 0 to |pms|
        invariant Behind(active, pms, i)
        invariant Untouched(pms, before, i)
        invariant Untouched(active, Kept(pattern, timeoutDuration, before[..i], step), 0)
        invariant matches == Completed(pattern, timeoutDuration, before[..i], step)
      {
        active, matches := AdvanceAt(pattern, pms, i, event, now, active, matches, before);
      }
      assert before[..|pms|] == before;
    }

    /** The round of that loop for the partial match at index `i`. */
    method AdvanceAt(
      pattern: Pattern, pms: seq<PartialMatch>, i: nat, event: Event, now: int, active: seq<PartialMatch>,
      matches: seq<Match>, ghost before: seq<Partial>)
      returns (active': seq<PartialMatch>, matches': seq<Match>)
      requires NoRepeats(pms) && i < |pms| && Behind(active, pms, i) && Untouched(pms, before, i)
      requires Untouched(active, Kept(pattern, timeoutDuration, before[..i], Arrive(event, now)), 0)
      requires matches == Completed(pattern, timeoutDuration, before[..i], Arrive(event, now))
      modifies pms[i]
      ensures Behind(active', pms, i + 1) && Untouched(pms, before, i + 1)
      ensures Untouched(active', Kept(pattern, timeoutDuration, before[..i + 1], Arrive(event, now)), 0)
      ensures matches' == Completed(pattern, timeoutDuration, before[..i + 1], Arrive(event, now))
    {
      active', matches' := active, matches;
      var pm := pms[i];
      ghost var step := Arrive(event, now);
      ghost var l := KeptAt(pattern, timeoutDuration, before, i, step);
      BehindStep(active, pms, i);
      var kept, emitted := AdvanceOne(pattern, pm, event, now);
      assert Reports(l, kept, emitted, pm.View());
      if emitted {
        matches' := matches + [Match(pm.matchedEvents, pm.startTime, pm.lastEventTime)];
      } else if kept {
        UntouchedSnoc(active, Kept(pattern, timeoutDuration, before[..i], step), pm, l.pm);
        active' := active + [pm];
      }
    }

    /** What happens to one partial match. */
    method AdvanceOne(pattern: Pattern, pm: PartialMatch, event: Event, now: int) returns (kept: bool, emitted: bool)
      modifies pm
      ensures Reports(AfterStep(pattern, timeoutDuration, old(pm.View()), Arrive(event, now)), kept, emitted, pm.View())
    {
      if TimedOut(pattern, timeoutDuration, pm.View(), now) {
        return false, false;
      }
      if pattern.timeWindow > 0 {
        if event.time - pm.startTime > pattern.timeWindow {
          return false, false;
        }
      }
      kept, emitted := TryAdvanceMatch(pattern, pm, event);
    }

    /** The partial matches of one pattern move on, and a new one may start. */
    method AdvancePattern(
      id: string, pattern: Pattern, pms: seq<PartialMatch>, event: Event, now: int, ghost before: seq<Partial>)
      returns (active: seq<PartialMatch>, matches: seq<Match>)
      requires Holds(id, pms, before)
      modifies pms
      ensures Holds(id, active, NextState(pattern, timeoutDuration, before, Arrive(event, now)))
      ensures matches == Completed(pattern, timeoutDuration, before, Arrive(event, now))
    {
      active, matches := AdvancePartialMatches(pattern, pms, event, now, before);
      if CanStart(pattern, event) {
        var newMatch := new PartialMatch(id, pattern, event);
        active := active + [newMatch];
      }
    }

    /** The same, seen from the lists of all patterns: the others' partial matches do not move. */
    method MovePattern(
      id: string, pattern: Pattern, lists: map<string, seq<PartialMatch>>, event: Event, now: int,
      ghost before: map<string, seq<Partial>>, ghost owners: set<PartialMatch>)
      returns (active: seq<PartialMatch>, matches: seq<Match>)
      requires lists.Keys == before.Keys && id in lists && Owned(lists, owners)
      requires AllHold(lists.Keys, lists, before, owners)
      modifies lists[id]
      ensures Holds(id, active, NextState(pattern, timeoutDuration, before[id], Arrive(event, now)))
      ensures matches == Completed(pattern, timeoutDuration, before[id], Arrive(event, now))
      ensures AllHold(lists.Keys - {id}, lists, before, owners)
    {
      assert Holds(id, lists[id], before[id]);
      active, matches := AdvancePattern(id, pattern, lists[id], event, now, before[id]);
      forall k | k in lists.Keys - {id} ensures Holds(k, lists[k], before[k]) {
        assert old(Holds(k, lists[k], before[k]));
        assert forall x :: x in lists[k] ==> x !in lists[id];
        assert forall j {:trigger lists[k][j]} :: 0 <= j < |lists[k]| ==> lists[k][j] in lists[k];
      }
    }

    /** One list is replaced; the other patterns' lists are as they were. */
    method Replace(id: string, active: seq<PartialMatch>, ghost now: seq<Partial>)
      requires partialMatches.Keys == views.Keys == patterns.Keys && id in patterns && Owned(partialMatches, owned)
      requires Holds(id, active, now)
      requires AllHold(partialMatches.Keys - {id}, partialMatches, views, owned)
      modifies this`partialMatches, this`views, this`owned
      ensures Valid()
      ensures partialMatches == old(partialMatches)[id := active] && views == old(views)[id := now]
    {
      ghost var wider := owned + set x | x in active;
      ReplaceOne(id, active, now, partialMatches, views, owned, wider);
      partialMatches := partialMatches[id := active];
      views := views[id := now];
      owned := wider;
    }

    /** The body of the source's loop for one pattern. */
    method ProcessPattern(id: string, event: Event, now: int)
      returns (matches: seq<Match>, active: seq<PartialMatch>)
      requires Valid() && id in patterns
      modifies this`partialMatches, this`views, this`owned, partialMatches[id]
      ensures Valid()
      ensures partialMatches == old(partialMatches)[id := active]
      ensures views == old(views)[id := NextState(patterns[id], timeoutDuration, old(views)[id], Arrive(event, now))]
      ensures matches == Completed(patterns[id], timeoutDuration, old(views)[id], Arrive(event, now))
    {
      active, matches := MovePattern(id, patterns[id], partialMatches, event, now, views, owned);
      Replace(id, active, NextState(patterns[id], timeoutDuration, views[id], Arrive(event, now)));
    }

    method DropTimedOut(pattern: Pattern, pms: seq<PartialMatch>, now: int, ghost before: seq<Partial>)
      returns (active: seq<PartialMatch>)
      requires NoRepeats(pms) && Untouched(pms, before, 0)
      ensures NoRepeats(active) && forall x :: x in active ==> x in pms
      ensures Untouched(active, Kept(pattern, timeoutDuration, before, Tick(now)), 0)
    {
      active := [];
      for i := 0 to |pms|
        invariant Behind(active, pms, i)
        invariant Untouched(active, Kept(pattern, timeoutDuration, before[..i], Tick(now)), 0)
      {
        ghost var l := KeptAt(pattern, timeoutDuration, before, i, Tick(now));
        BehindStep(active, pms, i);
        if !TimedOut(pattern, timeoutDuration, pms[i].View(), now) {
          UntouchedSnoc(active, Kept(pattern, timeoutDuration, before[..i], Tick(now)), pms[i], l.pm);
          active := active + [pms[i]];
        }
      }
      assert before[..|pms|] == before;
    }

    // ------------------------------------------------------------------
    // One event, and the background cleanup
    // ------------------------------------------------------------------

    method ProcessEvent(event: Event, now: int) returns (matches: seq<Match>, ghost order: seq<string>)
      requires Valid()
      modifies this`eventBuffer, this`partialMatches, this`views, this`owned, owned
      ensures Valid()
      ensures var buffer := old(eventBuffer) + [event];
              eventBuffer == if |buffer| > maxBufferSize then buffer[|buffer| - maxBufferSize..] else buffer
      ensures Visited(patterns, timeoutDuration, old(views), views, {}, Arrive(event, now), order, matches)
    {
      eventBuffer := eventBuffer + [event];
      if |eventBuffer| > maxBufferSize {
        eventBuffer := eventBuffer[|eventBuffer| - maxBufferSize..];
      }
      matches, order := ProcessPatterns(event, now);
    }

    /** The patterns are visited in an arbitrary order, which the result reports. */
    method ProcessPatterns(event: Event, now: int) returns (matches: seq<Match>, ghost order: seq<string>)
      requires Valid()
      modifies this`partialMatches, this`views, this`owned, owned
      ensures Valid()
      ensures Visited(patterns, timeoutDuration, old(views), views, {}, Arrive(event, now), order, matches)
    {
      matches, order := [], [];
      ghost var before, lists, step, everyone := views, partialMatches, Arrive(event, now), owned;
      var todo := patterns.Keys;
      while todo != {}
        invariant Valid()
        invariant Unvisited(lists, partialMatches, todo)
        invariant Visited(patterns, timeoutDuration, before, views, todo, step, order, matches)
        decreases todo
      {
        var id :| id in todo;
        VisitNext(patterns, timeoutDuration, before, views, todo, step, order, matches, id);
        UnvisitedIsOwned(lists, everyone, partialMatches, todo, id);
        var more, active := ProcessPattern(id, event, now);
        matches := matches + more;
        order := order + [id];
        todo := todo - {id};
      }
    }

    /** The body of the cleanup's loop for one pattern. */
    method CleanPattern(id: string, now: int)
      requires Valid() && id in patterns
      modifies this`partialMatches, this`views, this`owned
      ensures Valid()
      ensures views == old(views)[id := NextState(patterns[id], timeoutDuration, old(views)[id], Tick(now))]
    {
      assert Holds(id, partialMatches[id], views[id]);
      var active := DropTimedOut(patterns[id], partialMatches[id], now, views[id]);
      assert ActiveOf(Begun(patterns[id], Tick(now))) == [];
      Replace(id, active, NextState(patterns[id], timeoutDuration, views[id], Tick(now)));
    }

    method CleanupTimedOutMatches(now: int)
      requires Valid()
      modifies this`partialMatches, this`views, this`owned
      ensures Valid()
      ensures Moved(patterns, timeoutDuration, old(views), views, {}, Tick(now))
    {
      ghost var before := views;
      var todo := patterns.Keys;
      while todo != {}
        invariant Valid() && todo <= patterns.Keys
        invariant Moved(patterns, timeoutDuration, before, views, todo, Tick(now))
        decreases todo
      {
        var id :| id in todo;
        CleanPattern(id, now);
        todo := todo - {id};
      }
    }
  }
}
