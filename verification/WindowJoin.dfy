/** The windowed join: pairs are collected per window and emitted when the watermark passes its end
    (pkg/join/window_join.go). */
module WindowJoins {
  import opened Seqs
  import opened JoinStates
  import opened JoinOperators

  datatype Window = Window(start: int, end: int)

  datatype WindowKey = WindowKey(eventKey: string, window: Window)

  /** What one window has collected. */
  datatype Pane = Pane(left: seq<Event>, right: seq<Event>, matches: seq<JoinResult>)
  {
    function Of(side: Side): seq<Event> {
      if side.LeftSide? then left else right
    }
  }

  type Panes = map<WindowKey, Pane>

  const EMPTY_PANE := Pane([], [], [])

  function PaneAt(m: Panes, k: WindowKey): Pane {
    if k in m then m[k] else EMPTY_PANE
  }

  /** The row for a pair; its time is the end of the window. */
  function PairRow(k: WindowKey, l: Event, r: Event): JoinResult {
    JoinResult(Some(l), Some(r), k.window.end, k.eventKey)
  }

  function PadRow(k: WindowKey, side: Side, e: Event): JoinResult {
    if side.LeftSide? then JoinResult(Some(e), None, k.window.end, k.eventKey)
    else JoinResult(None, Some(e), k.window.end, k.eventKey)
  }

  /** The row for an event arriving on `side` and its partner. */
  function RowWith(k: WindowKey, side: Side, e: Event, partner: Event): JoinResult {
    if side.LeftSide? then PairRow(k, e, partner) else PairRow(k, partner, e)
  }

  /** The matches an event arriving on `side` adds, in the order the other side arrived. */
  function NewMatches(cond: Pairing, k: WindowKey, side: Side, e: Event, others: seq<Event>): seq<JoinResult> {
    if others == [] then [] else
      var o := others[|others| - 1];
      NewMatches(cond, k, side, e, others[..|others| - 1])
      + if Hits(cond, side, e, o) then [RowWith(k, side, e, o)] else []
  }

  function AddToPane(cond: Pairing, k: WindowKey, p: Pane, side: Side, e: Event): Pane {
    Pane(if side.LeftSide? then p.left + [e] else p.left,
         if side.RightSide? then p.right + [e] else p.right,
         p.matches + NewMatches(cond, k, side, e, p.Of(Opposite(side))))
  }

  function Entered(cond: Pairing, m: Panes, side: Side, e: Event, window: Window): Panes {
    var k := WindowKey(e.key, window);
    m[k := AddToPane(cond, k, PaneAt(m, k), side, e)]
  }

  /** An event enters every window it is assigned to. */
  function AddToWindows(cond: Pairing, m: Panes, side: Side, e: Event, windows: seq<Window>): Panes {
    if windows == [] then m else
      Entered(cond, AddToWindows(cond, m, side, e, windows[..|windows| - 1]), side, e, windows[|windows| - 1])
  }

  lemma {:induction false} AddToWindowsSnoc(cond: Pairing, m: Panes, side: Side, e: Event, windows: seq<Window>, i: nat)
    requires i < |windows|
    ensures AddToWindows(cond, m, side, e, windows[..i + 1])
         == Entered(cond, AddToWindows(cond, m, side, e, windows[..i]), side, e, windows[i])
  {
    assert windows[..i + 1][..i] == windows[..i];
  }

  /** No event of the other side's list pairs with the given one. */
  function Lonely(cond: Pairing, side: Side, others: seq<Event>): Event -> bool {
    (e: Event) => forall i :: 0 <= i < |others| ==> !Hits(cond, side, e, others[i])
  }

  function PadRows(k: WindowKey, side: Side, es: seq<Event>): (rows: seq<JoinResult>)
    ensures |rows| == |es|
  {
    seq(|es|, i requires 0 <= i < |es| => PadRow(k, side, es[i]))
  }

  /** The padded rows of one side. */
  function Pads(t: JoinType, cond: Pairing, k: WindowKey, p: Pane, side: Side): seq<JoinResult> {
    if Preserves(t, side) then PadRows(k, side, Filter(p.Of(side), Lonely(cond, side, p.Of(Opposite(side))))) else []
  }

  /** What a window emits when it fires: its matches, then one padded row per occurrence that has no partner,
      on the sides the join type preserves. */
  function FireRows(t: JoinType, cond: Pairing, k: WindowKey, p: Pane): seq<JoinResult> {
    p.matches + (Pads(t, cond, k, p, LeftSide) + Pads(t, cond, k, p, RightSide))
  }

  function Due(m: Panes, watermark: int): set<WindowKey> {
    set k | k in m && k.window.end <= watermark
  }

  /** The rows of the windows listed in `order`, one after the other, each tagged with its window. */
  function FireEach(order: seq<WindowKey>, rowsOf: WindowKey -> seq<JoinResult>): seq<(WindowKey, JoinResult)> {
    if order == [] then [] else
      FireEach(order[..|order| - 1], rowsOf) + Tag(order[|order| - 1], rowsOf(order[|order| - 1]))
  }

  function RowsOf(t: JoinType, cond: Pairing, m: Panes): WindowKey -> seq<JoinResult> {
    (k: WindowKey) => FireRows(t, cond, k, PaneAt(m, k))
  }

  function FireAll(t: JoinType, cond: Pairing, m: Panes, order: seq<WindowKey>): seq<(WindowKey, JoinResult)> {
    FireEach(order, RowsOf(t, cond, m))
  }

  function Tag(k: WindowKey, rows: seq<JoinResult>): (tagged: seq<(WindowKey, JoinResult)>)
    ensures |tagged| == |rows|
  {
    seq(|rows|, i requires 0 <= i < |rows| => (k, rows[i]))
  }

  // ------------------------------------------------------------------
  // Each window's matches are the filtered cross product of its events
  // ------------------------------------------------------------------

  function CountOf(es: seq<Event>, e: Event): nat {
    multiset(es)[e]
  }

  /** How often the pair (l, r) has to be in the matches of a window. */
  function PairCount(cond: Pairing, p: Pane, l: Event, r: Event): nat {
    if cond(l, r) then Pairs(CountOf(p.left, l), CountOf(p.right, r)) else 0
  }

  /** Every pair of occurrences that satisfies the condition is a match exactly once; nothing else is. */
  ghost predicate CrossProduct(cond: Pairing, k: WindowKey, p: Pane) {
    && (forall l, r :: multiset(p.matches)[PairRow(k, l, r)] == PairCount(cond, p, l, r))
    && (forall row :: row in p.matches ==>
          row.left.Some? && row.right.Some? && row == PairRow(k, row.left.value, row.right.value))
  }

  lemma {:induction false} RowsDiffer(k: WindowKey, side: Side, e: Event, x: Event, y: Event)
    ensures RowWith(k, side, e, x) == RowWith(k, side, e, y) <==> x == y
  {
  }

  lemma {:induction false} NewMatchesCount(
      cond: Pairing, k: WindowKey, side: Side, e: Event, others: seq<Event>, o: Event)
    ensures multiset(NewMatches(cond, k, side, e, others))[RowWith(k, side, e, o)]
         == if Hits(cond, side, e, o) then CountOf(others, o) else 0
  {
    if others != [] {
      var others', x := others[..|others| - 1], others[|others| - 1];
      NewMatchesCount(cond, k, side, e, others', o);
      CountLast(others, o);
      RowsDiffer(k, side, e, x, o);
      CountMaybe(NewMatches(cond, k, side, e, others'), Hits(cond, side, e, x), RowWith(k, side, e, x),
                 RowWith(k, side, e, o));
    }
  }

  lemma {:induction false} NewMatchesShape(
      cond: Pairing, k: WindowKey, side: Side, e: Event, others: seq<Event>, row: JoinResult)
    requires row in NewMatches(cond, k, side, e, others)
    ensures row.left.Some? && row.right.Some? && row == PairRow(k, row.left.value, row.right.value)
    ensures e == if side.LeftSide? then row.left.value else row.right.value
  {
    if row in NewMatches(cond, k, side, e, others[..|others| - 1]) {
      NewMatchesShape(cond, k, side, e, others[..|others| - 1], row);
    }
  }

  /** The pairs an arrival adds: one for each stored occurrence of a partner. */
  lemma {:induction false} NewPairs(
      cond: Pairing, k: WindowKey, side: Side, e: Event, others: seq<Event>, l: Event, r: Event)
    ensures multiset(NewMatches(cond, k, side, e, others))[PairRow(k, l, r)]
         == if !cond(l, r) || e != (if side.LeftSide? then l else r) then 0
            else CountOf(others, if side.LeftSide? then r else l)
  {
    var rows := NewMatches(cond, k, side, e, others);
    if e == if side.LeftSide? then l else r {
      NewMatchesCount(cond, k, side, e, others, if side.LeftSide? then r else l);
    } else if PairRow(k, l, r) in rows {
      NewMatchesShape(cond, k, side, e, others, PairRow(k, l, r));
    }
  }

  lemma {:induction false} AddToPaneCounts(
      cond: Pairing, k: WindowKey, p: Pane, side: Side, e: Event, other: Side, x: Event)
    ensures CountOf(AddToPane(cond, k, p, side, e).Of(other), x)
         == CountOf(p.Of(other), x) + if other == side && x == e then 1 else 0
  {
  }

  lemma {:induction false} MoreOccurrences(es: seq<Event>, e: Event, x: Event, others: nat)
    ensures Pairs(CountOf(es + [e], x), others) == Pairs(CountOf(es, x), others) + if e == x then others else 0
    ensures Pairs(others, CountOf(es + [e], x)) == Pairs(others, CountOf(es, x)) + if e == x then others else 0
  {
    CountSnoc(es, e, x);
    OneMorePair(CountOf(es, x), others);
    OneMorePair(others, CountOf(es, x));
  }

  lemma {:induction false} AddCountsPairs(
      cond: Pairing, k: WindowKey, p: Pane, side: Side, e: Event, l: Event, r: Event)
    ensures PairCount(cond, AddToPane(cond, k, p, side, e), l, r)
         == PairCount(cond, p, l, r)
            + multiset(NewMatches(cond, k, side, e, p.Of(Opposite(side))))[PairRow(k, l, r)]
  {
    NewPairs(cond, k, side, e, p.Of(Opposite(side)), l, r);
    if cond(l, r) {
      if side.LeftSide? {
        MoreOccurrences(p.left, e, l, CountOf(p.right, r));
      } else {
        MoreOccurrences(p.right, e, r, CountOf(p.left, l));
      }
    }
  }

  lemma {:induction false} AddKeepsCrossProduct(cond: Pairing, k: WindowKey, p: Pane, side: Side, e: Event)
    requires CrossProduct(cond, k, p)
    ensures CrossProduct(cond, k, AddToPane(cond, k, p, side, e))
  {
    var p' := AddToPane(cond, k, p, side, e);
    var others := p.Of(Opposite(side));
    forall l, r ensures multiset(p'.matches)[PairRow(k, l, r)] == PairCount(cond, p', l, r) {
      AddCountsPairs(cond, k, p, side, e, l, r);
      assert multiset(p.matches)[PairRow(k, l, r)] == PairCount(cond, p, l, r);
    }
    forall row | row in p'.matches && row !in p.matches
      ensures row.left.Some? && row.right.Some? && row == PairRow(k, row.left.value, row.right.value) {
      NewMatchesShape(cond, k, side, e, others, row);
    }
  }

  ghost predicate AllCross(cond: Pairing, m: Panes) {
    forall k {:trigger m[k]} :: k in m ==> CrossProduct(cond, k, m[k])
  }

  lemma {:induction false} EnteringKeepsAllCross(cond: Pairing, m: Panes, side: Side, e: Event, w: Window)
    requires AllCross(cond, m)
    ensures AllCross(cond, Entered(cond, m, side, e, w))
  {
    var k := WindowKey(e.key, w);
    AddKeepsCrossProduct(cond, k, PaneAt(m, k), side, e) by {
      if k !in m {
        EmptyIsCross(cond, k);
      }
    }
  }

  lemma {:induction false} EmptyIsCross(cond: Pairing, k: WindowKey)
    ensures CrossProduct(cond, k, EMPTY_PANE)
  {
    NoPairs(0);
  }

  lemma {:induction false} ArrivalKeepsAllCross(cond: Pairing, m: Panes, side: Side, e: Event, windows: seq<Window>)
    requires AllCross(cond, m)
    ensures AllCross(cond, AddToWindows(cond, m, side, e, windows))
  {
    if windows != [] {
      var ws, w := windows[..|windows| - 1], windows[|windows| - 1];
      ArrivalKeepsAllCross(cond, m, side, e, ws);
      EnteringKeepsAllCross(cond, AddToWindows(cond, m, side, e, ws), side, e, w);
    }
  }

  // ------------------------------------------------------------------
  // What a firing window emits
  // ------------------------------------------------------------------

  lemma {:induction false} PadRowsCount(k: WindowKey, side: Side, es: seq<Event>, e: Event)
    ensures multiset(PadRows(k, side, es))[PadRow(k, side, e)] == CountOf(es, e)
    ensures forall row :: row in PadRows(k, side, es) ==> exists x :: x in es && row == PadRow(k, side, x)
  {
    if es != [] {
      var es', x := es[..|es| - 1], es[|es| - 1];
      PadRowsCount(k, side, es', e);
      assert es == es' + [x] && PadRows(k, side, es) == PadRows(k, side, es') + [PadRow(k, side, x)];
    }
  }

  lemma {:induction false} NoSuchRow(rows: seq<JoinResult>, row: JoinResult)
    requires forall x :: x in rows ==> x != row
    ensures multiset(rows)[row] == 0
  {
    assert row !in rows;
  }

  /** A preserved side is padded once per occurrence without a partner. */
  lemma {:induction false} PadsCount(t: JoinType, cond: Pairing, k: WindowKey, p: Pane, side: Side, e: Event)
    ensures multiset(Pads(t, cond, k, p, side))[PadRow(k, side, e)]
         == if Preserves(t, side) && Lonely(cond, side, p.Of(Opposite(side)))(e) then CountOf(p.Of(side), e) else 0
  {
    var lonely := Lonely(cond, side, p.Of(Opposite(side)));
    PadRowsCount(k, side, Filter(p.Of(side), lonely), e);
    FilterCount(p.Of(side), lonely, e);
  }

  lemma {:induction false} PadsArePadded(t: JoinType, cond: Pairing, k: WindowKey, p: Pane, side: Side, row: JoinResult)
    requires if side.LeftSide? then row.right.Some? else row.left.Some?
    ensures multiset(Pads(t, cond, k, p, side))[row] == 0
  {
    NoSuchRow(Pads(t, cond, k, p, side), row);
  }

  /** A row of a firing window joins two events or pads one, under the window's key and end. */
  lemma {:induction false} FiredRowsAreWhole(t: JoinType, cond: Pairing, k: WindowKey, p: Pane, row: JoinResult)
    requires CrossProduct(cond, k, p) && row in FireRows(t, cond, k, p)
    ensures (row.left.Some? || row.right.Some?) && row.eventTime == k.window.end && row.joinKey == k.eventKey
  {
    if row in p.matches {
      assert row == PairRow(k, row.left.value, row.right.value);
    }
  }

  /** A firing window emits each matching pair of occurrences once, one padded row per left occurrence without a partner
      in a left or full outer join, and one per right occurrence without a partner in a right or full outer join. */
  lemma {:induction false} FiringIsExact(t: JoinType, cond: Pairing, k: WindowKey, p: Pane, l: Event, r: Event)
    requires CrossProduct(cond, k, p)
    ensures var rows := multiset(FireRows(t, cond, k, p));
            && rows[JoinResult(Some(l), Some(r), k.window.end, k.eventKey)]
               == (if cond(l, r) then Pairs(CountOf(p.left, l), CountOf(p.right, r)) else 0)
            && rows[JoinResult(Some(l), None, k.window.end, k.eventKey)]
               == (if (t.LeftOuterJoin? || t.FullOuterJoin?) && forall o :: o in p.right ==> !cond(l, o)
                   then CountOf(p.left, l) else 0)
            && rows[JoinResult(None, Some(r), k.window.end, k.eventKey)]
               == (if (t.RightOuterJoin? || t.FullOuterJoin?) && forall o :: o in p.left ==> !cond(o, r)
                   then CountOf(p.right, r) else 0)
  {
    var pair, padL, padR := PairRow(k, l, r), PadRow(k, LeftSide, l), PadRow(k, RightSide, r);
    PadsCount(t, cond, k, p, LeftSide, l);
    PadsCount(t, cond, k, p, RightSide, r);
    PadsArePadded(t, cond, k, p, LeftSide, pair);
    PadsArePadded(t, cond, k, p, LeftSide, padR);
    PadsArePadded(t, cond, k, p, RightSide, pair);
    PadsArePadded(t, cond, k, p, RightSide, padL);
    NoSuchRow(p.matches, padL);
    NoSuchRow(p.matches, padR);
    LonelyMeans(cond, p, l, r);
  }

  lemma {:induction false} LonelyMeans(cond: Pairing, p: Pane, l: Event, r: Event)
    ensures Lonely(cond, LeftSide, p.right)(l) <==> forall o :: o in p.right ==> !cond(l, o)
    ensures Lonely(cond, RightSide, p.left)(r) <==> forall o :: o in p.left ==> !cond(o, r)
  {
  }

  // ------------------------------------------------------------------
  // Whole runs with watermarks
  // ------------------------------------------------------------------

  /** An event arrives, or the watermark advances and the due windows fire in some order. */
  datatype Input = Arrival(side: Side, event: Event) | Watermark(at: int, order: seq<WindowKey>)

  /** The window assigner: any function from events to windows. */
  type Assigner = Event -> seq<Window>

  function PanesStep(cond: Pairing, assign: Assigner, m: Panes, input: Input): Panes {
    match input
    case Arrival(side, e) => AddToWindows(cond, m, side, e, assign(e))
    case Watermark(at, _) => m - Due(m, at)
  }

  function PanesAfter(cond: Pairing, assign: Assigner, inputs: seq<Input>): Panes {
    if inputs == [] then map[] else
      PanesStep(cond, assign, PanesAfter(cond, assign, inputs[..|inputs| - 1]), inputs[|inputs| - 1])
  }

  function StepOutput(t: JoinType, cond: Pairing, m: Panes, input: Input): seq<(WindowKey, JoinResult)> {
    if input.Watermark? then FireAll(t, cond, m, input.order) else []
  }

  /** All rows a run emits, tagged with the window they come from. */
  function Output(t: JoinType, cond: Pairing, assign: Assigner, inputs: seq<Input>): seq<(WindowKey, JoinResult)> {
    if inputs == [] then [] else
      var before := inputs[..|inputs| - 1];
      Output(t, cond, assign, before) + StepOutput(t, cond, PanesAfter(cond, assign, before), inputs[|inputs| - 1])
  }

  /** Each watermark visits exactly the due windows, in any order. */
  ghost predicate Orderly(cond: Pairing, assign: Assigner, inputs: seq<Input>) {
    inputs == [] ||
    var before, last := inputs[..|inputs| - 1], inputs[|inputs| - 1];
    && Orderly(cond, assign, before)
    && (last.Watermark? ==> Enumerates(last.order, Due(PanesAfter(cond, assign, before), last.at)))
  }

  /** How often an event is put into window `k` when it arrives. */
  function Copies(windows: seq<Window>, e: Event, k: WindowKey): nat {
    if e.key == k.eventKey then multiset(windows)[k.window] else 0
  }

  /** Occurrences of `e` put into `k` since it last fired, and ever. */
  function Since(assign: Assigner, inputs: seq<Input>, k: WindowKey, side: Side, e: Event): nat {
    if inputs == [] then 0 else
      var n := Since(assign, inputs[..|inputs| - 1], k, side, e);
      match inputs[|inputs| - 1]
      case Arrival(s, x) => if s == side && x == e then n + Copies(assign(e), e, k) else n
      case Watermark(at, _) => if at >= k.window.end then 0 else n
  }

  function Ever(assign: Assigner, inputs: seq<Input>, k: WindowKey, side: Side, e: Event): nat {
    if inputs == [] then 0 else
      var last := inputs[|inputs| - 1];
      Ever(assign, inputs[..|inputs| - 1], k, side, e)
      + if last.Arrival? && last.side == side && last.event == e then Copies(assign(e), e, k) else 0
  }

  /** Some watermark has already reached the end of window `k`. */
  ghost predicate HasFired(inputs: seq<Input>, k: WindowKey) {
    exists i :: 0 <= i < |inputs| && inputs[i].Watermark? && inputs[i].at >= k.window.end
  }

  /** `e` never reaches window `k` after a watermark that has passed its end. */
  ghost predicate NeverLate(assign: Assigner, inputs: seq<Input>, k: WindowKey, side: Side, e: Event) {
    forall j :: 0 <= j < |inputs| && inputs[j] == Arrival(side, e) && HasFired(inputs[..j], k) ==>
      Copies(assign(e), e, k) == 0
  }

  lemma {:induction false} CopiesLast(ws: seq<Window>, e: Event, k: WindowKey)
    requires ws != []
    ensures Copies(ws, e, k) == Copies(ws[..|ws| - 1], e, k) + if k == WindowKey(e.key, ws[|ws| - 1]) then 1 else 0
  {
    CountLast(ws, k.window);
  }

  /** How often `x` is held in window `k` on `side`. */
  function HeldIn(m: Panes, k: WindowKey, side: Side, x: Event): nat {
    CountOf(PaneAt(m, k).Of(side), x)
  }

  lemma {:induction false} EnteredCounts(cond: Pairing, m: Panes, side: Side, e: Event, w: Window,
                                         k: WindowKey, other: Side, x: Event)
    ensures HeldIn(Entered(cond, m, side, e, w), k, other, x)
         == HeldIn(m, k, other, x) + if other == side && x == e && k == WindowKey(e.key, w) then 1 else 0
  {
    if k == WindowKey(e.key, w) {
      AddToPaneCounts(cond, k, PaneAt(m, k), side, e, other, x);
    } else {
      assert PaneAt(Entered(cond, m, side, e, w), k) == PaneAt(m, k);
    }
  }

  lemma {:induction false} AddToWindowsCounts(
      cond: Pairing, m: Panes, side: Side, e: Event, windows: seq<Window>, k: WindowKey, other: Side, x: Event)
    ensures HeldIn(AddToWindows(cond, m, side, e, windows), k, other, x)
         == HeldIn(m, k, other, x) + if other == side && x == e then Copies(windows, e, k) else 0
  {
    if windows != [] {
      var ws, w := windows[..|windows| - 1], windows[|windows| - 1];
      AddToWindowsCounts(cond, m, side, e, ws, k, other, x);
      EnteredCounts(cond, AddToWindows(cond, m, side, e, ws), side, e, w, k, other, x);
      CopiesLast(windows, e, k);
    }
  }

  /** A window holds what reached it since it last fired. */
  lemma {:induction false} PaneHoldsArrivals(
      cond: Pairing, assign: Assigner, inputs: seq<Input>, k: WindowKey, side: Side, e: Event)
    ensures HeldIn(PanesAfter(cond, assign, inputs), k, side, e) == Since(assign, inputs, k, side, e)
  {
    if inputs != [] {
      var before, last := inputs[..|inputs| - 1], inputs[|inputs| - 1];
      PaneHoldsArrivals(cond, assign, before, k, side, e);
      if last.Arrival? {
        AddToWindowsCounts(
          cond, PanesAfter(cond, assign, before), last.side, last.event, assign(last.event), k, side, e);
      }
    }
  }

  lemma {:induction false} PanesStayCross(cond: Pairing, assign: Assigner, inputs: seq<Input>)
    ensures AllCross(cond, PanesAfter(cond, assign, inputs))
  {
    if inputs != [] {
      var before, last := inputs[..|inputs| - 1], inputs[|inputs| - 1];
      PanesStayCross(cond, assign, before);
      if last.Arrival? {
        ArrivalKeepsAllCross(cond, PanesAfter(cond, assign, before), last.side, last.event, assign(last.event));
      }
    }
  }

  lemma {:induction false} TagCount(k: WindowKey, rows: seq<JoinResult>, k': WindowKey, row: JoinResult)
    ensures multiset(Tag(k, rows))[(k', row)] == if k == k' then multiset(rows)[row] else 0
  {
    if rows != [] {
      var rows', x := rows[..|rows| - 1], rows[|rows| - 1];
      TagCount(k, rows', k', row);
      assert rows == rows' + [x] && Tag(k, rows) == Tag(k, rows') + [(k, x)];
    }
  }

  lemma {:induction false} FireEachCount(
      order: seq<WindowKey>, rowsOf: WindowKey -> seq<JoinResult>, k: WindowKey, row: JoinResult)
    requires forall i, j :: 0 <= i < j < |order| ==> order[i] != order[j]
    ensures multiset(FireEach(order, rowsOf))[(k, row)] == if k in order then multiset(rowsOf(k))[row] else 0
  {
    if order != [] {
      var before, last := order[..|order| - 1], order[|order| - 1];
      FireEachCount(before, rowsOf, k, row);
      TagCount(last, rowsOf(last), k, row);
      assert order == before + [last];
    }
  }

  /** One step emits the pairs pending in a window when the window fires, and nothing of it otherwise. */
  lemma {:induction false} StepEmitsPending(
      t: JoinType, cond: Pairing, assign: Assigner, inputs: seq<Input>, last: Input, k: WindowKey, l: Event, r: Event)
    requires Orderly(cond, assign, inputs + [last])
    ensures multiset(StepOutput(t, cond, PanesAfter(cond, assign, inputs), last))[(k, PairRow(k, l, r))]
         == if last.Watermark? && last.at >= k.window.end && cond(l, r)
            then Pairs(Since(assign, inputs, k, LeftSide, l), Since(assign, inputs, k, RightSide, r)) else 0
  {
    var m := PanesAfter(cond, assign, inputs);
    assert (inputs + [last])[..|inputs|] == inputs;
    PaneHoldsArrivals(cond, assign, inputs, k, LeftSide, l);
    PaneHoldsArrivals(cond, assign, inputs, k, RightSide, r);
    if last.Watermark? {
      FireEachCount(last.order, RowsOf(t, cond, m), k, PairRow(k, l, r));
      PanesStayCross(cond, assign, inputs);
      if k in m {
        FiringIsExact(t, cond, k, m[k], l, r);
      }
    }
  }

  function EmittedPairs(
      t: JoinType, cond: Pairing, assign: Assigner, inputs: seq<Input>, k: WindowKey, l: Event, r: Event): nat {
    multiset(Output(t, cond, assign, inputs))[(k, PairRow(k, l, r))]
  }

  lemma {:induction false} SinceAndEver(assign: Assigner, inputs: seq<Input>, k: WindowKey, side: Side, e: Event)
    ensures Since(assign, inputs, k, side, e) <= Ever(assign, inputs, k, side, e)
    ensures !HasFired(inputs, k) ==> Since(assign, inputs, k, side, e) == Ever(assign, inputs, k, side, e)
  {
    if inputs != [] {
      var before, last := inputs[..|inputs| - 1], inputs[|inputs| - 1];
      SinceAndEver(assign, before, k, side, e);
      FiredStaysFired(before, last, k);
      assert inputs == before + [last];
    }
  }

  lemma {:induction false} FiredStaysFired(before: seq<Input>, last: Input, k: WindowKey)
    ensures HasFired(before, k) ==> HasFired(before + [last], k)
    ensures last.Watermark? && last.at >= k.window.end ==> HasFired(before + [last], k)
  {
    var inputs := before + [last];
    assert inputs[|before|] == last;
    if HasFired(before, k) {
      var i :| 0 <= i < |before| && before[i].Watermark? && before[i].at >= k.window.end;
      assert inputs[i] == before[i];
    }
  }

  /** The books of one window for one pair: emitted pairs, pending occurrences and occurrences ever. */
  datatype Ledger = Ledger(emitted: nat, pendingL: nat, pendingR: nat, everL: nat, everR: nat)

  /** Nothing is emitted twice; nothing is missing when both events are on time. */
  ghost predicate Balanced(b: Ledger, onTime: bool) {
    && b.pendingL <= b.everL && b.pendingR <= b.everR
    && b.emitted + Pairs(b.pendingL, b.pendingR) <= Pairs(b.everL, b.everR)
    && (onTime ==> b.emitted + Pairs(b.pendingL, b.pendingR) == Pairs(b.everL, b.everR))
  }

  lemma {:induction false} LeftArrives(b: Ledger, onTime: bool, c: nat)
    requires Balanced(b, onTime) && (onTime && c > 0 ==> b.pendingR == b.everR)
    ensures Balanced(b.(pendingL := b.pendingL + c, everL := b.everL + c), onTime)
  {
    MorePairs(b.pendingL, c, b.pendingR);
    MorePairs(b.everL, c, b.everR);
    PairsGrow(c, b.pendingR, b.everR);
  }

  lemma {:induction false} RightArrives(b: Ledger, onTime: bool, c: nat)
    requires Balanced(b, onTime) && (onTime && c > 0 ==> b.pendingL == b.everL)
    ensures Balanced(b.(pendingR := b.pendingR + c, everR := b.everR + c), onTime)
  {
    MorePairs(b.pendingR, c, b.pendingL);
    MorePairs(b.everR, c, b.everL);
    PairsGrow(c, b.pendingL, b.everL);
  }

  ghost function Books(
      t: JoinType, cond: Pairing, assign: Assigner, inputs: seq<Input>, k: WindowKey, l: Event, r: Event): Ledger {
    Ledger(EmittedPairs(t, cond, assign, inputs, k, l, r),
           Since(assign, inputs, k, LeftSide, l), Since(assign, inputs, k, RightSide, r),
           Ever(assign, inputs, k, LeftSide, l), Ever(assign, inputs, k, RightSide, r))
  }

  ghost predicate OnTime(assign: Assigner, inputs: seq<Input>, k: WindowKey, l: Event, r: Event) {
    NeverLate(assign, inputs, k, LeftSide, l) && NeverLate(assign, inputs, k, RightSide, r)
  }

  lemma {:induction false} NeverLatePrefix(
      assign: Assigner, before: seq<Input>, last: Input, k: WindowKey, side: Side, e: Event)
    requires NeverLate(assign, before + [last], k, side, e)
    ensures NeverLate(assign, before, k, side, e)
    ensures last == Arrival(side, e) && Copies(assign(e), e, k) > 0 ==> !HasFired(before, k)
  {
    var inputs := before + [last];
    assert inputs[..|before|] == before && inputs[|before|] == last;
    forall j | 0 <= j < |before| && before[j] == Arrival(side, e) && HasFired(before[..j], k)
      ensures Copies(assign(e), e, k) == 0 {
      assert inputs[j] == before[j] && inputs[..j] == before[..j];
    }
  }

  /** How one step changes the books: `cl` and `cr` copies arrive, or the window fires. */
  function Post(b: Ledger, fires: bool, cl: nat, cr: nat): Ledger {
    if fires then b.(emitted := b.emitted + Pairs(b.pendingL, b.pendingR), pendingL := 0, pendingR := 0)
    else b.(pendingL := b.pendingL + cl, everL := b.everL + cl, pendingR := b.pendingR + cr, everR := b.everR + cr)
  }

  /** Copies of `e` that one input puts into window `k` on `side`. */
  function Adds(assign: Assigner, input: Input, k: WindowKey, side: Side, e: Event): nat {
    if input == Arrival(side, e) then Copies(assign(e), e, k) else 0
  }

  predicate Fires(input: Input, k: WindowKey) {
    input.Watermark? && input.at >= k.window.end
  }

  lemma {:induction false} PostIsNext(b: Ledger, b': Ledger, fires: bool, cl: nat, cr: nat)
    requires b'.emitted == b.emitted + if fires then Pairs(b.pendingL, b.pendingR) else 0
    requires b'.pendingL == (if fires then 0 else b.pendingL + cl) && b'.everL == b.everL + cl
    requires b'.pendingR == (if fires then 0 else b.pendingR + cr) && b'.everR == b.everR + cr
    requires fires ==> cl == 0 && cr == 0
    ensures b' == Post(b, fires, cl, cr)
  {
  }

  lemma {:induction false} BooksSnoc(
      t: JoinType, cond: Pairing, assign: Assigner, before: seq<Input>, last: Input, k: WindowKey, l: Event, r: Event)
    requires Orderly(cond, assign, before + [last]) && cond(l, r)
    ensures Books(t, cond, assign, before + [last], k, l, r)
         == Post(Books(t, cond, assign, before, k, l, r), Fires(last, k),
                 Adds(assign, last, k, LeftSide, l), Adds(assign, last, k, RightSide, r))
  {
    var all := before + [last];
    EmittedSnoc(t, cond, assign, before, last, k, l, r);
    CountsSnoc(assign, before, last, k, LeftSide, l);
    CountsSnoc(assign, before, last, k, RightSide, r);
    PostIsNext(Books(t, cond, assign, before, k, l, r), Books(t, cond, assign, all, k, l, r), Fires(last, k),
               Adds(assign, last, k, LeftSide, l), Adds(assign, last, k, RightSide, r));
  }

  lemma {:induction false} PostKeepsBalance(b: Ledger, fires: bool, cl: nat, cr: nat, onTime: bool)
    requires Balanced(b, onTime) && (cl == 0 || cr == 0)
    requires onTime && cl > 0 ==> b.pendingR == b.everR
    requires onTime && cr > 0 ==> b.pendingL == b.everL
    ensures Balanced(Post(b, fires, cl, cr), onTime)
  {
    if !fires {
      if cr == 0 {
        LeftArrives(b, onTime, cl);
      } else {
        RightArrives(b, onTime, cr);
      }
    }
  }

  /** On-time events find the window as it was before it ever fired. */
  lemma {:induction false} OnTimeFindsAll(
      assign: Assigner, before: seq<Input>, last: Input, k: WindowKey, l: Event, r: Event)
    requires OnTime(assign, before + [last], k, l, r)
    ensures OnTime(assign, before, k, l, r)
    ensures Adds(assign, last, k, LeftSide, l) > 0 ==>
              Since(assign, before, k, RightSide, r) == Ever(assign, before, k, RightSide, r)
    ensures Adds(assign, last, k, RightSide, r) > 0 ==>
              Since(assign, before, k, LeftSide, l) == Ever(assign, before, k, LeftSide, l)
  {
    NeverLatePrefix(assign, before, last, k, LeftSide, l);
    NeverLatePrefix(assign, before, last, k, RightSide, r);
    SinceAndEver(assign, before, k, LeftSide, l);
    SinceAndEver(assign, before, k, RightSide, r);
  }

  /** What has been emitted and what is still pending never exceed the pairs of occurrences that ever reached a
      window together; when neither event is ever late they are exactly those pairs. */
  lemma {:induction false} EachPairAtMostOnce(
      t: JoinType, cond: Pairing, assign: Assigner, inputs: seq<Input>, k: WindowKey, l: Event, r: Event)
    requires Orderly(cond, assign, inputs)
    ensures !cond(l, r) ==> EmittedPairs(t, cond, assign, inputs, k, l, r) == 0
    ensures cond(l, r) ==> Balanced(Books(t, cond, assign, inputs, k, l, r), OnTime(assign, inputs, k, l, r))
    decreases |inputs|
  {
    if inputs != [] {
      var before, last := inputs[..|inputs| - 1], inputs[|inputs| - 1];
      assert inputs == before + [last];
      EachPairAtMostOnce(t, cond, assign, before, k, l, r);
      if cond(l, r) {
        var onTime := OnTime(assign, before + [last], k, l, r);
        if onTime {
          OnTimeFindsAll(assign, before, last, k, l, r);
        }
        BooksSnoc(t, cond, assign, before, last, k, l, r);
        PostKeepsBalance(Books(t, cond, assign, before, k, l, r), Fires(last, k),
                         Adds(assign, last, k, LeftSide, l), Adds(assign, last, k, RightSide, r), onTime);
      } else {
        EmittedSnoc(t, cond, assign, before, last, k, l, r);
      }
    }
  }

  lemma {:induction false} EmittedSnoc(
      t: JoinType, cond: Pairing, assign: Assigner, before: seq<Input>, last: Input, k: WindowKey, l: Event, r: Event)
    requires Orderly(cond, assign, before + [last])
    ensures EmittedPairs(t, cond, assign, before + [last], k, l, r)
         == EmittedPairs(t, cond, assign, before, k, l, r)
            + if Fires(last, k) && cond(l, r)
              then Pairs(Since(assign, before, k, LeftSide, l), Since(assign, before, k, RightSide, r)) else 0
  {
    assert (before + [last])[..|before|] == before;
    StepEmitsPending(t, cond, assign, before, last, k, l, r);
  }

  /** How one step changes the counts of an event in a window. */
  lemma {:induction false} CountsSnoc(
      assign: Assigner, before: seq<Input>, last: Input, k: WindowKey, side: Side, e: Event)
    ensures Since(assign, before + [last], k, side, e)
         == (if Fires(last, k) then 0 else Since(assign, before, k, side, e) + Adds(assign, last, k, side, e))
    ensures Ever(assign, before + [last], k, side, e)
         == Ever(assign, before, k, side, e) + Adds(assign, last, k, side, e)
  {
    assert (before + [last])[..|before|] == before;
  }

  /** A pair whose occurrences all reach the window before it fires is emitted once per pair of occurrences. */
  lemma {:induction false} PairOnTimeIsEmittedOnce(
      t: JoinType, cond: Pairing, assign: Assigner, inputs: seq<Input>, at: int,
                                order: seq<WindowKey>, k: WindowKey, l: Event, r: Event)
    requires var all := inputs + [Watermark(at, order)];
             Orderly(cond, assign, all) && at >= k.window.end && cond(l, r)
             && NeverLate(assign, all, k, LeftSide, l) && NeverLate(assign, all, k, RightSide, r)
    ensures var all := inputs + [Watermark(at, order)];
            EmittedPairs(t, cond, assign, all, k, l, r)
            == Pairs(Ever(assign, all, k, LeftSide, l), Ever(assign, all, k, RightSide, r))
  {
    var all := inputs + [Watermark(at, order)];
    EachPairAtMostOnce(t, cond, assign, all, k, l, r);
    assert Since(assign, all, k, LeftSide, l) == 0;
    NoPairs(Since(assign, all, k, RightSide, r));
  }

  // ------------------------------------------------------------------
  // Padded rows over whole runs
  // ------------------------------------------------------------------

  function EmittedPads(
      t: JoinType, cond: Pairing, assign: Assigner, inputs: seq<Input>, k: WindowKey, side: Side, e: Event): nat {
    multiset(Output(t, cond, assign, inputs))[(k, PadRow(k, side, e))]
  }

  /** Nothing that window `k` holds since it last fired pairs with `e`. */
  ghost predicate Alone(cond: Pairing, assign: Assigner, inputs: seq<Input>, k: WindowKey, side: Side, e: Event) {
    forall o :: Since(assign, inputs, k, Opposite(side), o) > 0 ==> !Hits(cond, side, e, o)
  }

  lemma {:induction false} AloneIsLonely(
      cond: Pairing, assign: Assigner, inputs: seq<Input>, k: WindowKey, side: Side, e: Event)
    ensures Alone(cond, assign, inputs, k, side, e)
       <==> Lonely(cond, side, PaneAt(PanesAfter(cond, assign, inputs), k).Of(Opposite(side)))(e)
  {
    var others := PaneAt(PanesAfter(cond, assign, inputs), k).Of(Opposite(side));
    forall o ensures CountOf(others, o) == Since(assign, inputs, k, Opposite(side), o) {
      PaneHoldsArrivals(cond, assign, inputs, k, Opposite(side), o);
    }
    forall o ensures o in others <==> Since(assign, inputs, k, Opposite(side), o) > 0 {
      assert CountOf(others, o) > 0 <==> o in others;
    }
    if Alone(cond, assign, inputs, k, side, e) {
      assert forall i :: 0 <= i < |others| ==> others[i] in others;
    }
  }

  /** What of a firing window are padded rows of `e`. */
  lemma {:induction false} FiredPads(t: JoinType, cond: Pairing, k: WindowKey, p: Pane, side: Side, e: Event)
    requires CrossProduct(cond, k, p)
    ensures multiset(FireRows(t, cond, k, p))[PadRow(k, side, e)]
         == if Preserves(t, side) && Lonely(cond, side, p.Of(Opposite(side)))(e) then CountOf(p.Of(side), e) else 0
  {
    FiringIsExact(t, cond, k, p, e, e);
    LonelyMeans(cond, p, e, e);
  }

  lemma {:induction false} StepPads(
      t: JoinType, cond: Pairing, assign: Assigner, inputs: seq<Input>, last: Input, k: WindowKey, side: Side, e: Event)
    requires Orderly(cond, assign, inputs + [last])
    ensures multiset(StepOutput(t, cond, PanesAfter(cond, assign, inputs), last))[(k, PadRow(k, side, e))]
         == if Fires(last, k) && Preserves(t, side) && Alone(cond, assign, inputs, k, side, e)
            then Since(assign, inputs, k, side, e) else 0
  {
    var m := PanesAfter(cond, assign, inputs);
    assert (inputs + [last])[..|inputs|] == inputs;
    PaneHoldsArrivals(cond, assign, inputs, k, side, e);
    if last.Watermark? {
      FireEachCount(last.order, RowsOf(t, cond, m), k, PadRow(k, side, e));
      PanesStayCross(cond, assign, inputs);
      if k in m {
        FiredPads(t, cond, k, m[k], side, e);
        AloneIsLonely(cond, assign, inputs, k, side, e);
      }
    }
  }

  lemma {:induction false} PadsSnoc(
      t: JoinType, cond: Pairing, assign: Assigner, before: seq<Input>, last: Input, k: WindowKey, side: Side, e: Event)
    requires Orderly(cond, assign, before + [last])
    ensures Orderly(cond, assign, before)
    ensures EmittedPads(t, cond, assign, before + [last], k, side, e)
         == EmittedPads(t, cond, assign, before, k, side, e)
            + if Fires(last, k) && Preserves(t, side) && Alone(cond, assign, before, k, side, e)
              then Since(assign, before, k, side, e) else 0
  {
    assert (before + [last])[..|before|] == before;
    StepPads(t, cond, assign, before, last, k, side, e);
  }

  lemma {:induction false} FiredEarlier(before: seq<Input>, last: Input, k: WindowKey)
    ensures HasFired(before + [last], k) <==> HasFired(before, k) || Fires(last, k)
  {
    FiredStaysFired(before, last, k);
    if HasFired(before + [last], k) && !Fires(last, k) {
      var i :| 0 <= i <= |before| && (before + [last])[i].Watermark? && (before + [last])[i].at >= k.window.end;
      assert before[i] == (before + [last])[i];
    }
  }

  lemma {:induction false} NoPadsBeforeFiring(
      t: JoinType, cond: Pairing, assign: Assigner, inputs: seq<Input>, k: WindowKey, side: Side, e: Event)
    requires Orderly(cond, assign, inputs) && !HasFired(inputs, k)
    ensures EmittedPads(t, cond, assign, inputs, k, side, e) == 0
    decreases |inputs|
  {
    if inputs != [] {
      var before, last := inputs[..|inputs| - 1], inputs[|inputs| - 1];
      assert inputs == before + [last];
      FiredEarlier(before, last, k);
      PadsSnoc(t, cond, assign, before, last, k, side, e);
      NoPadsBeforeFiring(t, cond, assign, before, k, side, e);
    }
  }

  /** Once a window has fired, it holds nothing of an event that is never late, and gets no more of it. */
  lemma {:induction false} OnTimeLeavesNothing(
      assign: Assigner, inputs: seq<Input>, k: WindowKey, side: Side, e: Event)
    requires NeverLate(assign, inputs, k, side, e) && HasFired(inputs, k)
    ensures Since(assign, inputs, k, side, e) == 0
    decreases |inputs|
  {
    if inputs != [] {
      var before, last := inputs[..|inputs| - 1], inputs[|inputs| - 1];
      assert inputs == before + [last];
      FiredEarlier(before, last, k);
      NeverLatePrefix(assign, before, last, k, side, e);
      CountsSnoc(assign, before, last, k, side, e);
      if !Fires(last, k) {
        OnTimeLeavesNothing(assign, before, k, side, e);
      }
    }
  }

  /** No partner of `e` ever reached window `k`. */
  ghost predicate NoPartnerCame(
      cond: Pairing, assign: Assigner, inputs: seq<Input>, k: WindowKey, side: Side, e: Event) {
    forall o :: Ever(assign, inputs, k, Opposite(side), o) > 0 ==> !Hits(cond, side, e, o)
  }

  lemma {:induction false} NoPartnerMeans(
      cond: Pairing, assign: Assigner, inputs: seq<Input>, k: WindowKey, e: Event)
    ensures NoPartnerCame(cond, assign, inputs, k, LeftSide, e)
       <==> forall o :: Ever(assign, inputs, k, RightSide, o) > 0 ==> !cond(e, o)
    ensures NoPartnerCame(cond, assign, inputs, k, RightSide, e)
       <==> forall o :: Ever(assign, inputs, k, LeftSide, o) > 0 ==> !cond(o, e)
  {
    assert forall o :: Hits(cond, LeftSide, e, o) == cond(e, o) && Hits(cond, RightSide, e, o) == cond(o, e);
  }

  lemma {:induction false} AloneUntilFired(
      cond: Pairing, assign: Assigner, inputs: seq<Input>, k: WindowKey, side: Side, e: Event)
    requires !HasFired(inputs, k)
    ensures Alone(cond, assign, inputs, k, side, e) <==> NoPartnerCame(cond, assign, inputs, k, side, e)
  {
    forall o ensures Since(assign, inputs, k, Opposite(side), o) == Ever(assign, inputs, k, Opposite(side), o) {
      SinceAndEver(assign, inputs, k, Opposite(side), o);
    }
  }

  /** The input at which the window first fires pads what has no partner. */
  lemma {:induction false} FirstFiringPads(
      t: JoinType, cond: Pairing, assign: Assigner, before: seq<Input>, last: Input, k: WindowKey, side: Side, e: Event)
    requires Orderly(cond, assign, before + [last]) && Fires(last, k) && !HasFired(before, k)
    ensures EmittedPads(t, cond, assign, before + [last], k, side, e)
         == if Preserves(t, side) && NoPartnerCame(cond, assign, before, k, side, e)
            then Ever(assign, before + [last], k, side, e) else 0
  {
    PadsSnoc(t, cond, assign, before, last, k, side, e);
    NoPadsBeforeFiring(t, cond, assign, before, k, side, e);
    CountsSnoc(assign, before, last, k, side, e);
    SinceAndEver(assign, before, k, side, e);
    AloneUntilFired(cond, assign, before, k, side, e);
  }

  /** After that, nothing about an event that is never late changes. */
  lemma {:induction false} NoPadsAfterFiring(
      t: JoinType, cond: Pairing, assign: Assigner, before: seq<Input>, last: Input, k: WindowKey, side: Side, e: Event)
    requires Orderly(cond, assign, before + [last]) && NeverLate(assign, before + [last], k, side, e)
    requires HasFired(before, k)
    ensures Orderly(cond, assign, before) && NeverLate(assign, before, k, side, e)
    ensures EmittedPads(t, cond, assign, before + [last], k, side, e)
         == EmittedPads(t, cond, assign, before, k, side, e)
    ensures Ever(assign, before + [last], k, side, e) == Ever(assign, before, k, side, e)
  {
    PadsSnoc(t, cond, assign, before, last, k, side, e);
    NeverLatePrefix(assign, before, last, k, side, e);
    CountsSnoc(assign, before, last, k, side, e);
    OnTimeLeavesNothing(assign, before, k, side, e);
  }

  lemma {:induction false} PadsOnceAlone(
      t: JoinType, cond: Pairing, assign: Assigner, inputs: seq<Input>, f: nat, k: WindowKey, side: Side, e: Event)
    requires Orderly(cond, assign, inputs) && NeverLate(assign, inputs, k, side, e)
    requires f < |inputs| && Fires(inputs[f], k) && !HasFired(inputs[..f], k)
    ensures EmittedPads(t, cond, assign, inputs, k, side, e)
         == if Preserves(t, side) && NoPartnerCame(cond, assign, inputs[..f], k, side, e)
            then Ever(assign, inputs, k, side, e) else 0
    decreases |inputs|
  {
    var before, last := inputs[..|inputs| - 1], inputs[|inputs| - 1];
    assert inputs == before + [last];
    if f == |inputs| - 1 {
      FirstFiringPads(t, cond, assign, before, last, k, side, e);
    } else {
      assert before[..f] == inputs[..f] && before[f] == inputs[f];
      assert HasFired(before, k);
      NoPadsAfterFiring(t, cond, assign, before, last, k, side, e);
      PadsOnceAlone(t, cond, assign, before, f, k, side, e);
    }
  }

  /** Over a whole run in which window `k` first fires at input `f`, an event that is never late is padded once per
      occurrence if no partner reached the window before it fired and the join type pads its side: left events in a
      left or full outer join, right events in a right or full outer join. Otherwise it is never padded. */
  lemma {:induction false} PaddedOnceIff(
      t: JoinType, cond: Pairing, assign: Assigner, inputs: seq<Input>, f: nat, k: WindowKey, e: Event)
    requires Orderly(cond, assign, inputs) && f < |inputs|
    requires inputs[f].Watermark? && inputs[f].at >= k.window.end && !HasFired(inputs[..f], k)
    ensures NeverLate(assign, inputs, k, LeftSide, e) ==>
              multiset(Output(t, cond, assign, inputs))[(k, JoinResult(Some(e), None, k.window.end, k.eventKey))]
              == if (t.LeftOuterJoin? || t.FullOuterJoin?)
                    && forall o :: Ever(assign, inputs[..f], k, RightSide, o) > 0 ==> !cond(e, o)
                 then Ever(assign, inputs, k, LeftSide, e) else 0
    ensures NeverLate(assign, inputs, k, RightSide, e) ==>
              multiset(Output(t, cond, assign, inputs))[(k, JoinResult(None, Some(e), k.window.end, k.eventKey))]
              == if (t.RightOuterJoin? || t.FullOuterJoin?)
                    && forall o :: Ever(assign, inputs[..f], k, LeftSide, o) > 0 ==> !cond(o, e)
                 then Ever(assign, inputs, k, RightSide, e) else 0
  {
    if NeverLate(assign, inputs, k, LeftSide, e) {
      PadsOnceAlone(t, cond, assign, inputs, f, k, LeftSide, e);
      NoPartnerMeans(cond, assign, inputs[..f], k, e);
    }
    if NeverLate(assign, inputs, k, RightSide, e) {
      PadsOnceAlone(t, cond, assign, inputs, f, k, RightSide, e);
      NoPartnerMeans(cond, assign, inputs[..f], k, e);
    }
  }

  // ------------------------------------------------------------------
  // The operator
  // ------------------------------------------------------------------

  /** Only events with the window's own key enter it. */
  ghost predicate OwnKey(k: WindowKey, p: Pane) {
    forall e :: e in p.left || e in p.right ==> e.key == k.eventKey
  }

  ghost predicate AllOwnKey(m: Panes) {
    forall k :: k in m ==> OwnKey(k, m[k])
  }

  lemma {:induction false} ArrivalKeepsAllOwnKey(cond: Pairing, m: Panes, side: Side, e: Event, windows: seq<Window>)
    requires AllOwnKey(m)
    ensures AllOwnKey(AddToWindows(cond, m, side, e, windows))
  {
    if windows != [] {
      ArrivalKeepsAllOwnKey(cond, m, side, e, windows[..|windows| - 1]);
    }
  }

  function EndOn(side: Side, row: JoinResult): Option<Event> {
    if side.LeftSide? then row.left else row.right
  }

  /** `matched` holds the events that some row in `rows` has on `side`. */
  ghost predicate MatchedOn(matched: set<Event>, rows: seq<JoinResult>, side: Side) {
    forall e :: e in matched <==> exists i :: 0 <= i < |rows| && EndOn(side, rows[i]) == Some(e)
  }

  lemma {:induction false} MatchedSnoc(matched: set<Event>, rows: seq<JoinResult>, side: Side, row: JoinResult)
    requires MatchedOn(matched, rows, side) && EndOn(side, row).Some?
    ensures MatchedOn(matched + {EndOn(side, row).value}, rows + [row], side)
  {
    var rows' := rows + [row];
    assert rows'[|rows|] == row && forall i :: 0 <= i < |rows| ==> rows'[i] == rows[i];
  }

  /** A match row joins two stored events that satisfy the condition. */
  lemma {:induction false} MatchIsPair(cond: Pairing, k: WindowKey, p: Pane, row: JoinResult)
    requires CrossProduct(cond, k, p) && row in p.matches
    ensures row.left.Some? && row.right.Some? && cond(row.left.value, row.right.value)
    ensures row.left.value in p.left && row.right.value in p.right
  {
    assert multiset(p.matches)[PairRow(k, row.left.value, row.right.value)] > 0;
    assert Pairs(CountOf(p.left, row.left.value), CountOf(p.right, row.right.value)) > 0;
    SomePairs(CountOf(p.left, row.left.value), CountOf(p.right, row.right.value));
  }

  lemma {:induction false} PairIsMatched(cond: Pairing, k: WindowKey, p: Pane, l: Event, r: Event)
    requires CrossProduct(cond, k, p) && l in p.left && r in p.right && cond(l, r)
    ensures PairRow(k, l, r) in p.matches
  {
    assert multiset(p.matches)[PairRow(k, l, r)] == Pairs(CountOf(p.left, l), CountOf(p.right, r));
  }

  /** An event in some match has a partner ... */
  lemma {:induction false} MatchedHasPartner(
      cond: Pairing, k: WindowKey, p: Pane, side: Side, row: JoinResult, e: Event)
    requires CrossProduct(cond, k, p) && row in p.matches && EndOn(side, row) == Some(e)
    ensures !Lonely(cond, side, p.Of(Opposite(side)))(e)
  {
    var others := p.Of(Opposite(side));
    MatchIsPair(cond, k, p, row);
    var o := if side.LeftSide? then row.right.value else row.left.value;
    var j :| 0 <= j < |others| && others[j] == o;
    assert Hits(cond, side, e, others[j]);
  }

  /** ... and an event with a partner is in some match. */
  lemma {:induction false} PartnerIsMatched(cond: Pairing, k: WindowKey, p: Pane, side: Side, e: Event)
    returns (i: nat)
    requires CrossProduct(cond, k, p) && e in p.Of(side) && !Lonely(cond, side, p.Of(Opposite(side)))(e)
    ensures i < |p.matches| && EndOn(side, p.matches[i]) == Some(e)
  {
    var others := p.Of(Opposite(side));
    var j :| 0 <= j < |others| && Hits(cond, side, e, others[j]);
    var o := others[j];
    var row := RowWith(k, side, e, o);
    assert row in p.matches by {
      if side.LeftSide? {
        PairIsMatched(cond, k, p, e, o);
      } else {
        PairIsMatched(cond, k, p, o, e);
      }
    }
    i :| i < |p.matches| && p.matches[i] == row;
  }

  /** What a firing window emits, join type by join type. */
  lemma {:induction false} FireRowsParts(t: JoinType, cond: Pairing, k: WindowKey, p: Pane)
    ensures t.InnerJoin? ==> FireRows(t, cond, k, p) == p.matches
    ensures t.LeftOuterJoin? ==> FireRows(t, cond, k, p) == p.matches + Pads(t, cond, k, p, LeftSide)
    ensures t.RightOuterJoin? ==> FireRows(t, cond, k, p) == p.matches + Pads(t, cond, k, p, RightSide)
    ensures t.FullOuterJoin? ==>
              FireRows(t, cond, k, p) == p.matches + Pads(t, cond, k, p, LeftSide) + Pads(t, cond, k, p, RightSide)
  {
    var left, right := Pads(t, cond, k, p, LeftSide), Pads(t, cond, k, p, RightSide);
    match t {
      case InnerJoin => NothingAdded(p.matches, []);
      case LeftOuterJoin => NothingAdded(p.matches, left);
      case RightOuterJoin => NothingAdded(p.matches, right);
      case FullOuterJoin => Associates(p.matches, left, right);
    }
  }

  class WindowJoinState {
    const window: Window
    var leftEvents: seq<Event>
    var rightEvents: seq<Event>
    var matches: seq<JoinResult>
    var fired: bool

    constructor (window: Window)
      ensures this.window == window && View() == EMPTY_PANE && !fired
    {
      this.window := window;
      leftEvents, rightEvents, matches, fired := [], [], [], false;
    }

    function View(): Pane
      reads this
    {
      Pane(leftEvents, rightEvents, matches)
    }
  }

  function Rows(tagged: seq<(WindowKey, JoinResult)>): seq<JoinResult> {
    seq(|tagged|, i requires 0 <= i < |tagged| => tagged[i].1)
  }

  lemma {:induction false} FireOneMore(order: seq<WindowKey>, rowsOf: WindowKey -> seq<JoinResult>, k: WindowKey)
    ensures Rows(FireEach(order + [k], rowsOf)) == Rows(FireEach(order, rowsOf)) + rowsOf(k)
  {
    assert (order + [k])[..|order|] == order;
    assert Rows(Tag(k, rowsOf(k))) == rowsOf(k);
  }

  lemma {:induction false} PadRowsSnoc(k: WindowKey, side: Side, es: seq<Event>, e: Event)
    ensures PadRows(k, side, es + [e]) == PadRows(k, side, es) + [PadRow(k, side, e)]
  {
  }

  /** Where a pass over the windows stands when `todo` is still to be visited: due windows leave, the others stay. */
  ghost predicate Visited(
    t: JoinType, cond: Pairing, m: Panes, watermark: int, now: Panes, todo: set<WindowKey>, order: seq<WindowKey>,
    results: seq<JoinResult>)
  {
    && AllCross(cond, m) && AllOwnKey(m)
    && todo <= m.Keys
    && now == m - (Due(m, watermark) - todo)
    && Enumerates(order, Due(m, watermark) - todo)
    && results == Rows(FireAll(t, cond, m, order))
  }

  lemma {:induction false} VisitDue(
    t: JoinType, cond: Pairing, m: Panes, watermark: int, now: Panes, todo: set<WindowKey>, order: seq<WindowKey>,
    results: seq<JoinResult>, k: WindowKey)
    requires Visited(t, cond, m, watermark, now, todo, order, results) && k in todo && k.window.end <= watermark
    ensures Visited(t, cond, m, watermark, now - {k}, todo - {k}, order + [k],
                    results + FireRows(t, cond, k, PaneAt(m, k)))
  {
    var due := Due(m, watermark);
    FireOneMore(order, RowsOf(t, cond, m), k);
    EnumeratesOneMore(order, due - todo, k);
    assert due - (todo - {k}) == (due - todo) + {k};
  }

  lemma {:induction false} VisitEarly(
    t: JoinType, cond: Pairing, m: Panes, watermark: int, now: Panes, todo: set<WindowKey>, order: seq<WindowKey>,
    results: seq<JoinResult>, k: WindowKey)
    requires Visited(t, cond, m, watermark, now, todo, order, results) && k in todo && k.window.end > watermark
    ensures Visited(t, cond, m, watermark, now, todo - {k}, order, results)
  {
    var due := Due(m, watermark);
    assert due - todo == due - (todo - {k});
  }

  lemma {:induction false} VisitNext(
    t: JoinType, cond: Pairing, m: Panes, watermark: int, now: Panes, todo: set<WindowKey>, order: seq<WindowKey>,
    results: seq<JoinResult>, k: WindowKey)
    requires Visited(t, cond, m, watermark, now, todo, order, results) && k in todo
    ensures k in now && now[k] == PaneAt(m, k) && CrossProduct(cond, k, now[k]) && OwnKey(k, now[k])
  {
    assert k in m && now[k] == m[k];
  }

  lemma {:induction false} VisitedAll(
    t: JoinType, cond: Pairing, m: Panes, watermark: int, now: Panes, order: seq<WindowKey>, results: seq<JoinResult>)
    requires Visited(t, cond, m, watermark, now, {}, order, results)
    ensures now == m - Due(m, watermark) && Enumerates(order, Due(m, watermark))
    ensures results == Rows(FireAll(t, cond, m, order))
    ensures AllCross(cond, now) && AllOwnKey(now)
  {
    assert Due(m, watermark) - {} == Due(m, watermark);
  }

  lemma {:induction false} EnumeratesOneMore(order: seq<WindowKey>, all: set<WindowKey>, k: WindowKey)
    requires Enumerates(order, all) && k !in all
    ensures Enumerates(order + [k], all + {k})
  {
    assert (order + [k])[|order|] == k;
    forall x ensures x in order + [k] <==> x in all + {k} {
    }
  }

  lemma {:induction false} PaddedSnoc(k: WindowKey, side: Side, events: seq<Event>, i: nat, lonely: Event -> bool)
    requires i < |events|
    ensures PadRows(k, side, Filter(events[..i + 1], lonely))
         == PadRows(k, side, Filter(events[..i], lonely))
            + if lonely(events[i]) then [PadRow(k, side, events[i])] else []
  {
    FilterNext(events, i, lonely);
    PadRowsSnoc(k, side, Filter(events[..i], lonely), events[i]);
  }

  type States = map<WindowKey, WindowJoinState>

  /** No record belongs to two windows, and every record is owned by the operator. */
  ghost predicate Unshared(states: States, owned: set<WindowJoinState>) {
    && (forall j, k :: j in states && k in states && j != k ==> states[j] != states[k])
    && (forall k :: k in states ==> states[k] in owned)
  }

  /** An unfired record of window `k` with the contents `p`. */
  ghost predicate Holds(k: WindowKey, state: WindowJoinState, p: Pane)
    reads state
  {
    state.window == k.window && !state.fired && state.View() == p
  }

  ghost predicate AllHold(states: States, panes: Panes, owned: set<WindowJoinState>)
    requires states.Keys == panes.Keys && Unshared(states, owned)
    reads owned
  {
    forall k {:trigger Holds(k, states[k], panes[k])} :: k in states ==> Holds(k, states[k], panes[k])
  }

  class WindowJoinOperator {
    const joinType: JoinType
    const condition: Pairing
    const assigner: Assigner
    var windowState: States
    /** The contents of the windows' records. */
    ghost var panes: Panes
    ghost var owned: set<WindowJoinState>

    ghost predicate Separate()
      reads this, owned
    {
      windowState.Keys == panes.Keys && Unshared(windowState, owned) && AllHold(windowState, panes, owned)
    }

    /** ... and each window holds its filtered cross product. */
    ghost predicate Valid()
      reads this, owned
    {
      Separate() && AllCross(condition, panes) && AllOwnKey(panes)
    }

    constructor (joinType: JoinType, condition: Pairing, assigner: Assigner)
      ensures Valid() && panes == map[] && owned == {}
      ensures this.joinType == joinType && this.condition == condition && this.assigner == assigner
    {
      this.joinType, this.condition, this.assigner := joinType, condition, assigner;
      windowState, panes, owned := map[], map[], {};
    }

    /** ProcessLeft and ProcessRight: the event enters its windows; nothing is emitted yet. */
    method Process(side: Side, event: Event)
      requires Valid()
      modifies this, owned
      ensures Valid() && fresh(owned - old(owned))
      ensures panes == AddToWindows(condition, old(panes), side, event, assigner(event))
    {
      ghost var m := panes;
      var windows := assigner(event);
      EnterWindows(side, event, windows);
      ArrivalKeepsAllCross(condition, m, side, event, windows);
      ArrivalKeepsAllOwnKey(condition, m, side, event, windows);
    }

    method EnterWindows(side: Side, event: Event, windows: seq<Window>)
      requires Separate()
      modifies this, owned
      ensures Separate() && fresh(owned - old(owned))
      ensures panes == AddToWindows(condition, old(panes), side, event, windows)
    {
      ghost var m := panes;
      for i := 0 to |windows|
        invariant Separate() && fresh(owned - old(owned))
        invariant panes == AddToWindows(condition, m, side, event, windows[..i])
      {
        AddToWindowsSnoc(condition, m, side, event, windows, i);
        AddToWindow(side, event, windows[i]);
      }
      assert windows[..|windows|] == windows;
    }

    /** The window's record, created empty on its first event. */
    method GetOrCreate(k: WindowKey) returns (state: WindowJoinState)
      requires Separate()
      modifies this
      ensures Separate() && k in windowState && windowState[k] == state
      ensures panes == old(panes)[k := PaneAt(old(panes), k)]
      ensures owned == old(owned) + {state} && (state in old(owned) || fresh(state))
    {
      if k in windowState {
        state := windowState[k];
        assert panes == panes[k := PaneAt(panes, k)] && owned == owned + {state};
      } else {
        state := new WindowJoinState(k.window);
        ghost var states, before := windowState, panes;
        windowState := windowState[k := state];
        panes := panes[k := EMPTY_PANE];
        owned := owned + {state};
        forall j | j in windowState ensures Holds(j, windowState[j], panes[j]) {
          if j != k {
            assert old(Holds(j, states[j], before[j]));
          }
        }
      }
    }

    /** Appends the event to the window's record and matches it. */
    method AddToWindow(side: Side, event: Event, win: Window)
      requires Separate()
      modifies this, owned
      ensures Separate() && fresh(owned - old(owned))
      ensures panes == Entered(condition, old(panes), side, event, win)
    {
      var k := WindowKey(event.key, win);
      ghost var m, p := panes, PaneAt(panes, k);
      var state := GetOrCreate(k);
      Absorb(k, state, event, side);
      assert m[k := p][k := AddToPane(condition, k, p, side, event)] == m[k := AddToPane(condition, k, p, side, event)];
    }

    method Absorb(k: WindowKey, state: WindowJoinState, event: Event, side: Side)
      requires Separate() && k in windowState && windowState[k] == state && k.eventKey == event.key
      modifies state, this`panes
      ensures Separate()
      ensures panes == old(panes)[k := AddToPane(condition, k, old(panes)[k], side, event)]
    {
      ghost var before := panes;
      assert Holds(k, windowState[k], panes[k]);
      Append(state, event, side, k);
      panes := panes[k := AddToPane(condition, k, panes[k], side, event)];
      forall j | j in windowState ensures Holds(j, windowState[j], panes[j]) {
        if j != k {
          assert old(Holds(j, windowState[j], before[j]));
        }
      }
    }

    /** The event joins its side's list and is matched. */
    method Append(state: WindowJoinState, event: Event, side: Side, k: WindowKey)
      requires state.window == k.window && k.eventKey == event.key
      modifies state
      ensures state.View() == AddToPane(condition, k, old(state.View()), side, event) && state.fired == old(state.fired)
    {
      if side.LeftSide? {
        state.leftEvents := state.leftEvents + [event];
      } else {
        state.rightEvents := state.rightEvents + [event];
      }
      MatchInWindow(state, event, side);
    }

    /** Matches the newest event against the other side of its window. */
    method MatchInWindow(state: WindowJoinState, event: Event, side: Side)
      modifies state`matches
      ensures var others := old(state.View()).Of(Opposite(side));
              state.matches
              == old(state.matches) + NewMatches(condition, WindowKey(event.key, state.window), side, event, others)
    {
      var others := if side.LeftSide? then state.rightEvents else state.leftEvents;
      ghost var k := WindowKey(event.key, state.window);
      for i := 0 to |others|
        invariant state.matches == old(state.matches) + NewMatches(condition, k, side, event, others[..i])
      {
        assert others[..i + 1][..i] == others[..i];
        var other := others[i];
        if side.LeftSide? && condition(event, other) {
          state.matches := state.matches + [JoinResult(Some(event), Some(other), state.window.end, event.key)];
        } else if side.RightSide? && condition(other, event) {
          state.matches := state.matches + [JoinResult(Some(other), Some(event), state.window.end, event.key)];
        }
      }
      assert others[..|others|] == others;
    }

    /** Fires and forgets every window whose end the watermark has reached, in some order. */
    method OnWatermark(watermark: int) returns (results: seq<JoinResult>, ghost order: seq<WindowKey>)
      requires Valid()
      modifies this, owned
      ensures Valid() && owned == old(owned)
      ensures panes == old(panes) - Due(old(panes), watermark)
      ensures Enumerates(order, Due(old(panes), watermark))
      ensures results == Rows(FireAll(joinType, condition, old(panes), order))
    {
      ghost var m := panes;
      results, order := VisitAll(watermark);
      VisitedAll(joinType, condition, m, watermark, panes, order, results);
    }

    method VisitAll(watermark: int) returns (results: seq<JoinResult>, ghost order: seq<WindowKey>)
      requires Valid()
      modifies this`windowState, this`panes, owned
      ensures Separate()
      ensures Visited(joinType, condition, old(panes), watermark, panes, {}, order, results)
    {
      ghost var m, everyone := panes, owned;
      var todo := windowState.Keys;
      results, order := [], [];
      while todo != {}
        invariant Separate()
        invariant Visited(joinType, condition, m, watermark, panes, todo, order, results)
        decreases todo
      {
        var k :| k in todo;
        VisitNext(joinType, condition, m, watermark, panes, todo, order, results, k);
        if k.window.end <= watermark {
          VisitDue(joinType, condition, m, watermark, panes, todo, order, results, k);
        } else {
          VisitEarly(joinType, condition, m, watermark, panes, todo, order, results, k);
        }
        var fires, rows := VisitOne(k, watermark);
        if fires {
          results := results + rows;
          order := order + [k];
        }
        todo := todo - {k};
      }
    }

    /** Fires window `k` if the watermark has reached its end. */
    method VisitOne(k: WindowKey, watermark: int) returns (fires: bool, rows: seq<JoinResult>)
      requires Separate() && k in panes && CrossProduct(condition, k, panes[k]) && OwnKey(k, panes[k])
      modifies this`windowState, this`panes, windowState[k]
      ensures Separate() && fires == (k.window.end <= watermark)
      ensures panes == if fires then old(panes) - {k} else old(panes)
      ensures rows == if fires then FireRows(joinType, condition, k, old(panes)[k]) else []
    {
      assert Holds(k, windowState[k], panes[k]);
      var state := windowState[k];
      fires := !state.fired && (watermark > state.window.end || watermark == state.window.end);
      if fires {
        rows := FireAndForget(k);
      } else {
        rows := [];
      }
    }

    /** Fires one window and drops its record. */
    method FireAndForget(k: WindowKey) returns (rows: seq<JoinResult>)
      requires Separate() && k in panes && CrossProduct(condition, k, panes[k]) && OwnKey(k, panes[k])
      modifies this`windowState, this`panes, windowState[k]
      ensures Separate() && panes == old(panes) - {k}
      ensures rows == FireRows(joinType, condition, k, old(panes)[k])
    {
      assert Holds(k, windowState[k], panes[k]);
      var state := windowState[k];
      ghost var states, before := windowState, panes;
      rows := FireWindow(k, state);
      state.fired := true;
      windowState := windowState - {k};
      panes := panes - {k};
      forall j | j in windowState ensures Holds(j, windowState[j], panes[j]) {
        assert old(Holds(j, states[j], before[j]));
      }
    }

    /** Emits the matches, and the unmatched events of the sides the join type preserves. */
    method FireWindow(k: WindowKey, state: WindowJoinState) returns (results: seq<JoinResult>)
      requires state.window == k.window && CrossProduct(condition, k, state.View()) && OwnKey(k, state.View())
      ensures results == FireRows(joinType, condition, k, state.View())
    {
      results := state.matches;
      FireRowsParts(joinType, condition, k, state.View());
      match joinType {
        case InnerJoin =>
        case LeftOuterJoin =>
          var left := Unmatched(k, state.View(), LeftSide);
          results := results + left;
        case RightOuterJoin =>
          var right := Unmatched(k, state.View(), RightSide);
          results := results + right;
        case FullOuterJoin =>
          var left := Unmatched(k, state.View(), LeftSide);
          var right := Unmatched(k, state.View(), RightSide);
          results := results + left + right;
      }
    }

    /** One padded row for every event of `side` that is in no match. */
    method Unmatched(k: WindowKey, p: Pane, side: Side) returns (rows: seq<JoinResult>)
      requires CrossProduct(condition, k, p) && OwnKey(k, p)
      ensures rows == PadRows(k, side, Filter(p.Of(side), Lonely(condition, side, p.Of(Opposite(side)))))
    {
      forall row | row in p.matches ensures EndOn(side, row).Some? {
        MatchIsPair(condition, k, p, row);
      }
      var matched := MatchedEvents(p.matches, side);
      ghost var lonely := Lonely(condition, side, p.Of(Opposite(side)));
      forall e | e in p.Of(side) ensures e.key == k.eventKey && (e in matched <==> !lonely(e)) {
        if e in matched {
          var i :| 0 <= i < |p.matches| && EndOn(side, p.matches[i]) == Some(e);
          MatchedHasPartner(condition, k, p, side, p.matches[i], e);
        }
        if !lonely(e) {
          var i := PartnerIsMatched(condition, k, p, side, e);
        }
      }
      rows := PadUnmatched(k, side, p.Of(side), matched, lonely);
    }

    static method MatchedEvents(matches: seq<JoinResult>, side: Side) returns (matched: set<Event>)
      requires forall row :: row in matches ==> EndOn(side, row).Some?
      ensures MatchedOn(matched, matches, side)
    {
      matched := {};
      for i := 0 to |matches|
        invariant MatchedOn(matched, matches[..i], side)
      {
        MatchedSnoc(matched, matches[..i], side, matches[i]);
        assert matches[..i + 1] == matches[..i] + [matches[i]];
        matched := matched + {EndOn(side, matches[i]).value};
      }
      assert matches[..|matches|] == matches;
    }

    static method PadUnmatched(
        k: WindowKey, side: Side, events: seq<Event>, matched: set<Event>, ghost lonely: Event -> bool)
      returns (rows: seq<JoinResult>)
      requires forall e :: e in events ==> e.key == k.eventKey && (e in matched <==> !lonely(e))
      ensures rows == PadRows(k, side, Filter(events, lonely))
    {
      rows := [];
      for i := 0 to |events|
        invariant rows == PadRows(k, side, Filter(events[..i], lonely))
      {
        var e := events[i];
        PaddedSnoc(k, side, events, i, lonely);
        assert e in events;
        if e !in matched {
          var row := if side.LeftSide? then JoinResult(Some(e), None, k.window.end, e.key)
                     else JoinResult(None, Some(e), k.window.end, e.key);
          assert row == PadRow(k, side, e);
          rows := rows + [row];
        }
      }
      assert events[..|events|] == events;
    }
  }
}
