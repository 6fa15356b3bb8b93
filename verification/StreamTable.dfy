/** Stream/table duality: a table polled into a changelog whose sends may be dropped, and a changelog materialised back
    into a table (pkg/sql/stream_table.go). */
module StreamTables {
  import opened Seqs

  /** A table value: a scalar stands for any value that Go can compare, a row for a map of fields, given by their
      formatted texts. Comparing two rows panics; comparing a row with anything else finds them unequal. */
  datatype Datum = Nil | Scalar(text: string) | Row(fields: map<string, string>)

  /** A changelog event; `isDelete` is the "change_type" header. */
  datatype Change = Change(key: string, value: Datum, isDelete: bool)

  type Table = map<string, Datum>

  function Lookup(t: Table, k: string): Option<Datum> {
    if k in t then Some(t[k]) else None
  }

  // ------------------------------------------------------------------
  // The meaning of a changelog
  // ------------------------------------------------------------------

  function Applied(t: Table, c: Change): Table {
    if c.isDelete then t - {c.key} else t[c.key := c.value]
  }

  function Replay(log: seq<Change>): Table {
    if log == [] then map[] else Applied(Replay(log[..|log| - 1]), log[|log| - 1])
  }

  lemma {:induction false} ReplaySnoc(log: seq<Change>, c: Change)
    ensures Replay(log + [c]) == Applied(Replay(log), c)
  {
    assert (log + [c])[..|log|] == log;
  }

  // ------------------------------------------------------------------
  // From table to stream
  // ------------------------------------------------------------------

  /** The keys whose entries the two tables disagree on. */
  ghost function Diff(a: Table, b: Table): set<string> {
    set k | k in a.Keys + b.Keys && Lookup(a, k) != Lookup(b, k)
  }

  ghost function KeysOf(log: seq<Change>): set<string> {
    set c | c in log :: c.key
  }

  /** Some key holds a row in both tables. */
  ghost predicate Clash(was: Table, state: Table) {
    exists k :: k in was && k in state && was[k].Row? && state[k].Row?
  }

  ghost predicate DistinctKeys(log: seq<Change>) {
    forall i, j :: 0 <= i < j < |log| ==> log[i].key != log[j].key
  }

  /** Progress of one tick: every key outside `todo` that differed at the start has been sent or dropped. */
  ghost predicate Polled(
    was: Table, state: Table, now: Table, todo: set<string>, sent: seq<Change>, dropped: set<string>)
  {
    && dropped <= Diff(was, state) - todo
    && DistinctKeys(sent)
    && KeysOf(sent) == Diff(was, state) - todo - dropped
    && forall k {:trigger Lookup(now, k)} ::
         Lookup(now, k) == if k in todo || k in dropped then Lookup(was, k) else Lookup(state, k)
  }

  /** Sending the change of `k` completes it. */
  lemma {:induction false} PolledSend(
    was: Table, state: Table, now: Table, todo: set<string>, sent: seq<Change>, dropped: set<string>, c: Change)
    requires Polled(was, state, now, todo, sent, dropped)
    requires c.key in todo && c.key in Diff(was, state)
    requires Lookup(state, c.key) == if c.isDelete then None else Some(c.value)
    ensures Polled(was, state, Applied(now, c), todo - {c.key}, sent + [c], dropped)
  {
    var k, now', sent' := c.key, Applied(now, c), sent + [c];
    assert KeysOf(sent') == KeysOf(sent) + {k} by {
      assert forall x :: x in sent' <==> x in sent || x == c;
    }
    forall i, j | 0 <= i < j < |sent'| ensures sent'[i].key != sent'[j].key {
      if j == |sent| {
        assert sent[i].key in KeysOf(sent);
      }
    }
    forall l ensures Lookup(now', l) == if l in todo - {k} || l in dropped then Lookup(was, l) else Lookup(state, l) {
      if l != k {
        assert Lookup(now', l) == Lookup(now, l);
      }
    }
  }

  lemma {:induction false} PolledDrop(
    was: Table, state: Table, now: Table, todo: set<string>, sent: seq<Change>, dropped: set<string>, k: string)
    requires Polled(was, state, now, todo, sent, dropped) && k in todo && k in Diff(was, state)
    ensures Polled(was, state, now, todo - {k}, sent, dropped + {k})
  {
    assert KeysOf(sent) == Diff(was, state) - (todo - {k}) - (dropped + {k});
  }

  lemma {:induction false} PolledSkip(
    was: Table, state: Table, now: Table, todo: set<string>, sent: seq<Change>, dropped: set<string>, k: string)
    requires Polled(was, state, now, todo, sent, dropped) && k !in Diff(was, state)
    ensures Polled(was, state, now, todo - {k}, sent, dropped)
  {
    assert Lookup(was, k) == Lookup(state, k);
    assert KeysOf(sent) == Diff(was, state) - (todo - {k}) - dropped;
  }

  /** The disagreement left by a tick is exactly what was dropped. */
  lemma {:induction false} PolledAll(was: Table, state: Table, now: Table, sent: seq<Change>, dropped: set<string>)
    requires Polled(was, state, now, {}, sent, dropped)
    ensures Diff(now, state) == dropped
    ensures dropped == {} ==> now == state
  {
    forall k ensures k in Diff(now, state) <==> k in dropped {
      assert Lookup(now, k) == if k in dropped then Lookup(was, k) else Lookup(state, k);
      if k in dropped {
        assert k in Diff(was, state);
      }
    }
    if dropped == {} {
      forall k ensures k in now <==> k in state {
        assert Lookup(now, k) == Lookup(state, k);
      }
      forall k | k in now ensures now[k] == state[k] {
        assert Lookup(now, k) == Lookup(state, k);
      }
    }
  }

  /** Polling again after a complete tick, whatever was changed in between, panics exactly if some key holds a row then
      as it did before, be it the same row. */
  lemma {:induction false} RowsArePolledOnce(was: Table, state: Table, now: Table, sent: seq<Change>, later: Table)
    requires Polled(was, state, now, {}, sent, {})
    ensures Clash(now, later) <==> exists k :: k in state && k in later && state[k].Row? && later[k].Row?
  {
    PolledAll(was, state, now, sent, {});
  }

  class Streamifier {
    var state: Table
    var previousSnapshot: Table
    /** Everything the event channel ever accepted. */
    ghost var emitted: seq<Change>

    ghost predicate Valid()
      reads this
    {
      Replay(emitted) == previousSnapshot && DeletesAreNil(emitted)
    }

    constructor (state: Table)
      ensures Valid() && this.state == state && emitted == []
    {
      this.state := state;
      previousSnapshot := map[];
      emitted := [];
    }

    /** A nil value deletes the row. */
    method UpdateTable(key: string, value: Datum)
      requires Valid()
      modifies this`state
      ensures Valid()
      ensures state == if value == Nil then old(state) - {key} else old(state)[key := value]
    {
      if value == Nil {
        state := state - {key};
      } else {
        state := state[key := value];
      }
    }

    /** One tick. `accepts(n)` says whether the channel has room at the n-th attempt to send. The rows are visited in an
        arbitrary order; `dropped` reports the keys whose send was skipped. The tick panics exactly if some key holds a
        row both in the snapshot and in the table; `missed` are then the keys not reached. */
    method Tick(accepts: nat -> bool)
      returns (panicked: bool, sent: seq<Change>, ghost dropped: set<string>, ghost missed: set<string>)
      requires Valid()
      modifies this`previousSnapshot, this`emitted
      ensures Valid() && emitted == old(emitted) + sent
      ensures panicked <==> Clash(old(previousSnapshot), state)
      ensures Polled(old(previousSnapshot), state, previousSnapshot, missed, sent, dropped)
      ensures !panicked ==> missed == {}
      ensures (forall n :: accepts(n)) ==> dropped == {}
    {
      var attempts: nat;
      panicked, sent, attempts, dropped, missed := SendUpdates(accepts);
      if !panicked {
        sent, dropped := SendDeletes(accepts, attempts, old(previousSnapshot), old(emitted), sent, dropped);
        missed := {};
      }
    }

    /** The non-blocking send of one change, with the snapshot following what the channel accepted. */
    method Offer(
      event: Change, room: bool, ghost was: Table, ghost todo: set<string>, sent: seq<Change>,
      ghost dropped: set<string>)
      returns (sent': seq<Change>, ghost dropped': set<string>)
      requires Valid() && Polled(was, state, previousSnapshot, todo, sent, dropped)
      requires event.key in todo && event.key in Diff(was, state)
      requires Lookup(state, event.key) == if event.isDelete then None else Some(event.value)
      requires event.isDelete ==> event.value == Nil
      modifies this`previousSnapshot, this`emitted
      ensures Valid()
      ensures sent' == if room then sent + [event] else sent
      ensures dropped' == if room then dropped else dropped + {event.key}
      ensures emitted == if room then old(emitted) + [event] else old(emitted)
      ensures Polled(was, state, previousSnapshot, todo - {event.key}, sent', dropped')
    {
      sent', dropped' := sent, dropped;
      if room {
        PolledSend(was, state, previousSnapshot, todo, sent, dropped, event);
        ReplaySnoc(emitted, event);
        emitted := emitted + [event];
        sent' := sent + [event];
        previousSnapshot := if event.isDelete then previousSnapshot - {event.key}
                            else previousSnapshot[event.key := event.value];
      } else {
        PolledDrop(was, state, previousSnapshot, todo, sent, dropped, event.key);
        dropped' := dropped + {event.key};
      }
    }

    method SendUpdates(accepts: nat -> bool)
      returns (panicked: bool, sent: seq<Change>, attempts: nat, ghost dropped: set<string>, ghost missed: set<string>)
      requires Valid()
      modifies this`previousSnapshot, this`emitted
      ensures Valid() && emitted == old(emitted) + sent
      ensures panicked <==> Clash(old(previousSnapshot), state)
      ensures Polled(old(previousSnapshot), state, previousSnapshot, missed, sent, dropped)
      ensures !panicked ==> missed == old(previousSnapshot).Keys - state.Keys
      ensures (forall n :: accepts(n)) ==> dropped == {}
    {
      ghost var was, log := previousSnapshot, emitted;
      ghost var gone := was.Keys - state.Keys;
      panicked, sent, attempts, dropped := false, [], 0, {};
      var todo := state.Keys;
      while todo != {}
        invariant Valid() && emitted == log + sent && todo <= state.Keys
        invariant Polled(was, state, previousSnapshot, todo + gone, sent, dropped)
        invariant forall k :: k in was && k in state && k !in todo ==> !(was[k].Row? && state[k].Row?)
        invariant (forall n :: accepts(n)) ==> dropped == {}
        decreases todo
      {
        var key :| key in todo;
        assert (todo + gone) - {key} == (todo - {key}) + gone;
        assert Lookup(previousSnapshot, key) == Lookup(was, key);
        if key in previousSnapshot && previousSnapshot[key].Row? && state[key].Row? {
          return true, sent, attempts, dropped, todo + gone;
        }
        if key !in previousSnapshot || previousSnapshot[key] != state[key] {
          sent, dropped := Offer(Change(key, state[key], false), accepts(attempts), was, todo + gone, sent, dropped);
          attempts := attempts + 1;
        } else {
          PolledSkip(was, state, previousSnapshot, todo + gone, sent, dropped, key);
        }
        todo := todo - {key};
      }
      missed := gone;
      assert {} + gone == gone;
    }

    method SendDeletes(
      accepts: nat -> bool, first: nat, ghost was: Table, ghost log: seq<Change>, before: seq<Change>,
      ghost skipped: set<string>)
      returns (sent: seq<Change>, ghost dropped: set<string>)
      requires Valid() && Polled(was, state, previousSnapshot, was.Keys - state.Keys, before, skipped)
      requires emitted == log + before
      modifies this`previousSnapshot, this`emitted
      ensures Valid() && Polled(was, state, previousSnapshot, {}, sent, dropped)
      ensures emitted == log + sent
      ensures (forall n :: accepts(n)) ==> dropped == skipped
    {
      sent, dropped := before, skipped;
      var attempts := first;
      var todo := previousSnapshot.Keys;
      GoneKeys(was, state, previousSnapshot, before, skipped);
      while todo != {}
        invariant Valid() && todo - state.Keys <= was.Keys - state.Keys
        invariant Polled(was, state, previousSnapshot, todo - state.Keys, sent, dropped)
        invariant emitted == log + sent
        invariant (forall n :: accepts(n)) ==> dropped == skipped
        decreases todo
      {
        var key :| key in todo;
        assert (todo - {key}) - state.Keys == (todo - state.Keys) - {key};
        if key !in state {
          sent, dropped := Offer(Change(key, Nil, true), accepts(attempts), was, todo - state.Keys, sent, dropped);
          attempts := attempts + 1;
        }
        todo := todo - {key};
      }
    }
  }

  /** After the updates, the keys still to be deleted are the snapshot's keys that the table lacks. */
  lemma {:induction false} GoneKeys(was: Table, state: Table, now: Table, sent: seq<Change>, dropped: set<string>)
    requires Polled(was, state, now, was.Keys - state.Keys, sent, dropped)
    ensures now.Keys - state.Keys == was.Keys - state.Keys
  {
    forall k ensures k in now && k !in state <==> k in was && k !in state {
      assert Lookup(now, k) == if k in was.Keys - state.Keys || k in dropped then Lookup(was, k) else Lookup(state, k);
    }
  }

  // ------------------------------------------------------------------
  // From stream to table
  // ------------------------------------------------------------------

  /** The composite key: the formatted values of the key fields that the row has, joined by underscores. */
  function KeyText(fields: map<string, string>, primaryKeys: seq<string>): string {
    if primaryKeys == [] then "" else
      var n := |primaryKeys| - 1;
      KeyText(fields, primaryKeys[..n]) + (if n > 0 then "_" else "")
      + if primaryKeys[n] in fields then fields[primaryKeys[n]] else ""
  }

  function PrimaryKey(e: Change, primaryKeys: seq<string>): string {
    var key := if e.value.Row? then KeyText(e.value.fields, primaryKeys) else "";
    if primaryKeys == [] || key == "" then e.key else key
  }

  function Materialized(log: seq<Change>, primaryKeys: seq<string>): Table {
    if log == [] then map[] else
      var last := log[|log| - 1];
      Materialized(log[..|log| - 1], primaryKeys)[PrimaryKey(last, primaryKeys) := last.value]
  }

  class Materializer {
    var state: Table

    constructor ()
      ensures state == map[]
    {
      state := map[];
    }

    /** Consumes the events that the changelog delivers until it is closed. */
    method Materialize(events: seq<Change>, primaryKeys: seq<string>)
      requires state == map[]
      modifies this
      ensures state == Materialized(events, primaryKeys)
    {
      for i := 0 to |events|
        invariant state == Materialized(events[..i], primaryKeys)
      {
        var key := BuildPrimaryKey(events[i], primaryKeys);
        state := state[key := events[i].value];
        assert events[..i + 1][..i] == events[..i];
      }
      assert events[..|events|] == events;
    }

    method BuildPrimaryKey(event: Change, primaryKeys: seq<string>) returns (key: string)
      ensures key == PrimaryKey(event, primaryKeys)
    {
      if |primaryKeys| == 0 {
        return event.key;
      }
      key := "";
      if event.value.Row? {
        var valueMap := event.value.fields;
        for i := 0 to |primaryKeys|
          invariant key == KeyText(valueMap, primaryKeys[..i])
        {
          assert primaryKeys[..i + 1][..i] == primaryKeys[..i];
          if i > 0 {
            key := key + "_";
          }
          if primaryKeys[i] in valueMap {
            key := key + valueMap[primaryKeys[i]];
          }
        }
        assert primaryKeys[..|primaryKeys|] == primaryKeys;
      }
      if key == "" {
        return event.key;
      }
    }
  }

  /** What a row shows for a key field: nothing if it lacks it. */
  function FieldText(fields: map<string, string>, name: string): string {
    if name in fields then fields[name] else ""
  }

  lemma {:induction false} KeyTextLast(fields: map<string, string>, primaryKeys: seq<string>, name: string)
    ensures KeyText(fields, primaryKeys + [name])
         == if primaryKeys == [] then FieldText(fields, name)
            else KeyText(fields, primaryKeys) + "_" + FieldText(fields, name)
  {
    assert (primaryKeys + [name])[..|primaryKeys|] == primaryKeys;
    if primaryKeys == [] {
      assert "" + "" + FieldText(fields, name) == FieldText(fields, name);
    }
  }

  lemma {:induction false} NoneAfter(a: string, x: string, t: string)
    requires t == a + "_" + x && '_' !in x
    ensures forall i :: |a| < i < |t| ==> t[i] != '_'
  {
    forall i | |a| < i < |t| ensures t[i] != '_' {
      assert t[i] == x[i - |a| - 1];
    }
  }

  /** Two texts joined by an underscore have the same parts if neither last part has one. */
  lemma {:induction false} SplitAtLast(a: string, x: string, b: string, y: string)
    requires a + "_" + x == b + "_" + y && '_' !in x && '_' !in y
    ensures a == b && x == y
  {
    var t := a + "_" + x;
    NoneAfter(a, x, t);
    NoneAfter(b, y, t);
    assert t[|a|] == '_' && t[|b|] == '_';
    assert a == t[..|a|] == b && x == t[|a| + 1..] == y;
  }

  /** No text of a key field has an underscore in it. */
  ghost predicate PlainFields(fields: map<string, string>, primaryKeys: seq<string>) {
    forall name :: name in primaryKeys ==> '_' !in FieldText(fields, name)
  }

  /** Composite keys tell rows apart, as long as no underscore occurs in their key fields. */
  lemma {:induction false} KeysTellRowsApart(
      f: map<string, string>, g: map<string, string>, primaryKeys: seq<string>)
    requires PlainFields(f, primaryKeys) && PlainFields(g, primaryKeys)
    ensures KeyText(f, primaryKeys) == KeyText(g, primaryKeys)
       <==> forall name :: name in primaryKeys ==> FieldText(f, name) == FieldText(g, name)
  {
    if primaryKeys != [] {
      var rest, last := primaryKeys[..|primaryKeys| - 1], primaryKeys[|primaryKeys| - 1];
      assert primaryKeys == rest + [last];
      KeysTellRowsApart(f, g, rest);
      KeyTextLast(f, rest, last);
      KeyTextLast(g, rest, last);
      if rest != [] && KeyText(f, primaryKeys) == KeyText(g, primaryKeys) {
        SplitAtLast(KeyText(f, rest), FieldText(f, last), KeyText(g, rest), FieldText(g, last));
      }
    }
  }

  /** With an underscore in them, different rows can share a key: the later one overwrites the other. */
  lemma {:induction false} UnderscoresCollide(k0: string, k1: string)
    requires k0 != k1
    ensures var f, g := map[k0 := "a_b", k1 := "c"], map[k0 := "a", k1 := "b_c"];
            && PrimaryKey(Change("1", Row(f), false), [k0, k1]) == "a_b_c"
            && Materialized([Change("1", Row(f), false), Change("2", Row(g), false)], [k0, k1])
               == map["a_b_c" := Row(g)]
  {
    var f, g := map[k0 := "a_b", k1 := "c"], map[k0 := "a", k1 := "b_c"];
    var first, second := Change("1", Row(f), false), Change("2", Row(g), false);
    assert [] + [k0] == [k0] && [k0] + [k1] == [k0, k1];
    KeyTextLast(f, [], k0);
    KeyTextLast(f, [k0], k1);
    KeyTextLast(g, [], k0);
    KeyTextLast(g, [k0], k1);
    assert "a_b" + "_" + "c" == "a_b_c" == "a" + "_" + "b_c";
    assert [first, second][..1] == [first] && [first][..0] == [];
    assert Materialized([first], [k0, k1]) == map["a_b_c" := Row(f)];
  }

  /** Rows without any key field keep their own keys only if there is one key field at most; with more, they all go to
      the same key, a run of underscores. */
  lemma {:induction false} RowsWithoutKeyFields(c: Change, primaryKeys: seq<string>)
    requires c.value.Row? && forall name :: name in primaryKeys ==> name !in c.value.fields
    ensures PrimaryKey(c, primaryKeys)
         == if |primaryKeys| <= 1 then c.key else seq(|primaryKeys| - 1, i => '_')
  {
    OnlyUnderscores(c.value.fields, primaryKeys);
  }

  lemma {:induction false} OnlyUnderscores(fields: map<string, string>, primaryKeys: seq<string>)
    requires forall name :: name in primaryKeys ==> name !in fields
    ensures KeyText(fields, primaryKeys) == seq(if primaryKeys == [] then 0 else |primaryKeys| - 1, i => '_')
  {
    if primaryKeys != [] {
      var rest, last := primaryKeys[..|primaryKeys| - 1], primaryKeys[|primaryKeys| - 1];
      assert primaryKeys == rest + [last];
      OnlyUnderscores(fields, rest);
      KeyTextLast(fields, rest, last);
    }
  }

  /** The entries that hold a value. */
  function NonNil(t: Table): Table {
    map k | k in t && t[k] != Nil :: t[k]
  }

  /** Changelog events as the streamifier makes them: deletions carry no value. */
  predicate DeletesAreNil(log: seq<Change>) {
    forall i :: 0 <= i < |log| && log[i].isDelete ==> log[i].value == Nil
  }

  /** The rows keep the keys they were sent under. */
  predicate KeysAgree(log: seq<Change>, primaryKeys: seq<string>) {
    forall i :: 0 <= i < |log| ==> PrimaryKey(log[i], primaryKeys) == log[i].key
  }

  /** Materialising a changelog gives, apart from nil entries, its replay. It holds for every prefix consumed. */
  lemma {:induction false} MaterializedIsReplay(log: seq<Change>, primaryKeys: seq<string>)
    requires DeletesAreNil(log) && KeysAgree(log, primaryKeys)
    ensures NonNil(Materialized(log, primaryKeys)) == NonNil(Replay(log))
  {
    if log != [] {
      var before, last := log[..|log| - 1], log[|log| - 1];
      MaterializedIsReplay(before, primaryKeys);
      forall k ensures k in NonNil(Materialized(log, primaryKeys)) <==> k in NonNil(Replay(log)) {
        assert k in NonNil(Materialized(before, primaryKeys)) <==> k in NonNil(Replay(before));
      }
      forall k | k in NonNil(Replay(log)) && k != last.key
        ensures NonNil(Materialized(log, primaryKeys))[k] == NonNil(Replay(log))[k] {
        assert k in NonNil(Replay(before));
      }
    }
  }

  /** Without primary keys nothing is assumed of the rows. */
  lemma {:induction false} MaterializedWithoutKeys(log: seq<Change>)
    requires DeletesAreNil(log)
    ensures NonNil(Materialized(log, [])) == NonNil(Replay(log))
  {
    MaterializedIsReplay(log, []);
  }

  /** No key's last change is a deletion. */
  ghost predicate NothingDeletedLast(log: seq<Change>) {
    forall i: nat :: i < |log| && log[i].isDelete ==> log[i].key in KeysOf(log[i + 1..])
  }

  lemma {:induction false} MaterializedKeys(log: seq<Change>)
    ensures Materialized(log, []).Keys == KeysOf(log)
  {
    if log != [] {
      var before, last := log[..|log| - 1], log[|log| - 1];
      MaterializedKeys(before);
      assert forall x :: x in log <==> x in before || x == last;
    }
  }

  /** Deleting leaves a nil entry behind: a key is present in the materialised table but not in the replay exactly when
      its last change was a deletion. */
  lemma {:induction false} ReplayKeys(log: seq<Change>, k: string) returns (i: nat)
    requires k in KeysOf(log)
    ensures i < |log| && log[i].key == k && k !in KeysOf(log[i + 1..])
    ensures k in Replay(log) <==> !log[i].isDelete
  {
    var before, last := log[..|log| - 1], log[|log| - 1];
    if last.key == k {
      i := |log| - 1;
    } else {
      assert k in KeysOf(before) by {
        var c :| c in log && c.key == k;
        assert c in before;
      }
      i := ReplayKeys(before, k);
      assert log[i + 1..] == before[i + 1..] + [last];
    }
  }

  /** The row count of the materialised table is right only if nothing was deleted last. */
  lemma {:induction false} MaterializedKeysAreReplayKeys(log: seq<Change>)
    ensures Materialized(log, []).Keys == Replay(log).Keys <==> NothingDeletedLast(log)
  {
    MaterializedKeys(log);
    ReplayKeysAreSent(log);
    if NothingDeletedLast(log) {
      forall k | k in KeysOf(log) ensures k in Replay(log) {
        var i := ReplayKeys(log, k);
      }
    } else {
      var i: nat :| i < |log| && log[i].isDelete && log[i].key !in KeysOf(log[i + 1..]);
      var k := log[i].key;
      assert log[i] in log && k in KeysOf(log);
      var j := ReplayKeys(log, k);
      if i != j {
        OneIsLater(log, i, j);
      }
    }
  }

  lemma {:induction false} OneIsLater(log: seq<Change>, i: nat, j: nat)
    requires i < |log| && j < |log| && i != j
    ensures log[j].key in KeysOf(log[i + 1..]) || log[i].key in KeysOf(log[j + 1..])
  {
    if i < j {
      assert log[i + 1..][j - i - 1] == log[j];
    } else {
      assert log[j + 1..][i - j - 1] == log[i];
    }
  }

  lemma {:induction false} ReplayKeysAreSent(log: seq<Change>)
    ensures Replay(log).Keys <= KeysOf(log)
  {
    if log != [] {
      var before, last := log[..|log| - 1], log[|log| - 1];
      ReplayKeysAreSent(before);
      assert forall x :: x in log <==> x in before || x == last;
    }
  }

  /** With a composite primary key a deletion does not reach the row: it writes a nil entry under the event's own key
      and the row stays. */
  lemma {:induction false} DeletedRowStays(k: string, fields: map<string, string>, primaryKeys: seq<string>)
    requires KeyText(fields, primaryKeys) != "" && KeyText(fields, primaryKeys) != k
    ensures var log := [Change(k, Row(fields), false), Change(k, Nil, true)];
            && Replay(log) == map[]
            && NonNil(Materialized(log, primaryKeys)) == map[KeyText(fields, primaryKeys) := Row(fields)]
  {
    var first, second := Change(k, Row(fields), false), Change(k, Nil, true);
    assert [first, second][..1] == [first] && [first][..0] == [];
    var c := KeyText(fields, primaryKeys);
    assert primaryKeys != [];
    assert Materialized([first], primaryKeys) == map[c := Row(fields)];
    assert Materialized([first, second], primaryKeys) == map[c := Row(fields), k := Nil];
    assert Replay([first]) == map[k := Row(fields)];
  }

  ghost predicate AllFrom(allowed: Change -> bool, log: seq<Change>) {
    forall c :: c in log ==> allowed(c)
  }

  /** Every changelog of the allowed events materialises to its replay if and only if every allowed event's row keeps
      the key it was sent under. */
  lemma {:induction false} ReplayedIffKeysAgree(allowed: Change -> bool, primaryKeys: seq<string>)
    requires forall c :: allowed(c) && c.isDelete ==> c.value == Nil
    ensures (forall log {:trigger AllFrom(allowed, log)} :: AllFrom(allowed, log) ==>
               NonNil(Materialized(log, primaryKeys)) == NonNil(Replay(log)))
       <==> forall c {:trigger allowed(c)} :: allowed(c) ==> PrimaryKey(c, primaryKeys) == c.key
  {
    if forall c :: allowed(c) ==> PrimaryKey(c, primaryKeys) == c.key {
      forall log | AllFrom(allowed, log) ensures NonNil(Materialized(log, primaryKeys)) == NonNil(Replay(log)) {
        assert forall i :: 0 <= i < |log| ==> log[i] in log;
        MaterializedIsReplay(log, primaryKeys);
      }
    } else {
      var c :| allowed(c) && PrimaryKey(c, primaryKeys) != c.key;
      assert AllFrom(allowed, [c]);
      MovedRow(c, primaryKeys);
    }
  }

  /** A row that changes its key on the way is not where the replay has it. */
  lemma {:induction false} MovedRow(c: Change, primaryKeys: seq<string>)
    requires PrimaryKey(c, primaryKeys) != c.key && (c.isDelete ==> c.value == Nil)
    ensures NonNil(Materialized([c], primaryKeys)) != NonNil(Replay([c]))
  {
    assert [c][..0] == [];
    assert c.value.Row? && !c.isDelete;
    assert Materialized([c], primaryKeys) == map[PrimaryKey(c, primaryKeys) := c.value];
    assert PrimaryKey(c, primaryKeys) in NonNil(Materialized([c], primaryKeys));
    assert PrimaryKey(c, primaryKeys) !in Replay([c]);
  }

  lemma {:induction false} SomeKeyText(primaryKeys: seq<string>)
    requires primaryKeys != []
    ensures KeyText(map[primaryKeys[0] := "x"], primaryKeys) != ""
  {
    if |primaryKeys| == 1 {
      assert KeyText(map[primaryKeys[0] := "x"], primaryKeys)[0] == 'x';
    }
  }

  /** With the streamifier's events in general, materialising is replaying exactly when there are no primary keys; with
      any, some row is never deleted. */
  lemma {:induction false} MaterializingReplaysIff(primaryKeys: seq<string>)
    ensures (forall log {:trigger DeletesAreNil(log)} :: DeletesAreNil(log) ==>
               NonNil(Materialized(log, primaryKeys)) == NonNil(Replay(log)))
       <==> primaryKeys == []
  {
    if primaryKeys == [] {
      forall log | DeletesAreNil(log) ensures NonNil(Materialized(log, [])) == NonNil(Replay(log)) {
        MaterializedWithoutKeys(log);
      }
    } else {
      var fields := map[primaryKeys[0] := "x"];
      SomeKeyText(primaryKeys);
      var log := [Change("", Row(fields), false), Change("", Nil, true)];
      DeletedRowStays("", fields, primaryKeys);
      assert DeletesAreNil(log);
      assert NonNil(Replay(log)) == map[] && KeyText(fields, primaryKeys) in NonNil(Materialized(log, primaryKeys));
    }
  }

  /** End to end: once a tick drops nothing and the materialiser has consumed everything sent, its non-nil entries are
      the source table. */
  lemma {:induction false} DualityRoundTrip(emitted: seq<Change>, was: Table, state: Table, sent: seq<Change>)
    requires Polled(was, state, Replay(emitted), {}, sent, {})
    requires DeletesAreNil(emitted) && forall k :: k in state ==> state[k] != Nil
    ensures NonNil(Materialized(emitted, [])) == state
  {
    PolledAll(was, state, Replay(emitted), sent, {});
    MaterializedWithoutKeys(emitted);
    assert NonNil(state) == state;
  }
}
