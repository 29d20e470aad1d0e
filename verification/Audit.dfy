/** The audit hook: what a flush records, and why the records are a patch chain that runs both ways. */
module Audit {

  datatype Attr = Attr(key: string)

  type Snapshot = map<Attr, string>

  /** An ORM object: the column values last loaded or flushed, and the values now. */
  datatype Row<V> = Row(loaded: map<Attr, V>, current: map<Attr, V>)

  /** An UPDATE row of the audit log. */
  datatype Record = Record(target: nat, oldData: Snapshot, newData: Snapshot)

  /** How the engine is set up: the columns it skips, and `str()` on a column value. */
  datatype Engine<!V> = Engine(excluded: set<Attr>, render: V -> string)

  predicate SameColumns<V>(row: Row<V>) {
    row.loaded.Keys == row.current.Keys
  }

  /** The columns whose value differs from the loaded one, a value set back to it not counting. */
  function Changed<V(==)>(row: Row<V>): set<Attr>
    requires SameColumns(row)
  {
    set a | a in row.current && row.current[a] != row.loaded[a]
  }

  function AuditedChanges<V(==)>(e: Engine<V>, row: Row<V>): set<Attr>
    requires SameColumns(row)
  {
    Changed(row) - e.excluded
  }

  function RecordFor<V(==)>(e: Engine<V>, id: nat, row: Row<V>): Record
    requires SameColumns(row)
  {
    Record(id,
           map a | a in AuditedChanges(e, row) :: e.render(row.loaded[a]),
           map a | a in AuditedChanges(e, row) :: e.render(row.current[a]))
  }

  /** The audited columns of a row, rendered. */
  function Rendered<V>(e: Engine<V>, columns: map<Attr, V>): Snapshot {
    map a | a in columns && a !in e.excluded :: e.render(columns[a])
  }

  function Committed<V>(row: Row<V>): Row<V> {
    Row(row.current, row.current)
  }

  // ------------------------------------------------ the session

  type Objects<V> = map<nat, Row<V>>

  ghost predicate Sound<V>(objects: Objects<V>) {
    forall id :: id in objects ==> SameColumns(objects[id])
  }

  /** A flush under way: `todo` holds the objects not visited yet. */
  ghost predicate FlushedSoFar<V>(e: Engine<V>, objects: Objects<V>, recs: seq<Record>, todo: set<nat>)
    requires Sound(objects)
  {
    && (forall i, j :: 0 <= i < j < |recs| ==> recs[i].target != recs[j].target)
    && (forall i :: 0 <= i < |recs| ==> recs[i].target !in todo && RecordOf(e, objects, recs[i]))
    && (forall id :: id in objects && id !in todo && AuditedChanges(e, objects[id]) != {} ==> Targets(recs, id))
  }

  /** The record of an object with an audited change. */
  ghost predicate RecordOf<V>(e: Engine<V>, objects: Objects<V>, r: Record)
    requires Sound(objects)
  {
    r.target in objects && AuditedChanges(e, objects[r.target]) != {} && r == RecordFor(e, r.target, objects[r.target])
  }

  predicate Targets(recs: seq<Record>, id: nat) {
    exists i :: 0 <= i < |recs| && recs[i].target == id
  }

  lemma FlushedOneMore<V>(e: Engine<V>, objects: Objects<V>, recs: seq<Record>, todo: set<nat>, id: nat)
    requires Sound(objects) && FlushedSoFar(e, objects, recs, todo) && id in todo && id in objects
    ensures AuditedChanges(e, objects[id]) == {} ==> FlushedSoFar(e, objects, recs, todo - {id})
    ensures AuditedChanges(e, objects[id]) != {} ==>
              FlushedSoFar(e, objects, recs + [RecordFor(e, id, objects[id])], todo - {id})
  {
    if AuditedChanges(e, objects[id]) != {} {
      var recs' := recs + [RecordFor(e, id, objects[id])];
      assert recs'[|recs|].target == id;
      forall k | k in objects && k !in todo - {id} && AuditedChanges(e, objects[k]) != {} ensures Targets(recs', k) {
        if k != id {
          var i :| 0 <= i < |recs| && recs[i].target == k;
          assert recs'[i].target == k;
        }
      }
    }
  }

  /** The records of one flush: one for each object with an audited change, in any order. */
  ghost predicate FlushRecords<V>(e: Engine<V>, objects: Objects<V>, recs: seq<Record>)
    requires Sound(objects)
  {
    FlushedSoFar(e, objects, recs, {})
  }

  class Session<V(==)> {
    const engine: Engine<V>
    var objects: Objects<V>
    var log: seq<Record>

    constructor (engine: Engine<V>, objects: Objects<V>)
      ensures this.engine == engine && this.objects == objects && log == []
    {
      this.engine, this.objects, log := engine, objects, [];
    }

    method SetAttr(id: nat, a: Attr, v: V)
      requires Sound(objects) && id in objects && a in objects[id].current
      modifies this`objects
      ensures Sound(objects)
      ensures CanStep(engine, old(Store(objects, log)), Write(id, a, v))
      ensures Store(objects, log) == DoStep(old(Store(objects, log)), Write(id, a, v))
    {
      objects := objects[id := objects[id].(current := objects[id].current[a := v])];
    }

    /** One object of the flush: collect the changed audited columns and add a record unless there are none. */
    method CreateAuditRecord(id: nat)
      requires Sound(objects) && id in objects
      modifies this`log
      ensures log == if AuditedChanges(engine, objects[id]) == {} then old(log)
                     else old(log) + [RecordFor(engine, id, objects[id])]
    {
      var row := objects[id];
      var oldTemp: Snapshot := map[];
      var newTemp: Snapshot := map[];
      var attrs := row.current.Keys;
      ghost var seen: set<Attr> := {};
      while attrs != {}
        invariant seen + attrs == row.current.Keys && seen !! attrs
        invariant oldTemp == map a | a in AuditedChanges(engine, row) && a in seen :: engine.render(row.loaded[a])
        invariant newTemp == map a | a in AuditedChanges(engine, row) && a in seen :: engine.render(row.current[a])
        decreases attrs
      {
        var a :| a in attrs;
        attrs := attrs - {a};
        seen := seen + {a};
        if a !in engine.excluded && row.current[a] != row.loaded[a] {
          oldTemp := oldTemp[a := engine.render(row.loaded[a])];
          newTemp := newTemp[a := engine.render(row.current[a])];
        }
      }
      assert oldTemp.Keys == newTemp.Keys == AuditedChanges(engine, row);
      if oldTemp == map[] && newTemp == map[] {
        return;
      }
      assert Record(id, oldTemp, newTemp) == RecordFor(engine, id, row);
      log := log + [Record(id, oldTemp, newTemp)];
    }

    method Flush()
      requires Sound(objects)
      modifies this
      ensures Sound(objects) && old(log) <= log
      ensures CanStep(engine, old(Store(objects, log)), Flushed(log[|old(log)|..]))
      ensures Store(objects, log) == DoStep(old(Store(objects, log)), Flushed(log[|old(log)|..]))
    {
      var dirty := set id | id in objects && Changed(objects[id]) != {};
      ghost var recs: seq<Record> := [];
      while dirty != {}
        invariant objects == old(objects) && log == old(log) + recs
        invariant dirty <= objects.Keys && FlushedSoFar(engine, objects, recs, dirty)
        decreases dirty
      {
        var id :| id in dirty;
        FlushedOneMore(engine, objects, recs, dirty, id);
        dirty := dirty - {id};
        CreateAuditRecord(id);
        if AuditedChanges(engine, objects[id]) != {} {
          recs := recs + [RecordFor(engine, id, objects[id])];
        }
      }
      assert log[|old(log)|..] == recs;
      objects := map id | id in objects :: Committed(objects[id]);
    }
  }

  // ------------------------------------------------ replaying the log

  /** The records about one object, in order. */
  function About(recs: seq<Record>, id: nat): seq<Record> {
    if recs == [] then []
    else
      var last := recs[|recs| - 1];
      About(recs[..|recs| - 1], id) + if last.target == id then [last] else []
  }

  /** Apply `new_data`, oldest first. */
  function Forward(s: Snapshot, recs: seq<Record>): Snapshot {
    if recs == [] then s else Forward(s, recs[..|recs| - 1]) + recs[|recs| - 1].newData
  }

  /** Apply `old_data`, newest first. */
  function Backward(s: Snapshot, recs: seq<Record>): Snapshot
    decreases |recs|
  {
    if recs == [] then s else Backward(s + recs[|recs| - 1].oldData, recs[..|recs| - 1])
  }

  /** One record is a patch from the loaded to the current snapshot, and its inverse. */
  lemma RecordIsPatch<V>(e: Engine<V>, id: nat, row: Row<V>)
    requires SameColumns(row)
    ensures var r := RecordFor(e, id, row);
            && Rendered(e, row.loaded) + r.newData == Rendered(e, row.current)
            && Rendered(e, row.current) + r.oldData == Rendered(e, row.loaded)
  {
  }

  lemma UnchangedRenders<V>(e: Engine<V>, row: Row<V>)
    requires SameColumns(row) && AuditedChanges(e, row) == {}
    ensures Rendered(e, row.loaded) == Rendered(e, row.current)
  {
    forall a | a in row.current && a !in e.excluded ensures row.loaded[a] == row.current[a] {
      assert a !in AuditedChanges(e, row);
    }
  }

  lemma ReplayAppend(s: Snapshot, recs: seq<Record>, r: Record)
    ensures Forward(s, recs + [r]) == Forward(s, recs) + r.newData
    ensures Backward(s, recs + [r]) == Backward(s + r.oldData, recs)
  {
    assert (recs + [r])[..|recs|] == recs;
  }

  lemma {:induction false} AboutConcat(a: seq<Record>, b: seq<Record>, id: nat)
    ensures About(a + b, id) == About(a, id) + About(b, id)
    decreases |b|
  {
    if b == [] {
      assert a + b == a;
    } else {
      var n := |b| - 1;
      assert (a + b)[..|a + b| - 1] == a + b[..n];
      AboutConcat(a, b[..n], id);
    }
  }

  /** Records about other objects only. */
  lemma {:induction false} AboutNone(recs: seq<Record>, id: nat)
    requires forall i :: 0 <= i < |recs| ==> recs[i].target != id
    ensures About(recs, id) == []
  {
    if recs != [] {
      AboutNone(recs[..|recs| - 1], id);
    }
  }

  lemma {:induction false} AboutOne(recs: seq<Record>, i: nat)
    requires i < |recs| && forall j :: 0 <= j < |recs| && j != i ==> recs[j].target != recs[i].target
    ensures About(recs, recs[i].target) == [recs[i]]
    decreases |recs|
  {
    var n := |recs| - 1;
    if i == n {
      AboutNone(recs[..n], recs[i].target);
    } else {
      AboutOne(recs[..n], i);
    }
  }

  /** A flush holds exactly the one record of each object it changed. */
  lemma FlushAbout<V>(e: Engine<V>, objects: Objects<V>, recs: seq<Record>, id: nat)
    requires Sound(objects) && id in objects && FlushRecords(e, objects, recs)
    ensures About(recs, id) == if AuditedChanges(e, objects[id]) == {} then [] else [RecordFor(e, id, objects[id])]
  {
    if AuditedChanges(e, objects[id]) == {} {
      AboutNone(recs, id);
    } else {
      assert Targets(recs, id);
      var i :| 0 <= i < |recs| && recs[i].target == id;
      AboutOne(recs, i);
      assert RecordOf(e, objects, recs[i]);
    }
  }

  // ------------------------------------------------ runs of writes and flushes

  datatype Step<V> =
    | Write(id: nat, a: Attr, v: V)
    | Flushed(recs: seq<Record>)

  datatype Store<V> = Store(objects: Objects<V>, log: seq<Record>)

  ghost predicate CanStep<V>(e: Engine<V>, s: Store<V>, step: Step<V>)
    requires Sound(s.objects)
  {
    match step
    case Write(id, a, _) => id in s.objects && a in s.objects[id].current
    case Flushed(recs) => FlushRecords(e, s.objects, recs)
  }

  function DoStep<V>(s: Store<V>, step: Step<V>): Store<V> {
    match step
    case Write(id, a, v) =>
      if id in s.objects
      then s.(objects := s.objects[id := s.objects[id].(current := s.objects[id].current[a := v])]) else s
    case Flushed(recs) => Store(map id | id in s.objects :: Committed(s.objects[id]), s.log + recs)
  }

  function DoSteps<V>(s: Store<V>, steps: seq<Step<V>>): Store<V>
    decreases |steps|
  {
    if steps == [] then s else DoSteps(DoStep(s, steps[0]), steps[1..])
  }

  ghost predicate CanRun<V>(e: Engine<V>, s: Store<V>, steps: seq<Step<V>>)
    decreases |steps|
  {
    Sound(s.objects) && (steps == [] || (CanStep(e, s, steps[0]) && CanRun(e, DoStep(s, steps[0]), steps[1..])))
  }

  /** The log replays forward to the flushed row and backward to where it started. */
  ghost predicate Chains<V>(e: Engine<V>, start: Snapshot, s: Store<V>, id: nat)
    requires id in s.objects
  {
    && Forward(start, About(s.log, id)) == Rendered(e, s.objects[id].loaded)
    && Backward(Rendered(e, s.objects[id].loaded), About(s.log, id)) == start
  }

  lemma StepChains<V>(e: Engine<V>, start: Snapshot, s: Store<V>, step: Step<V>, id: nat)
    requires Sound(s.objects) && CanStep(e, s, step) && id in s.objects && Chains(e, start, s, id)
    ensures Sound(DoStep(s, step).objects) && id in DoStep(s, step).objects && Chains(e, start, DoStep(s, step), id)
  {
    if step.Flushed? {
      var row := s.objects[id];
      FlushAbout(e, s.objects, step.recs, id);
      AboutConcat(s.log, step.recs, id);
      if AuditedChanges(e, row) == {} {
        UnchangedRenders(e, row);
        assert About(s.log, id) + [] == About(s.log, id);
      } else {
        RecordIsPatch(e, id, row);
        ReplayAppend(start, About(s.log, id), RecordFor(e, id, row));
        ReplayAppend(Rendered(e, row.current), About(s.log, id), RecordFor(e, id, row));
      }
    }
  }

  /** Over any sequence of writes and flushes, in any flush order, the log stays an invertible patch chain. */
  lemma {:induction false} AuditChain<V>(e: Engine<V>, start: Snapshot, s: Store<V>, steps: seq<Step<V>>, id: nat)
    requires CanRun(e, s, steps) && id in s.objects && Chains(e, start, s, id)
    ensures var s' := DoSteps(s, steps); id in s'.objects && Chains(e, start, s', id)
    decreases |steps|
  {
    if steps != [] {
      StepChains(e, start, s, steps[0], id);
      AuditChain(e, start, DoStep(s, steps[0]), steps[1..], id);
    }
  }

  /** From an empty log: the records turn the first rendered row into the last one, and back. */
  lemma AuditReplay<V>(e: Engine<V>, s: Store<V>, steps: seq<Step<V>>, id: nat)
    requires CanRun(e, s, steps) && id in s.objects && s.log == []
    ensures id in DoSteps(s, steps).objects && Sound(DoSteps(s, steps).objects)
    ensures var s' := DoSteps(s, steps);
            var first, last := Rendered(e, s.objects[id].loaded), Rendered(e, s'.objects[id].current);
            var recs := About(s'.log, id);
            AuditedChanges(e, s'.objects[id]) == {} ==> Forward(first, recs) == last && Backward(last, recs) == first
  {
    AuditChain(e, Rendered(e, s.objects[id].loaded), s, steps, id);
    RunSound(e, s, steps);
    var row := DoSteps(s, steps).objects[id];
    if AuditedChanges(e, row) == {} {
      UnchangedRenders(e, row);
    }
  }

  lemma {:induction false} RunSound<V>(e: Engine<V>, s: Store<V>, steps: seq<Step<V>>)
    requires CanRun(e, s, steps)
    ensures Sound(DoSteps(s, steps).objects)
    decreases |steps|
  {
    if steps != [] {
      RunSound(e, DoStep(s, steps[0]), steps[1..]);
    }
  }

  /** A flush writes no record exactly when no audited column differs from its loaded value. */
  lemma NoNetChangeNoRecord<V>(e: Engine<V>, objects: Objects<V>, recs: seq<Record>)
    requires Sound(objects) && FlushRecords(e, objects, recs)
    ensures recs == [] <==>
            forall id, a :: id in objects && a in objects[id].current && a !in e.excluded ==>
                objects[id].current[a] == objects[id].loaded[a]
  {
    if recs != [] {
      assert RecordOf(e, objects, recs[0]);
      var id := recs[0].target;
      var a :| a in AuditedChanges(e, objects[id]);
      assert a in objects[id].current && objects[id].current[a] != objects[id].loaded[a];
    } else {
      forall id, a | id in objects && a in objects[id].current && a !in e.excluded
        ensures a !in AuditedChanges(e, objects[id])
      {
        assert !Targets(recs, id);
      }
    }
  }

  /** A bulk UPDATE statement sets a column behind the hook's back. */
  function BulkSet<V>(s: Store<V>, id: nat, a: Attr, v: V): Store<V>
    requires id in s.objects
  {
    s.(objects := s.objects[id := Row(s.objects[id].loaded[a := v], s.objects[id].current[a := v])])
  }

  /** After one the log still replays to the row exactly when the column is skipped or renders as before. */
  lemma BulkUpdateEscapesLog<V>(e: Engine<V>, start: Snapshot, s: Store<V>, id: nat, a: Attr, v: V)
    requires id in s.objects && a in s.objects[id].loaded && Chains(e, start, s, id)
    ensures Forward(start, About(s.log, id)) == Rendered(e, BulkSet(s, id, a, v).objects[id].loaded)
       <==> a in e.excluded || e.render(v) == e.render(s.objects[id].loaded[a])
  {
    var before := Rendered(e, s.objects[id].loaded);
    var after := Rendered(e, BulkSet(s, id, a, v).objects[id].loaded);
    if a !in e.excluded {
      assert before[a] == e.render(s.objects[id].loaded[a]) && after[a] == e.render(v);
    }
    assert forall b :: b in before && b != a ==> before[b] == after[b];
    if a in e.excluded || e.render(v) == e.render(s.objects[id].loaded[a]) {
      assert before == after;
    }
  }
}
