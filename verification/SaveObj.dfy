/** `SaveObj`: an object whose columns are written behind, with a dirty flag and a tick counter. */
module SaveObj {
  /** `GameServerRepo.persistent_time`. */
  const PERSISTENT_TIME: nat := 5

  datatype DbValue = Nothing | Int(i: int) | Text(s: string)

  type Attr = string
  type Row = map<Attr, DbValue>

  /** The columns and the key columns of the table. The columns in `custom` have their own load and
      save functions, which keep the value in attributes of the subclass; `restore` is what such a
      load function makes of a stored value. */
  datatype Schema = Schema(cols: set<Attr>, keyCols: set<Attr>, custom: set<Attr>, restore: (Attr, DbValue) -> DbValue)

  /** The data of one UPDATE statement. */
  datatype Snapshot = Snapshot(columns: Row, keys: Row)

  /** `_dbdata`, the attributes of the subclass, the flag, the counter, and the UPDATE statements
      issued. `saved` is the data at the last UPDATE or load, or at the start. */
  datatype State = State(dbdata: Row, own: Row, dirty: bool, tickNum: nat, updates: seq<Snapshot>, saved: Snapshot)

  function Get(row: Row, a: Attr): DbValue {
    if a in row then row[a] else Nothing
  }

  function ColumnsData(c: Schema, dbdata: Row, own: Row, cols: set<Attr>): Row {
    map a | a in cols :: if a in c.custom then Get(own, a) else Get(dbdata, a)
  }

  function Current(c: Schema, dbdata: Row, own: Row): Snapshot {
    Snapshot(ColumnsData(c, dbdata, own, c.cols), ColumnsData(c, dbdata, own, c.keyCols))
  }

  function CurrentOf(c: Schema, s: State): Snapshot {
    Current(c, s.dbdata, s.own)
  }

  function Initial(c: Schema, own: Row): State {
    State(map[], own, false, 0, [], Current(c, map[], own))
  }

  /** What happens to an object: a generated setter, a change of an attribute of the subclass
      behind `update()`, a reply to `queryDb`, a tick, `destroy`. */
  datatype Event = Set(attr: Attr, val: DbValue) | Mutate(attr: Attr, val: DbValue) | Load(data: Row) | Tick | Destroy

  /** `_saveToDb`. */
  function Updated(c: Schema, s: State): State {
    s.(dirty := false, updates := s.updates + [CurrentOf(c, s)], saved := CurrentOf(c, s))
  }

  /** The loaded values of generated and of own load functions, as far as they were called. */
  function LoadedPlain(c: Schema, data: Row, done: set<Attr>): Row {
    map a | a in data && a in done && a !in c.custom :: data[a]
  }

  function LoadedOwn(c: Schema, data: Row, done: set<Attr>): Row {
    map a | a in data && a in done && a in c.custom :: c.restore(a, data[a])
  }

  function Loaded(c: Schema, s: State, data: Row): State {
    var t := s.(dbdata := s.dbdata + LoadedPlain(c, data, data.Keys), own := s.own + LoadedOwn(c, data, data.Keys));
    t.(saved := CurrentOf(c, t))
  }

  function After(c: Schema, s: State, e: Event): State {
    match e
    case Set(attr, val) => s.(dbdata := s.dbdata[attr := val], dirty := true)
    case Mutate(attr, val) => s.(own := s.own[attr := val], dirty := true)
    case Load(data) => Loaded(c, s, data)
    case Tick =>
      if s.tickNum + 1 >= PERSISTENT_TIME then
        var t := s.(tickNum := 0);
        if s.dirty then Updated(c, t) else t
      else s.(tickNum := s.tickNum + 1)
    case Destroy => if s.dirty then Updated(c, s) else s
  }

  function AfterAll(c: Schema, s: State, events: seq<Event>): State
    decreases |events|
  {
    if events == [] then s else AfterAll(c, After(c, s, events[0]), events[1..])
  }

  class SaveObj {
    const schema: Schema
    var dbdata: Row
    var own: Row
    var dirty: bool
    var tickNum: nat
    var updates: seq<Snapshot>
    ghost var saved: Snapshot

    ghost function Value(): State
      reads this
    {
      State(dbdata, own, dirty, tickNum, updates, saved)
    }

    constructor (schema: Schema, own: Row)
      ensures this.schema == schema && Value() == Initial(schema, own)
    {
      this.schema := schema;
      this.own := own;
      dbdata, dirty, tickNum, updates := map[], false, 0, [];
      saved := Current(schema, map[], own);
    }

    method Update()
      modifies this`dirty
      ensures dirty
    {
      dirty := true;
    }

    /** A generated setter. */
    method SetAttr(attr: Attr, val: DbValue)
      modifies this
      ensures Value() == After(schema, old(Value()), Set(attr, val))
    {
      dbdata := dbdata[attr := val];
      dirty := true;
    }

    /** A method of the subclass like `set_channel`. */
    method Mutate(attr: Attr, val: DbValue)
      modifies this
      ensures Value() == After(schema, old(Value()), Event.Mutate(attr, val))
    {
      Update();
      own := own[attr := val];
    }

    method GetColumnsData(cols: set<Attr>) returns (row: Row)
      ensures row == ColumnsData(schema, dbdata, own, cols)
    {
      row := map[];
      var todo := cols;
      while todo != {}
        invariant todo <= cols
        invariant row == ColumnsData(schema, dbdata, own, cols - todo)
        decreases todo
      {
        var attr :| attr in todo;
        row := row[attr := if attr in schema.custom then Get(own, attr) else Get(dbdata, attr)];
        todo := todo - {attr};
      }
    }

    method SaveToDbNow()
      modifies this
      ensures Value() == Updated(schema, old(Value()))
    {
      dirty := false;
      var columns := GetColumnsData(schema.cols);
      var keys := GetColumnsData(schema.keyCols);
      updates := updates + [Snapshot(columns, keys)];
      saved := Snapshot(columns, keys);
    }

    method OnTick()
      modifies this
      ensures Value() == After(schema, old(Value()), Tick)
    {
      tickNum := tickNum + 1;
      if tickNum >= PERSISTENT_TIME {
        tickNum := 0;
        if dirty {
          SaveToDbNow();
        }
      }
    }

    method Destroy()
      modifies this
      ensures Value() == After(schema, old(Value()), Event.Destroy)
    {
      if dirty {
        SaveToDbNow();
      }
    }

    /** The reply to a query: the load functions of the columns in the reply, in any order. */
    method LoadFromDb(data: Row) returns (success: bool)
      requires data.Keys <= schema.cols
      modifies this
      ensures Value() == After(schema, old(Value()), Load(data)) && success == (data != map[])
    {
      var todo := data.Keys;
      ghost var dbdata0, own0 := dbdata, own;
      while todo != {}
        invariant todo <= data.Keys
        invariant dbdata == dbdata0 + LoadedPlain(schema, data, data.Keys - todo)
        invariant own == own0 + LoadedOwn(schema, data, data.Keys - todo)
        invariant dirty == old(dirty) && tickNum == old(tickNum) && updates == old(updates) && saved == old(saved)
        decreases todo
      {
        var attr :| attr in todo;
        LoadStep(schema, data, data.Keys - todo, attr, dbdata0, own0);
        if attr in schema.custom {
          own := own[attr := schema.restore(attr, data[attr])];
        } else {
          dbdata := dbdata[attr := data[attr]];
        }
        assert data.Keys - (todo - {attr}) == data.Keys - todo + {attr};
        todo := todo - {attr};
      }
      assert data.Keys - todo == data.Keys;
      saved := Current(schema, dbdata, own);
      success := data != map[];
    }
  }

  lemma LoadStep(c: Schema, data: Row, done: set<Attr>, a: Attr, dbdata: Row, own: Row)
    requires a in data && a !in done
    ensures a in c.custom ==>
      && LoadedPlain(c, data, done + {a}) == LoadedPlain(c, data, done)
      && own + LoadedOwn(c, data, done + {a}) == (own + LoadedOwn(c, data, done))[a := c.restore(a, data[a])]
    ensures a !in c.custom ==>
      && LoadedOwn(c, data, done + {a}) == LoadedOwn(c, data, done)
      && dbdata + LoadedPlain(c, data, done + {a}) == (dbdata + LoadedPlain(c, data, done))[a := data[a]]
  {
  }

  // ----- every run -----

  /** A clean object's data are those of its last UPDATE or load, or of its start. */
  ghost predicate Faithful(c: Schema, s: State) {
    (!s.dirty ==> CurrentOf(c, s) == s.saved) && s.tickNum < PERSISTENT_TIME
  }

  lemma EventKeepsFaithful(c: Schema, s: State, e: Event)
    requires Faithful(c, s)
    ensures Faithful(c, After(c, s, e))
  {
  }

  lemma {:induction false} EveryRunIsFaithful(c: Schema, s: State, events: seq<Event>)
    requires Faithful(c, s)
    ensures Faithful(c, AfterAll(c, s, events))
    decreases |events|
  {
    hide Faithful, After;
    if events != [] {
      EventKeepsFaithful(c, s, events[0]);
      EveryRunIsFaithful(c, After(c, s, events[0]), events[1..]);
    }
  }

  // ----- what a setter does to the columns -----

  /** One column of the object. */
  function Column(c: Schema, s: State, a: Attr): DbValue {
    if a in c.custom then Get(s.own, a) else Get(s.dbdata, a)
  }

  lemma ColumnsDataIs(c: Schema, s: State, cols: set<Attr>, row: Row)
    requires row.Keys == cols && forall a | a in cols :: row[a] == Column(c, s, a)
    ensures ColumnsData(c, s.dbdata, s.own, cols) == row
  {
  }

  lemma ColumnsOf(c: Schema, s: State, cols: set<Attr>)
    ensures var row := ColumnsData(c, s.dbdata, s.own, cols);
      row.Keys == cols && forall a | a in cols :: row[a] == Column(c, s, a)
  {
  }

  function Put(row: Row, a: Attr, val: DbValue): Row {
    if a in row then row[a := val] else row
  }

  /** A generated setter stores its value in its column and key column and nothing else, and marks the
      object as dirty; a column with functions of its own is not saved from there. A change behind
      `update()` does the same for these columns. */
  lemma SetterStores(c: Schema, s: State, a: Attr, val: DbValue)
    ensures var t, u, now := After(c, s, Set(a, val)), After(c, s, Mutate(a, val)), CurrentOf(c, s);
      var changed := Snapshot(Put(now.columns, a, val), Put(now.keys, a, val));
      && t.dirty && CurrentOf(c, t) == (if a in c.custom then now else changed)
      && u.dirty && CurrentOf(c, u) == (if a in c.custom then changed else now)
      && t.updates == u.updates == s.updates && t.saved == u.saved == s.saved
  {
    hide ColumnsData, Put;
    PutInto(c, s, After(c, s, Set(a, val)), c.cols, a, val, a !in c.custom);
    PutInto(c, s, After(c, s, Set(a, val)), c.keyCols, a, val, a !in c.custom);
    PutInto(c, s, After(c, s, Mutate(a, val)), c.cols, a, val, a in c.custom);
    PutInto(c, s, After(c, s, Mutate(a, val)), c.keyCols, a, val, a in c.custom);
  }

  /** A change of one column, or of none. */
  lemma PutInto(c: Schema, s: State, t: State, cols: set<Attr>, a: Attr, val: DbValue, changed: bool)
    requires forall b :: Column(c, t, b) == if changed && b == a then val else Column(c, s, b)
    ensures var now := ColumnsData(c, s.dbdata, s.own, cols);
      ColumnsData(c, t.dbdata, t.own, cols) == if changed then Put(now, a, val) else now
  {
    hide Column, ColumnsData;
    var now := ColumnsData(c, s.dbdata, s.own, cols);
    ColumnsOf(c, s, cols);
    ColumnsDataIs(c, t, cols, if changed then Put(now, a, val) else now);
  }

  // ----- what a reply does to the columns -----

  /** What a load function makes of a stored value. */
  function Stored(c: Schema, a: Attr, val: DbValue): DbValue {
    if a in c.custom then c.restore(a, val) else val
  }

  /** Columns with those of a reply put in. */
  function RestoredRow(c: Schema, before: Row, data: Row): Row {
    map a | a in before :: if a in data then Stored(c, a, data[a]) else before[a]
  }

  function Restored(c: Schema, before: Snapshot, data: Row): Snapshot {
    Snapshot(RestoredRow(c, before.columns, data), RestoredRow(c, before.keys, data))
  }

  lemma LoadedValue(c: Schema, s: State, data: Row, a: Attr)
    ensures var t := Loaded(c, s, data);
      && Get(t.dbdata, a) == (if a in data && a !in c.custom then data[a] else Get(s.dbdata, a))
      && Get(t.own, a) == (if a in data && a in c.custom then c.restore(a, data[a]) else Get(s.own, a))
  {
  }

  lemma RowRestored(c: Schema, s: State, data: Row, cols: set<Attr>)
    ensures var t := Loaded(c, s, data);
      ColumnsData(c, t.dbdata, t.own, cols) == RestoredRow(c, ColumnsData(c, s.dbdata, s.own, cols), data)
  {
    hide Loaded, Get;
    forall a | a in cols
      ensures var t := Loaded(c, s, data);
        ColumnsData(c, t.dbdata, t.own, cols)[a] == RestoredRow(c, ColumnsData(c, s.dbdata, s.own, cols), data)[a]
    {
      LoadedValue(c, s, data, a);
    }
  }

  /** A load changes exactly the columns of the reply, to the values in it. */
  lemma LoadRestores(c: Schema, s: State, data: Row)
    ensures CurrentOf(c, After(c, s, Load(data))) == Restored(c, CurrentOf(c, s), data)
  {
    hide Loaded, ColumnsData, RestoredRow;
    RowRestored(c, s, data, c.cols);
    RowRestored(c, s, data, c.keyCols);
  }

  /** The data at the last UPDATE statement of a run, or what the last load put into the data
      before it, or those at the start. */
  ghost function SavedBy(c: Schema, s: State, events: seq<Event>): Snapshot
    decreases |events|
  {
    if events == [] then CurrentOf(c, s)
    else
      var before := AfterAll(c, s, events[..|events| - 1]);
      var after := AfterAll(c, s, events);
      var last := events[|events| - 1];
      if |after.updates| > |before.updates| then after.updates[|after.updates| - 1]
      else if last.Load? then Restored(c, CurrentOf(c, before), last.data)
      else SavedBy(c, s, events[..|events| - 1])
  }

  lemma {:induction false} AfterOneMore(c: Schema, s: State, events: seq<Event>, e: Event)
    ensures AfterAll(c, s, events + [e]) == After(c, AfterAll(c, s, events), e)
    decreases |events|
  {
    hide After;
    if events == [] {
      assert [e][1..] == [];
      assert AfterAll(c, After(c, s, e), []) == After(c, s, e);
      assert events + [e] == [e];
    } else {
      assert (events + [e])[1..] == events[1..] + [e];
      AfterOneMore(c, After(c, s, events[0]), events[1..], e);
    }
  }

  lemma {:induction false} SavedIsLastUpdateOrLoad(c: Schema, s: State, events: seq<Event>)
    requires s.saved == CurrentOf(c, s)
    ensures AfterAll(c, s, events).saved == SavedBy(c, s, events)
    decreases |events|
  {
    if events != [] {
      var front, e := events[..|events| - 1], events[|events| - 1];
      assert events == front + [e];
      AfterOneMore(c, s, front, e);
      SavedIsLastUpdateOrLoad(c, s, front);
      if e.Load? {
        LoadRestores(c, AfterAll(c, s, front), e.data);
      }
    }
  }

  /** Write-behind: in every run of a new object, while it is clean its data are those of its last
      UPDATE or load, or those it started with. */
  lemma CleanIsSaved(c: Schema, own: Row, events: seq<Event>)
    ensures var s := AfterAll(c, Initial(c, own), events);
      !s.dirty ==> CurrentOf(c, s) == SavedBy(c, Initial(c, own), events)
  {
    EveryRunIsFaithful(c, Initial(c, own), events);
    SavedIsLastUpdateOrLoad(c, Initial(c, own), events);
  }

  function Ticks(events: seq<Event>): nat {
    if events == [] then 0 else (if events[0].Tick? then 1 else 0) + Ticks(events[1..])
  }

  // ----- exactly what is written when -----

  /** The value that the last event about a column gave it, and `first` if there was none. */
  function LastGiven(c: Schema, events: seq<Event>, a: Attr, first: DbValue): DbValue
    decreases |events|
  {
    if events == [] then first
    else
      var before := LastGiven(c, events[..|events| - 1], a, first);
      match events[|events| - 1]
      case Set(attr, val) => if attr == a && a !in c.custom then val else before
      case Mutate(attr, val) => if attr == a && a in c.custom then val else before
      case Load(data) => if a in data then Stored(c, a, data[a]) else before
      case _ => before
  }

  /** The columns that a new object has after some events. */
  function Given(c: Schema, own: Row, events: seq<Event>, cols: set<Attr>): Row {
    map a | a in cols :: LastGiven(c, events, a, if a in c.custom && a in own then own[a] else Nothing)
  }

  /** Whether there has been a change since the last time at which changes were written: at every
      fifth tick and by `destroy`. */
  predicate Unsaved(events: seq<Event>)
    decreases |events|
  {
    events != [] &&
    var before := events[..|events| - 1];
    match events[|events| - 1]
    case Set(_, _) => true
    case Mutate(_, _) => true
    case Load(_) => Unsaved(before)
    case Tick => Ticks(events) % 5 != 0 && Unsaved(before)
    case Destroy => false
  }

  /** The UPDATE statements of a run: one at every fifth tick and one by `destroy`, if there has been
      a change, with the last values that every column was given. */
  function UpdatesOf(c: Schema, own: Row, events: seq<Event>): seq<Snapshot>
    decreases |events|
  {
    if events == [] then []
    else
      var before, e := events[..|events| - 1], events[|events| - 1];
      UpdatesOf(c, own, before)
      + if Unsaved(before) && (e.Destroy? || (e.Tick? && Ticks(events) % 5 == 0))
        then [Snapshot(Given(c, own, before, c.cols), Given(c, own, before, c.keyCols))]
        else []
  }

  lemma {:induction false} TicksAppend(events: seq<Event>, e: Event)
    ensures Ticks(events + [e]) == Ticks(events) + (if e.Tick? then 1 else 0)
  {
    if events == [] {
      assert [] + [e] == [e];
    } else {
      TicksAppend(events[1..], e);
      assert (events + [e])[1..] == events[1..] + [e];
    }
  }

  lemma ColumnAfter(c: Schema, s: State, e: Event, a: Attr)
    ensures Column(c, After(c, s, e), a) ==
      match e
      case Set(attr, val) => if attr == a && a !in c.custom then val else Column(c, s, a)
      case Mutate(attr, val) => if attr == a && a in c.custom then val else Column(c, s, a)
      case Load(data) => if a in data then Stored(c, a, data[a]) else Column(c, s, a)
      case _ => Column(c, s, a)
  {
    if e.Load? {
      LoadedValue(c, s, e.data, a);
    }
  }

  /** In every run each column holds the last value that an event gave it. */
  lemma {:induction false} ColumnIsLastGiven(c: Schema, own: Row, events: seq<Event>, a: Attr)
    ensures Column(c, AfterAll(c, Initial(c, own), events), a) ==
      LastGiven(c, events, a, if a in c.custom && a in own then own[a] else Nothing)
    decreases |events|
  {
    if events != [] {
      hide After, Column;
      var front, e := events[..|events| - 1], events[|events| - 1];
      assert events == front + [e];
      AfterOneMore(c, Initial(c, own), front, e);
      ColumnIsLastGiven(c, own, front, a);
      ColumnAfter(c, AfterAll(c, Initial(c, own), front), e, a);
    }
  }

  lemma CurrentIsGiven(c: Schema, own: Row, events: seq<Event>)
    ensures CurrentOf(c, AfterAll(c, Initial(c, own), events)) ==
      Snapshot(Given(c, own, events, c.cols), Given(c, own, events, c.keyCols))
  {
    hide AfterAll, LastGiven, ColumnsData, Column;
    var s := AfterAll(c, Initial(c, own), events);
    forall a
      ensures Column(c, s, a) == LastGiven(c, events, a, if a in c.custom && a in own then own[a] else Nothing)
    {
      ColumnIsLastGiven(c, own, events, a);
    }
    ColumnsDataIs(c, s, c.cols, Given(c, own, events, c.cols));
    ColumnsDataIs(c, s, c.keyCols, Given(c, own, events, c.keyCols));
  }

  /** What the flag, the counter and the UPDATE statements are in every run of a new object: it is
      dirty exactly if a change has not been written, and the statements are exactly those above,
      each with the last values given before it, none too early and none too late. */
  lemma {:induction false} EveryRunWrites(c: Schema, own: Row, events: seq<Event>)
    ensures var s := AfterAll(c, Initial(c, own), events);
      s.dirty == Unsaved(events) && s.tickNum == Ticks(events) % 5 && s.updates == UpdatesOf(c, own, events)
    decreases |events|
  {
    if events != [] {
      hide CurrentOf, Given, Loaded, AfterAll;
      var front, e := events[..|events| - 1], events[|events| - 1];
      assert events == front + [e];
      EveryRunWrites(c, own, front);
      AfterOneMore(c, Initial(c, own), front, e);
      TicksAppend(front, e);
      CurrentIsGiven(c, own, front);
      StepWrites(c, AfterAll(c, Initial(c, own), front), e);
    } else {
      StartWrites(c, own);
    }
  }

  lemma StartWrites(c: Schema, own: Row)
    ensures var s := AfterAll(c, Initial(c, own), []); !s.dirty && s.tickNum == 0 && s.updates == []
  {
  }

  lemma StepWrites(c: Schema, s: State, e: Event)
    requires s.tickNum < 5
    ensures var t := After(c, s, e); var due := e.Destroy? || (e.Tick? && s.tickNum == 4);
      && t.dirty == (e.Set? || e.Mutate? || (s.dirty && !due))
      && t.tickNum == (if e.Tick? then (s.tickNum + 1) % 5 else s.tickNum)
      && t.updates == s.updates + (if due && s.dirty then [CurrentOf(c, s)] else [])
  {
    hide Current;
  }

  lemma {:induction false} UpdatesGrow(c: Schema, s: State, events: seq<Event>)
    ensures s.updates <= AfterAll(c, s, events).updates
    decreases |events|
  {
    if events != [] {
      UpdatesGrow(c, After(c, s, events[0]), events[1..]);
    }
  }

  /** A dirty object issues an UPDATE within `persistent_time` ticks, whatever else happens. */
  lemma {:induction false} DirtyIsSavedInTime(c: Schema, s: State, events: seq<Event>)
    requires Faithful(c, s) && s.dirty && Ticks(events) >= PERSISTENT_TIME - s.tickNum
    ensures |AfterAll(c, s, events).updates| > |s.updates|
    decreases |events|
  {
    var t := After(c, s, events[0]);
    EventKeepsFaithful(c, s, events[0]);
    if |t.updates| > |s.updates| {
      UpdatesGrow(c, t, events[1..]);
    } else {
      DirtyIsSavedInTime(c, t, events[1..]);
    }
  }

  /** `destroy` issues an UPDATE exactly if the object is dirty and leaves nothing unsaved. */
  lemma DestroySavesAll(c: Schema, own: Row, events: seq<Event>)
    ensures var s := AfterAll(c, Initial(c, own), events);
      var t := After(c, s, Destroy);
      && !t.dirty && CurrentOf(c, t) == CurrentOf(c, s)
      && t.updates == (if s.dirty then s.updates + [CurrentOf(c, s)] else s.updates)
      && CurrentOf(c, t) == SavedBy(c, Initial(c, own), events + [Destroy])
  {
    var s := AfterAll(c, Initial(c, own), events);
    AfterOneMore(c, Initial(c, own), events, Destroy);
    EveryRunIsFaithful(c, Initial(c, own), events);
    CleanIsSaved(c, own, events + [Destroy]);
  }
}
