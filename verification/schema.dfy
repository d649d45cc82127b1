// Schema migration (dynamicparse/src/dynamicparseimp.cpp:212-442): the statements that bring a database in
// line with the message definitions, and running them in order.
module SchemaMigration {

  datatype Option<T> = None | Some(value: T)

  // ---------- Message definitions ----------

  datatype Kind = Int32 | Bool | UInt32 | Int64 | UInt64 | String | Bytes | Message | OtherKind

  datatype Field = Field(name: string, repeated: bool, required: bool, kind: Kind)

  // A top-level message with its name after the last dot.
  datatype MessageDef = MessageDef(name: string, fields: seq<Field>)

  // getTableFieldType: empty for the kinds it does not know.
  function SqlType(f: Field): string {
    if f.repeated then "blob "
    else
      match f.kind
      case Int32 => "int(11) "
      case Bool => "int(11) "
      case UInt32 => "int(11) unsigned "
      case Int64 => "bigint(20) "
      case UInt64 => "bigint(20) unsigned "
      case String => "text "
      case Bytes => "text "
      case Message => "blob "
      case OtherKind => ""
  }

  // ---------- The database ----------

  // What a row has in a column: stored data, the default of a new column, or an empty repeated field.
  datatype Cell = Stored(data: int) | DefaultValue | EmptyRepeated

  datatype Table = Table(columns: seq<string>, rows: seq<map<string, Cell>>)

  type Schema = map<string, Table>

  datatype Statement =
    | AddColumn(table: string, field: Field, after: Option<string>)
    | SetEmpty(table: string, column: string)
    | DropTable(table: string)
    | CreateTable(table: string, fields: seq<Field>)

  function SetColumn(rows: seq<map<string, Cell>>, column: string, cell: Cell): seq<map<string, Cell>> {
    seq(|rows|, i requires 0 <= i < |rows| => rows[i][column := cell])
  }

  // A new column goes behind the named one, or to the end.
  function InsertColumn(columns: seq<string>, column: string, after: Option<string>): seq<string> {
    if columns == [] then [column]
    else if after == Some(columns[0]) then [columns[0], column] + columns[1..]
    else [columns[0]] + InsertColumn(columns[1..], column, after)
  }

  function Names(fields: seq<Field>): seq<string> {
    seq(|fields|, i requires 0 <= i < |fields| => fields[i].name)
  }

  predicate Distinct(s: seq<string>) {
    forall i, j :: 0 <= i < j < |s| ==> s[i] != s[j]
  }

  predicate Typed(fields: seq<Field>) {
    forall i :: 0 <= i < |fields| ==> SqlType(fields[i]) != ""
  }

  // A column that can be the primary key: not NULL, and no text or blob, which would need a key length.
  predicate IsKey(f: Field) {
    f.name == "guid" && f.required && !f.repeated && f.kind in {Int32, Bool, UInt32, Int64, UInt64}
  }

  // What CREATE TABLE asks of the fields.
  predicate Creatable(fields: seq<Field>) {
    (exists i :: 0 <= i < |fields| && IsKey(fields[i])) && Typed(fields)
  }

  // One statement, or nothing when the database rejects it.
  function Execute(db: Schema, s: Statement): Option<Schema> {
    match s
    case AddColumn(t, f, after) =>
      if t !in db || f.name in db[t].columns || SqlType(f) == "" then None
      else if after.Some? && after.value !in db[t].columns then None
      else Some(db[t := Table(InsertColumn(db[t].columns, f.name, after), SetColumn(db[t].rows, f.name, DefaultValue))])
    case SetEmpty(t, c) =>
      if t !in db || c !in db[t].columns then None
      else Some(db[t := db[t].(rows := SetColumn(db[t].rows, c, EmptyRepeated))])
    case DropTable(t) => Some(db - {t})
    case CreateTable(t, fields) =>
      if t in db || !Creatable(fields) || !Distinct(Names(fields)) then None
      else Some(db[t := Table(Names(fields), [])])
  }

  // The database after the statements up to the first rejected one, and whether there was none.
  datatype Outcome = Outcome(db: Schema, ok: bool)

  function Run(db: Schema, ss: seq<Statement>): Outcome {
    if ss == [] then Outcome(db, true)
    else
      var before := Run(db, ss[..|ss| - 1]);
      if !before.ok then before
      else
        var r := Execute(before.db, ss[|ss| - 1]);
        if r.None? then Outcome(before.db, false) else Outcome(r.value, true)
  }

  // updatedbChanged: 0 or, after an exception, -1.
  method UpdatedbChanged(db0: Schema, changed: seq<Statement>) returns (db: Schema, result: int)
    ensures Outcome(db, result == 0) == Run(db0, changed) && (result == 0 || result == -1)
  {
    db, result := db0, 0;
    for i := 0 to |changed|
      invariant result == 0 && Run(db0, changed[..i]) == Outcome(db, true)
    {
      assert changed[..i + 1][..i] == changed[..i];
      var r := Execute(db, changed[i]);
      if r.None? {
        RunStops(db0, changed, i + 1);
        return db, -1;
      }
      db := r.value;
    }
    assert changed[..|changed|] == changed;
  }

  lemma {:induction false} RunStops(db: Schema, ss: seq<Statement>, n: nat)
    requires n <= |ss| && !Run(db, ss[..n]).ok
    ensures Run(db, ss) == Run(db, ss[..n])
    decreases |ss|
  {
    if n == |ss| {
      assert ss[..n] == ss;
    } else {
      assert ss[..|ss| - 1][..n] == ss[..n];
      RunStops(db, ss[..|ss| - 1], n);
    }
  }

  lemma {:induction false} RunInPieces(db: Schema, a: seq<Statement>, b: seq<Statement>)
    ensures Run(db, a + b) == if Run(db, a).ok then Run(Run(db, a).db, b) else Run(db, a)
  {
    if b == [] {
      assert a + b == a;
    } else {
      assert (a + b)[..|a + b| - 1] == a + b[..|b| - 1];
      RunInPieces(db, a, b[..|b| - 1]);
    }
  }

  // ---------- Comparing ----------

  // The columns that each table had when the database was looked at.
  type Snapshot = map<string, set<string>>

  function Elements(s: seq<string>): set<string> {
    set c | c in s
  }

  lemma ElementsNext(s: seq<string>, j: nat)
    requires j < |s|
    ensures Elements(s[..j + 1]) == Elements(s[..j]) + {s[j]}
    ensures j == 0 ==> Elements(s[..j + 1]) == {s[j]}
  {
    assert s[..j + 1] == s[..j] + [s[j]];
  }

  function Columns(t: Table): set<string> {
    Elements(t.columns)
  }

  // querydbDesc.
  function SnapshotOf(db: Schema): Snapshot {
    map t | t in db :: Columns(db[t])
  }

  method QuerydbDesc(db: Schema) returns (outcols: Snapshot)
    requires forall t :: t in db ==> db[t].columns != []
    ensures outcols == SnapshotOf(db)
  {
    outcols := map[];
    var todo := db.Keys;
    while todo != {}
      invariant todo <= db.Keys && outcols == map t | t in db && t !in todo :: Columns(db[t])
      decreases |todo|
    {
      var t :| t in todo;
      var columns := db[t].columns;
      ghost var before := outcols;
      for j := 0 to |columns|
        invariant t !in before && outcols == if j == 0 then before else before[t := Elements(columns[..j])]
      {
        ElementsNext(columns, j);
        if t !in outcols {
          outcols := outcols[t := {columns[j]}];
        } else {
          outcols := outcols[t := outcols[t] + {columns[j]}];
        }
      }
      assert columns[..|columns|] == columns;
      todo := todo - {t};
    }
  }

  // The statements for field j of a table that exists.
  function FieldStatements(m: MessageDef, columns: set<string>, j: nat): seq<Statement>
    requires j < |m.fields|
  {
    var f := m.fields[j];
    if f.name in columns then []
    else
      [AddColumn(m.name, f, if j > 0 then Some(m.fields[j - 1].name) else None)]
      + if f.repeated then [SetEmpty(m.name, f.name)] else []
  }

  function AlterStatements(m: MessageDef, columns: set<string>, n: nat): seq<Statement>
    requires n <= |m.fields|
  {
    if n == 0 then [] else AlterStatements(m, columns, n - 1) + FieldStatements(m, columns, n - 1)
  }

  function MessageStatements(snapshot: Snapshot, m: MessageDef): seq<Statement> {
    if m.name in snapshot then AlterStatements(m, snapshot[m.name], |m.fields|)
    else [DropTable(m.name), CreateTable(m.name, m.fields)]
  }

  function AllStatements(snapshot: Snapshot, ms: seq<MessageDef>): seq<Statement> {
    if ms == [] then []
    else AllStatements(snapshot, ms[..|ms| - 1]) + MessageStatements(snapshot, ms[|ms| - 1])
  }

  // The inner loop of checkEntity.
  method CheckFields(columns: set<string>, m: MessageDef, before: seq<Statement>) returns (changed: seq<Statement>)
    ensures changed == before + AlterStatements(m, columns, |m.fields|)
  {
    changed := before;
    for j := 0 to |m.fields|
      invariant changed == before + AlterStatements(m, columns, j)
    {
      var f := m.fields[j];
      if f.name in columns {
        continue;
      }
      changed := changed + [AddColumn(m.name, f, if j > 0 then Some(m.fields[j - 1].name) else None)];
      if f.repeated {
        changed := changed + [SetEmpty(m.name, f.name)];
      }
    }
  }

  // checkEntity, over the messages of all files.
  method CheckEntity(outcols: Snapshot, ms: seq<MessageDef>) returns (changed: seq<Statement>)
    ensures changed == AllStatements(outcols, ms)
  {
    changed := [];
    for i := 0 to |ms|
      invariant changed == AllStatements(outcols, ms[..i])
    {
      var m := ms[i];
      assert ms[..i + 1][..i] == ms[..i];
      if m.name in outcols {
        changed := CheckFields(outcols[m.name], m, changed);
      } else {
        changed := changed + [DropTable(m.name)];
        changed := changed + [CreateTable(m.name, m.fields)];
      }
    }
    assert ms[..|ms|] == ms;
  }

  // ---------- What a migration does ----------

  // Every column and every stored cell of a table is still there.
  ghost predicate Extends(a: Table, b: Table) {
    && Columns(a) <= Columns(b)
    && |a.rows| == |b.rows|
    && forall i, c :: 0 <= i < |a.rows| && c in a.columns && c in a.rows[i] ==>
         c in b.rows[i] && b.rows[i][c] == a.rows[i][c]
  }

  function FirstNames(m: MessageDef, n: nat): set<string>
    requires n <= |m.fields|
  {
    set i | 0 <= i < n :: m.fields[i].name
  }

  // A message can be brought in on its own: its new fields have a type, and a new table has a key.
  predicate Acceptable(snapshot: Snapshot, m: MessageDef) {
    if m.name in snapshot then
      forall i :: 0 <= i < |m.fields| ==> m.fields[i].name in snapshot[m.name] || SqlType(m.fields[i]) != ""
    else Creatable(m.fields)
  }

  lemma {:induction false} InsertedColumns(columns: seq<string>, column: string, after: Option<string>)
    ensures forall c :: c in InsertColumn(columns, column, after) <==> c in columns || c == column
  {
    if columns != [] && after != Some(columns[0]) {
      InsertedColumns(columns[1..], column, after);
    }
  }

  lemma RunOne(db: Schema, s: Statement)
    ensures Run(db, [s]) == var r := Execute(db, s); if r.None? then Outcome(db, false) else Outcome(r.value, true)
  {
    assert [s][..0] == [] && Run(db, []) == Outcome(db, true);
  }

  lemma RunTwo(db: Schema, s: Statement, t: Statement)
    ensures Run(db, [s, t])
            == if Run(db, [s]).ok then Run(Run(db, [s]).db, [t]) else Run(db, [s])
  {
    assert [s] + [t] == [s, t];
    RunInPieces(db, [s], [t]);
  }

  ghost predicate OthersSame(db: Schema, next: Schema, name: string) {
    && (forall t :: t in db && t != name ==> t in next && next[t] == db[t])
    && (forall t :: t in next && t != name ==> t in db)
  }

  // One field of an existing table, to which fields of other messages may have been added: rejected for
  // want of a type, or because it has been added already; the column named in AFTER is always there.
  lemma FieldRun(db: Schema, m: MessageDef, columns: set<string>, others: set<string>, j: nat)
    requires m.name in db && j < |m.fields| && Distinct(Names(m.fields))
    requires Columns(db[m.name]) == columns + others + FirstNames(m, j)
    ensures var r := Run(db, FieldStatements(m, columns, j));
            var f := m.fields[j];
            && (r.ok <==> f.name in columns || (SqlType(f) != "" && f.name !in others))
            && m.name in r.db && Extends(db[m.name], r.db[m.name]) && OthersSame(db, r.db, m.name)
            && (r.ok ==> Columns(r.db[m.name]) == columns + others + FirstNames(m, j + 1))
  {
    var f := m.fields[j];
    assert FirstNames(m, j + 1) == FirstNames(m, j) + {f.name};
    if f.name !in columns {
      NewColumn(m, j);
      var after := if j > 0 then Some(m.fields[j - 1].name) else None;
      var add, fill := AddColumn(m.name, f, after), SetEmpty(m.name, f.name);
      assert f.name in Columns(db[m.name]) <==> f.name in others;
      assert after.Some? ==> after.value in Columns(db[m.name]);
      InsertedColumns(db[m.name].columns, f.name, after);
      RunOne(db, add);
      assert Run(db, [add]).ok ==> Columns(Run(db, [add]).db[m.name]) == Columns(db[m.name]) + {f.name};
      if f.repeated {
        assert FieldStatements(m, columns, j) == [add, fill];
        RunTwo(db, add, fill);
        RunOne(Run(db, [add]).db, fill);
      } else {
        assert FieldStatements(m, columns, j) == [add];
      }
    }
  }

  lemma NewColumn(m: MessageDef, j: nat)
    requires j < |m.fields| && Distinct(Names(m.fields))
    ensures m.fields[j].name !in FirstNames(m, j)
    ensures j > 0 ==> m.fields[j - 1].name in FirstNames(m, j)
  {
    forall i | 0 <= i < j
      ensures m.fields[i].name != m.fields[j].name
    {
      assert Names(m.fields)[i] != Names(m.fields)[j];
    }
  }

  lemma ExtendsTransitive(a: Table, b: Table, c: Table)
    requires Extends(a, b) && Extends(b, c)
    ensures Extends(a, c)
  {
    forall i, x | 0 <= i < |a.rows| && x in a.columns && x in a.rows[i]
      ensures x in c.rows[i] && c.rows[i][x] == a.rows[i][x]
    {
      assert x in Columns(a) && x in Columns(b);
      assert x in b.rows[i] && b.rows[i][x] == a.rows[i][x];
    }
  }

  // The first n fields are there, or have a type and have not been added for another message.
  predicate AlterAcceptable(m: MessageDef, columns: set<string>, others: set<string>, n: nat)
    requires n <= |m.fields|
  {
    forall i :: 0 <= i < n ==>
      m.fields[i].name in columns || (SqlType(m.fields[i]) != "" && m.fields[i].name !in others)
  }

  // The state of one table while its fields are being added.
  ghost predicate Altered(
      db: Schema, r: Outcome, m: MessageDef, columns: set<string>, others: set<string>, n: nat)
    requires m.name in db && n <= |m.fields|
  {
    && (r.ok <==> AlterAcceptable(m, columns, others, n))
    && m.name in r.db && Extends(db[m.name], r.db[m.name]) && OthersSame(db, r.db, m.name)
    && (r.ok ==> Columns(r.db[m.name]) == columns + others + FirstNames(m, n))
  }

  lemma AlterNext(db: Schema, m: MessageDef, columns: set<string>, others: set<string>, n: nat, r: Outcome)
    requires m.name in db && n < |m.fields| && Distinct(Names(m.fields))
    requires Altered(db, r, m, columns, others, n)
    ensures Altered(db, if r.ok then Run(r.db, FieldStatements(m, columns, n)) else r, m, columns, others, n + 1)
  {
    if r.ok {
      FieldRun(r.db, m, columns, others, n);
      ExtendsTransitive(db[m.name], r.db[m.name], Run(r.db, FieldStatements(m, columns, n)).db[m.name]);
    }
  }

  // Running the statements field by field.
  function FieldByField(db: Schema, m: MessageDef, columns: set<string>, n: nat): Outcome
    requires n <= |m.fields|
  {
    if n == 0 then Outcome(db, true)
    else
      var r := FieldByField(db, m, columns, n - 1);
      if r.ok then Run(r.db, FieldStatements(m, columns, n - 1)) else r
  }

  lemma {:induction false} RunsFieldByField(db: Schema, m: MessageDef, columns: set<string>, n: nat)
    requires n <= |m.fields|
    ensures Run(db, AlterStatements(m, columns, n)) == FieldByField(db, m, columns, n)
  {
    if n != 0 {
      RunsFieldByField(db, m, columns, n - 1);
      RunInPieces(db, AlterStatements(m, columns, n - 1), FieldStatements(m, columns, n - 1));
    }
  }

  lemma {:induction false} AlterRun(db: Schema, m: MessageDef, columns: set<string>, others: set<string>, n: nat)
    requires m.name in db && n <= |m.fields| && Distinct(Names(m.fields)) && Columns(db[m.name]) == columns + others
    ensures Altered(db, FieldByField(db, m, columns, n), m, columns, others, n)
  {
    if n == 0 {
      assert FirstNames(m, 0) == {};
    } else {
      AlterRun(db, m, columns, others, n - 1);
      AlterNext(db, m, columns, others, n - 1, FieldByField(db, m, columns, n - 1));
    }
  }

  // A new table, whatever was there under its name.
  lemma CreateRun(db: Schema, m: MessageDef)
    requires Distinct(Names(m.fields))
    ensures var r := Run(db, [DropTable(m.name), CreateTable(m.name, m.fields)]);
            && (r.ok <==> Creatable(m.fields))
            && OthersSame(db, r.db, m.name)
            && (r.ok ==> m.name in r.db && r.db[m.name] == Table(Names(m.fields), []))
  {
    var drop, create := DropTable(m.name), CreateTable(m.name, m.fields);
    RunTwo(db, drop, create);
    RunOne(db, drop);
    RunOne(db - {m.name}, create);
  }

  // ---------- All messages ----------

  function FieldNames(m: MessageDef): set<string> {
    Elements(Names(m.fields))
  }

  // The field names of all messages of a name.
  function NamesFor(ms: seq<MessageDef>, name: string): set<string> {
    if ms == [] then {}
    else
      var m := ms[|ms| - 1];
      NamesFor(ms[..|ms| - 1], name) + if m.name == name then FieldNames(m) else {}
  }

  // The fields of the last message of a name.
  function LastFields(ms: seq<MessageDef>, name: string): Option<seq<Field>> {
    if ms == [] then None
    else if ms[|ms| - 1].name == name then Some(ms[|ms| - 1].fields)
    else LastFields(ms[..|ms| - 1], name)
  }

  // The message comes after others of its name, and its table is known: the fields that the table lacks
  // are all its own.
  ghost predicate NoClash(snapshot: Snapshot, some: seq<MessageDef>, m: MessageDef) {
    m.name in snapshot ==> FieldNames(m) * NamesFor(some, m.name) <= snapshot[m.name]
  }

  ghost predicate NoClashes(snapshot: Snapshot, ms: seq<MessageDef>) {
    ms == [] || (NoClashes(snapshot, ms[..|ms| - 1]) && NoClash(snapshot, ms[..|ms| - 1], ms[|ms| - 1]))
  }

  ghost predicate AllAcceptable(snapshot: Snapshot, ms: seq<MessageDef>) {
    forall i :: 0 <= i < |ms| ==> Acceptable(snapshot, ms[i])
  }

  // One table after the statements for some messages: as it was, or extended by the fields of its
  // messages, or the one of the last message of its name.
  ghost predicate TableAfter(db: Schema, r: Schema, ms: seq<MessageDef>, name: string) {
    if name in db then
      name in r && Columns(r[name]) == Columns(db[name]) + NamesFor(ms, name)
    else
      match LastFields(ms, name)
      case None => name !in r
      case Some(fields) => name in r && Columns(r[name]) == Elements(Names(fields))
  }

  ghost predicate Keeps(db: Schema, next: Schema) {
    forall t :: t in db ==> t in next && Extends(db[t], next[t])
  }

  ghost predicate Migrated(db: Schema, r: Outcome, ms: seq<MessageDef>) {
    && (r.ok <==> AllAcceptable(SnapshotOf(db), ms) && NoClashes(SnapshotOf(db), ms))
    && Keeps(db, r.db)
    && (r.ok ==> forall t :: TableAfter(db, r.db, ms, t))
  }

  // What a message's statements do to a database in which earlier messages have been brought in.
  lemma MessageRun(db: Schema, b: Schema, some: seq<MessageDef>, m: MessageDef)
    requires Distinct(Names(m.fields)) && Keeps(db, b) && TableAfter(db, b, some, m.name)
    ensures var snapshot := SnapshotOf(db);
            var r := Run(b, MessageStatements(snapshot, m));
            && (r.ok <==> Acceptable(snapshot, m) && NoClash(snapshot, some, m))
            && OthersSame(b, r.db, m.name)
            && (m.name in db ==> m.name in r.db && Extends(b[m.name], r.db[m.name]))
            && (r.ok && m.name in db ==>
                  Columns(r.db[m.name]) == Columns(db[m.name]) + NamesFor(some, m.name) + FieldNames(m))
            && (r.ok && m.name !in db ==> m.name in r.db && Columns(r.db[m.name]) == FieldNames(m))
  {
    if m.name in db {
      var columns := Columns(db[m.name]);
      var others := NamesFor(some, m.name) - columns;
      assert columns + others == Columns(b[m.name]);
      RunsFieldByField(b, m, columns, |m.fields|);
      AlterRun(b, m, columns, others, |m.fields|);
      AllNames(m);
      AcceptableTogether(m, columns, NamesFor(some, m.name));
    } else {
      CreateRun(b, m);
    }
  }

  lemma AllNames(m: MessageDef)
    ensures FirstNames(m, |m.fields|) == FieldNames(m)
    ensures forall i :: 0 <= i < |m.fields| ==> m.fields[i].name in FieldNames(m)
  {
    forall i | 0 <= i < |m.fields|
      ensures m.fields[i].name in FieldNames(m)
    {
      assert Names(m.fields)[i] == m.fields[i].name;
    }
    forall x | x in FieldNames(m)
      ensures x in FirstNames(m, |m.fields|)
    {
      var i :| 0 <= i < |Names(m.fields)| && Names(m.fields)[i] == x;
      assert m.fields[i].name == x;
    }
  }

  lemma AcceptableTogether(m: MessageDef, columns: set<string>, others: set<string>)
    ensures AlterAcceptable(m, columns, others - columns, |m.fields|)
            <==> (forall i :: 0 <= i < |m.fields| ==> m.fields[i].name in columns || SqlType(m.fields[i]) != "")
                 && FieldNames(m) * others <= columns
  {
    AllNames(m);
    if FieldNames(m) * others <= columns {
      assert forall i :: 0 <= i < |m.fields| && m.fields[i].name in others ==> m.fields[i].name in columns;
    } else {
      var x :| x in FieldNames(m) * others && x !in columns;
      var i :| 0 <= i < |Names(m.fields)| && Names(m.fields)[i] == x;
      assert m.fields[i].name == x;
    }
  }

  lemma KeepsMore(db: Schema, before: Schema, r: Schema, name: string)
    requires Keeps(db, before) && OthersSame(before, r, name)
    requires name in db ==> name in r && Extends(before[name], r[name])
    ensures Keeps(db, r)
  {
    forall t | t in db
      ensures t in r && Extends(db[t], r[t])
    {
      if t == name {
        ExtendsTransitive(db[t], before[t], r[t]);
      }
    }
  }

  lemma TablesMore(db: Schema, before: Schema, r: Schema, some: seq<MessageDef>, m: MessageDef)
    requires (forall t :: TableAfter(db, before, some, t)) && OthersSame(before, r, m.name)
    requires m.name in db ==>
               m.name in r && Columns(r[m.name]) == Columns(db[m.name]) + NamesFor(some, m.name) + FieldNames(m)
    requires m.name !in db ==> m.name in r && Columns(r[m.name]) == FieldNames(m)
    ensures forall t :: TableAfter(db, r, some + [m], t)
  {
    assert (some + [m])[..|some|] == some;
    forall t
      ensures TableAfter(db, r, some + [m], t)
    {
      assert TableAfter(db, before, some, t);
      assert NamesFor(some + [m], t) == NamesFor(some, t) + if m.name == t then FieldNames(m) else {};
    }
  }

  lemma AcceptableMore(snapshot: Snapshot, some: seq<MessageDef>, m: MessageDef)
    ensures AllAcceptable(snapshot, some + [m]) <==> AllAcceptable(snapshot, some) && Acceptable(snapshot, m)
    ensures NoClashes(snapshot, some + [m]) <==> NoClashes(snapshot, some) && NoClash(snapshot, some, m)
  {
    var ms := some + [m];
    assert ms[..|some|] == some && ms[|some|] == m;
    assert forall i :: 0 <= i < |some| ==> ms[i] == some[i];
  }

  lemma MigrationStep(db: Schema, some: seq<MessageDef>, m: MessageDef, before: Outcome)
    requires Distinct(Names(m.fields)) && Migrated(db, before, some)
    ensures Migrated(db, if before.ok then Run(before.db, MessageStatements(SnapshotOf(db), m)) else before, some + [m])
  {
    AcceptableMore(SnapshotOf(db), some, m);
    if before.ok {
      assert TableAfter(db, before.db, some, m.name);
      MessageRun(db, before.db, some, m);
      var r := Run(before.db, MessageStatements(SnapshotOf(db), m));
      KeepsMore(db, before.db, r.db, m.name);
      if r.ok {
        TablesMore(db, before.db, r.db, some, m);
      }
    }
  }

  // The migration of any messages. It is accepted exactly when each message is and none adds a field that
  // an earlier one of its name has added; accepted or not, no table, column or stored cell is lost; and
  // when it is accepted it is known what each table has.
  lemma {:induction false} Migration(db: Schema, ms: seq<MessageDef>)
    requires forall i :: 0 <= i < |ms| ==> Distinct(Names(ms[i].fields))
    ensures Migrated(db, Run(db, AllStatements(SnapshotOf(db), ms)), ms)
  {
    if ms == [] {
      forall t
        ensures TableAfter(db, db, ms, t)
      {
      }
    } else {
      var some, m := ms[..|ms| - 1], ms[|ms| - 1];
      Migration(db, some);
      RunInPieces(db, AllStatements(SnapshotOf(db), some), MessageStatements(SnapshotOf(db), m));
      MigrationStep(db, some, m, Run(db, AllStatements(SnapshotOf(db), some)));
      assert some + [m] == ms;
    }
  }

  // ---------- What the new columns hold ----------

  // Every row has an empty message in the column of a repeated field, and the default in any other.
  ghost predicate Filled(t: Table, f: Field) {
    forall i :: 0 <= i < |t.rows| ==>
      f.name in t.rows[i] && t.rows[i][f.name] == if f.repeated then EmptyRepeated else DefaultValue
  }

  lemma StaysFilled(a: Table, b: Table, f: Field)
    requires Extends(a, b) && f.name in Columns(a) && Filled(a, f)
    ensures Filled(b, f)
  {
  }

  lemma FieldRunFills(db: Schema, m: MessageDef, columns: set<string>, j: nat)
    requires m.name in db && j < |m.fields| && m.fields[j].name !in columns
    ensures var r := Run(db, FieldStatements(m, columns, j));
            r.ok ==> m.name in r.db && Filled(r.db[m.name], m.fields[j])
  {
    var f := m.fields[j];
    var add := AddColumn(m.name, f, if j > 0 then Some(m.fields[j - 1].name) else None);
    RunOne(db, add);
    if f.repeated {
      var fill := SetEmpty(m.name, f.name);
      assert FieldStatements(m, columns, j) == [add, fill];
      RunTwo(db, add, fill);
      RunOne(Run(db, [add]).db, fill);
    } else {
      assert FieldStatements(m, columns, j) == [add];
    }
  }

  // The first n fields, as far as they are new.
  ghost predicate FirstFilled(t: Table, m: MessageDef, columns: set<string>, n: nat)
    requires n <= |m.fields|
  {
    forall j :: 0 <= j < n && m.fields[j].name !in columns ==> Filled(t, m.fields[j])
  }

  lemma {:induction false} AlterRunFills(db: Schema, m: MessageDef, columns: set<string>, others: set<string>, n: nat)
    requires m.name in db && n <= |m.fields| && Distinct(Names(m.fields)) && Columns(db[m.name]) == columns + others
    ensures AlterFilled(FieldByField(db, m, columns, n), m, columns, n)
  {
    if n != 0 {
      AlterRun(db, m, columns, others, n - 1);
      AlterRunFills(db, m, columns, others, n - 1);
      AlterFilledNext(db, m, columns, others, n, FieldByField(db, m, columns, n - 1));
    }
  }

  ghost predicate AlterFilled(r: Outcome, m: MessageDef, columns: set<string>, n: nat)
    requires n <= |m.fields|
  {
    r.ok ==> m.name in r.db && FirstFilled(r.db[m.name], m, columns, n)
  }

  lemma AlterFilledNext(db: Schema, m: MessageDef, columns: set<string>, others: set<string>, n: nat, r: Outcome)
    requires m.name in db && 0 < n <= |m.fields| && Distinct(Names(m.fields))
    requires Altered(db, r, m, columns, others, n - 1) && AlterFilled(r, m, columns, n - 1)
    ensures AlterFilled(if r.ok then Run(r.db, FieldStatements(m, columns, n - 1)) else r, m, columns, n)
  {
    if r.ok {
      NextFilled(r.db, m, columns, others, n);
    }
  }

  lemma NextFilled(b: Schema, m: MessageDef, columns: set<string>, others: set<string>, n: nat)
    requires m.name in b && 0 < n <= |m.fields| && Distinct(Names(m.fields))
    requires Columns(b[m.name]) == columns + others + FirstNames(m, n - 1) && FirstFilled(b[m.name], m, columns, n - 1)
    ensures var r := Run(b, FieldStatements(m, columns, n - 1));
            r.ok ==> m.name in r.db && FirstFilled(r.db[m.name], m, columns, n)
  {
    FieldRun(b, m, columns, others, n - 1);
    var r := Run(b, FieldStatements(m, columns, n - 1));
    forall j | r.ok && 0 <= j < n && m.fields[j].name !in columns
      ensures Filled(r.db[m.name], m.fields[j])
    {
      if j == n - 1 {
        FieldRunFills(b, m, columns, j);
      } else {
        assert m.fields[j].name in FirstNames(m, n - 1);
        StaysFilled(b[m.name], r.db[m.name], m.fields[j]);
      }
    }
  }

  ghost predicate MessageFilled(db: Schema, r: Schema, m: MessageDef) {
    m.name in db ==> m.name in r && FirstFilled(r[m.name], m, Columns(db[m.name]), |m.fields|)
  }

  lemma MessageStaysFilled(db: Schema, b: Schema, r: Schema, m: MessageDef)
    requires MessageFilled(db, b, m) && m.name in db && m.name in r
    requires FieldNames(m) <= Columns(b[m.name]) && Extends(b[m.name], r[m.name])
    ensures MessageFilled(db, r, m)
  {
    AllNames(m);
    forall j | 0 <= j < |m.fields| && m.fields[j].name !in Columns(db[m.name])
      ensures Filled(r[m.name], m.fields[j])
    {
      StaysFilled(b[m.name], r[m.name], m.fields[j]);
    }
  }

  lemma MessageRunFills(db: Schema, b: Schema, some: seq<MessageDef>, m: MessageDef)
    requires Distinct(Names(m.fields)) && Keeps(db, b) && TableAfter(db, b, some, m.name)
    ensures var r := Run(b, MessageStatements(SnapshotOf(db), m)); r.ok ==> MessageFilled(db, r.db, m)
  {
    if m.name in db {
      var columns := Columns(db[m.name]);
      var others := NamesFor(some, m.name) - columns;
      assert columns + others == Columns(b[m.name]);
      RunsFieldByField(b, m, columns, |m.fields|);
      AlterRunFills(b, m, columns, others, |m.fields|);
    }
  }

  ghost predicate AllFilled(db: Schema, r: Outcome, ms: seq<MessageDef>) {
    r.ok ==> forall i :: 0 <= i < |ms| ==> MessageFilled(db, r.db, ms[i])
  }

  // After an accepted migration of any messages every row has, in each column that its table did not have
  // before, an empty message where the field is repeated and the default where it is not.
  lemma {:induction false} NewColumnsFilled(db: Schema, ms: seq<MessageDef>)
    requires forall i :: 0 <= i < |ms| ==> Distinct(Names(ms[i].fields))
    ensures AllFilled(db, Run(db, AllStatements(SnapshotOf(db), ms)), ms)
  {
    if ms != [] {
      var some, m := ms[..|ms| - 1], ms[|ms| - 1];
      NewColumnsFilled(db, some);
      Migration(db, some);
      RunInPieces(db, AllStatements(SnapshotOf(db), some), MessageStatements(SnapshotOf(db), m));
      AllFilledNext(db, some, m, Run(db, AllStatements(SnapshotOf(db), some)));
      assert some + [m] == ms;
    }
  }

  lemma AllFilledNext(db: Schema, some: seq<MessageDef>, m: MessageDef, before: Outcome)
    requires Distinct(Names(m.fields)) && Migrated(db, before, some) && AllFilled(db, before, some)
    ensures var r := if before.ok then Run(before.db, MessageStatements(SnapshotOf(db), m)) else before;
            AllFilled(db, r, some + [m])
  {
    if before.ok {
      NewColumnsFilledMore(db, before.db, some, m);
    }
  }

  lemma NewColumnsFilledMore(db: Schema, b: Schema, some: seq<MessageDef>, m: MessageDef)
    requires Distinct(Names(m.fields)) && Keeps(db, b) && forall t :: TableAfter(db, b, some, t)
    requires forall i :: 0 <= i < |some| ==> MessageFilled(db, b, some[i])
    ensures var r := Run(b, MessageStatements(SnapshotOf(db), m));
            AllFilled(db, r, some + [m])
  {
    assert TableAfter(db, b, some, m.name);
    MessageRun(db, b, some, m);
    MessageRunFills(db, b, some, m);
    var r := Run(b, MessageStatements(SnapshotOf(db), m));
    forall i | r.ok && 0 <= i < |some|
      ensures MessageFilled(db, r.db, some[i])
    {
      var name := some[i].name;
      assert TableAfter(db, b, some, name);
      if name in db {
        LastFieldsExact(some, i);
        assert Extends(b[name], r.db[name]);
        MessageStaysFilled(db, b, r.db, some[i]);
      }
    }
  }

  // ---------- Messages of one name ----------

  lemma {:induction false} NamesForMember(ms: seq<MessageDef>, name: string, x: string)
    ensures x in NamesFor(ms, name) <==> exists i :: 0 <= i < |ms| && ms[i].name == name && x in FieldNames(ms[i])
  {
    if ms != [] {
      var some, m := ms[..|ms| - 1], ms[|ms| - 1];
      NamesForMember(some, name, x);
      assert forall i :: 0 <= i < |some| ==> some[i] == ms[i];
      if i :| 0 <= i < |ms| && ms[i].name == name && x in FieldNames(ms[i]) {
        assert i < |some| ==> some[i].name == name;
      }
    }
  }

  // Two messages of one known name with a field that the table lacks.
  ghost predicate Share(snapshot: Snapshot, m: MessageDef, n: MessageDef) {
    && m.name == n.name && m.name in snapshot
    && exists x :: x in FieldNames(m) && x in FieldNames(n) && x !in snapshot[m.name]
  }

  lemma NoClashExact(snapshot: Snapshot, some: seq<MessageDef>, m: MessageDef)
    ensures NoClash(snapshot, some, m) <==> forall i :: 0 <= i < |some| ==> !Share(snapshot, some[i], m)
  {
    if m.name in snapshot {
      forall x
        ensures x in NamesFor(some, m.name)
                <==> exists i :: 0 <= i < |some| && some[i].name == m.name && x in FieldNames(some[i])
      {
        NamesForMember(some, m.name, x);
      }
    }
  }

  lemma {:induction false} NoClashesExact(snapshot: Snapshot, ms: seq<MessageDef>)
    ensures NoClashes(snapshot, ms) <==> forall i, j :: 0 <= i < j < |ms| ==> !Share(snapshot, ms[i], ms[j])
  {
    if ms != [] {
      var n := |ms| - 1;
      NoClashesExact(snapshot, ms[..n]);
      NoClashExact(snapshot, ms[..n], ms[n]);
    }
  }

  ghost predicate Covers(db: Schema, m: MessageDef) {
    m.name in db && FieldNames(m) <= Columns(db[m.name])
  }

  lemma {:induction false} LastFieldsExact(ms: seq<MessageDef>, i: nat)
    requires i < |ms|
    ensures FieldNames(ms[i]) <= NamesFor(ms, ms[i].name)
    ensures exists j :: i <= j < |ms| && ms[j].name == ms[i].name && LastFields(ms, ms[i].name) == Some(ms[j].fields)
  {
    var n := |ms| - 1;
    if ms[n].name == ms[i].name {
      assert LastFields(ms, ms[i].name) == Some(ms[n].fields);
    }
    if i < n {
      LastFieldsExact(ms[..n], i);
      if ms[n].name != ms[i].name {
        var j :| i <= j < n && ms[..n][j].name == ms[i].name
                 && LastFields(ms[..n], ms[i].name) == Some(ms[..n][j].fields);
        assert ms[j].name == ms[i].name && LastFields(ms, ms[i].name) == Some(ms[j].fields);
      }
    }
  }

  // For any messages, repeated names or not: the migration is accepted if and only if each message is
  // acceptable and no two of one known name share a field that the table lacks. When it is, a message of a
  // known name has all its fields; one of an unknown name does if and only if the last message of its name
  // has them all, because each drops the table of the one before.
  lemma {:induction false} DuplicateNamesExact(db: Schema, ms: seq<MessageDef>)
    requires forall i :: 0 <= i < |ms| ==> Distinct(Names(ms[i].fields))
    ensures var snapshot := SnapshotOf(db);
            var r := Run(db, AllStatements(snapshot, ms));
            && (r.ok <==> AllAcceptable(snapshot, ms)
                          && forall i, j :: 0 <= i < j < |ms| ==> !Share(snapshot, ms[i], ms[j]))
            && (r.ok ==> forall i :: 0 <= i < |ms| ==>
                  && (ms[i].name in db ==> Covers(r.db, ms[i]))
                  && (ms[i].name !in db ==>
                        && LastFields(ms, ms[i].name) != None
                        && (Covers(r.db, ms[i])
                            <==> FieldNames(ms[i]) <= Elements(Names(LastFields(ms, ms[i].name).value)))))
  {
    Migration(db, ms);
    NoClashesExact(SnapshotOf(db), ms);
    var r := Run(db, AllStatements(SnapshotOf(db), ms));
    forall i | 0 <= i < |ms| && r.ok
      ensures ms[i].name in db ==> Covers(r.db, ms[i])
      ensures ms[i].name !in db ==>
                && LastFields(ms, ms[i].name) != None
                && (Covers(r.db, ms[i]) <==> FieldNames(ms[i]) <= Elements(Names(LastFields(ms, ms[i].name).value)))
    {
      LastFieldsExact(ms, i);
      assert TableAfter(db, r.db, ms, ms[i].name);
    }
  }

  predicate DistinctMessages(ms: seq<MessageDef>) {
    forall i, j :: 0 <= i < j < |ms| ==> ms[i].name != ms[j].name
  }

  // With distinct short names: accepted exactly when each message is, and then every message has a table
  // with all its fields.
  lemma {:induction false} DistinctNamesConverge(db: Schema, ms: seq<MessageDef>)
    requires DistinctMessages(ms) && forall i :: 0 <= i < |ms| ==> Distinct(Names(ms[i].fields))
    ensures var r := Run(db, AllStatements(SnapshotOf(db), ms));
            && (r.ok <==> AllAcceptable(SnapshotOf(db), ms))
            && (r.ok ==> forall i :: 0 <= i < |ms| ==> Covers(r.db, ms[i]))
  {
    DuplicateNamesExact(db, ms);
    forall i | 0 <= i < |ms|
      ensures LastFields(ms, ms[i].name) == Some(ms[i].fields)
    {
      LastFieldsExact(ms, i);
    }
  }

  // The second check emits nothing exactly when every message has all its fields.
  lemma {:induction false} NothingLeftToDo(db: Schema, ms: seq<MessageDef>)
    ensures AllStatements(SnapshotOf(db), ms) == [] <==> forall i :: 0 <= i < |ms| ==> Covers(db, ms[i])
  {
    if ms != [] {
      var n := |ms| - 1;
      var m := ms[n];
      NothingLeftToDo(db, ms[..n]);
      assert forall i :: 0 <= i < n ==> ms[..n][i] == ms[i];
      NothingForMessage(db, m);
    }
  }

  lemma NothingForMessage(db: Schema, m: MessageDef)
    ensures MessageStatements(SnapshotOf(db), m) == [] <==> Covers(db, m)
  {
    if m.name in db {
      NoAlterations(m, Columns(db[m.name]), |m.fields|);
      AllNames(m);
    }
  }

  lemma {:induction false} NoAlterations(m: MessageDef, columns: set<string>, n: nat)
    requires n <= |m.fields|
    ensures AlterStatements(m, columns, n) == [] <==> FirstNames(m, n) <= columns
  {
    if n != 0 {
      NoAlterations(m, columns, n - 1);
      assert FirstNames(m, n) == FirstNames(m, n - 1) + {m.fields[n - 1].name};
    }
  }

  // Checking, running and checking again: the second check emits nothing.
  method Migrate(db0: Schema, ms: seq<MessageDef>) returns (db: Schema, result: int, again: seq<Statement>)
    requires forall t :: t in db0 ==> db0[t].columns != []
    requires DistinctMessages(ms) && forall i :: 0 <= i < |ms| ==> Distinct(Names(ms[i].fields))
    ensures result == 0 <==> AllAcceptable(SnapshotOf(db0), ms)
    ensures Keeps(db0, db)
    ensures result == 0 ==> again == [] && forall i :: 0 <= i < |ms| ==> Covers(db, ms[i])
  {
    var outcols := QuerydbDesc(db0);
    var changed := CheckEntity(outcols, ms);
    Migration(db0, ms);
    DistinctNamesConverge(db0, ms);
    db, result := UpdatedbChanged(db0, changed);
    NothingLeftToDo(db, ms);
    again := CheckEntity(SnapshotOf(db), ms);
  }
}
