/** What the four statements do to a table, read off their clauses, and that it is what the rest of
    the proofs take them to do. */
module SqlMeaning {
  import opened LockConfigurations
  import Lease
  import opened Storage
  import opened SqlStatements

  /** A row of the table: the value in each of its columns. */
  type TableRow = map<string, Value>

  /** The table, by primary key. */
  type Table = map<string, TableRow>

  /** What a hole stands for when the bound values and the database clock are given. */
  function HoleValue(hole: Hole, bound: map<ParamName, Value>, serverNow: Millis): Option<Value> {
    match hole
    case Identifier(_) => None
    case Clock(_) => Some(Time(serverNow))
    case Placeholder(n) => if n in bound then Some(bound[n]) else None
  }

  predicate Compare(operator: Keyword, left: Value, right: Value) {
    match operator
    case EQUAL => left == right
    case AT_MOST => left.Time? && right.Time? && left.at <= right.at
    case ABOVE => left.Time? && right.Time? && left.at > right.at
    case _ => false
  }

  /** `lead column operator value`, the clauses an UPDATE is made of. */
  predicate StartsClause(parts: seq<Part>) {
    |parts| >= 2 && parts[0].hole.Identifier? && !parts[1].hole.Identifier?
  }

  /** The row satisfies every WHERE and AND clause. A clause that cannot be evaluated satisfies none. */
  predicate Satisfies(parts: seq<Part>, row: TableRow, bound: map<ParamName, Value>, serverNow: Millis) {
    parts == [] ||
    (&& StartsClause(parts)
     && (parts[0].lead == WHERE || parts[0].lead == AND ==>
           var column, value := parts[0].hole.text, HoleValue(parts[1].hole, bound, serverNow);
           column in row && value.Some? && Compare(parts[1].lead, row[column], value.value))
     && Satisfies(parts[2..], row, bound, serverNow))
  }

  /** The row after every SET clause and the comma clauses that follow it. */
  function Assigned(parts: seq<Part>, row: TableRow, bound: map<ParamName, Value>, serverNow: Millis): TableRow {
    if !StartsClause(parts) then row
    else
      var rest := Assigned(parts[2..], row, bound, serverNow);
      var value := HoleValue(parts[1].hole, bound, serverNow);
      if (parts[0].lead == SET || parts[0].lead == COMMA) && parts[1].lead == EQUAL && value.Some?
      then rest[parts[0].hole.text := value.value] else rest
  }

  /** UPDATE changes every row that satisfies the guard, and reports how many there were. */
  function UpdateTable(parts: seq<Part>, table: Table, bound: map<ParamName, Value>, serverNow: Millis): (Table, nat) {
    (map k <- table :: if Satisfies(parts, table[k], bound, serverNow) then Assigned(parts, table[k], bound, serverNow) else table[k],
     |set k <- table | Satisfies(parts, table[k], bound, serverNow)|)
  }

  /** The columns an INSERT lists, up to its VALUES. */
  function Listed(parts: seq<Part>): seq<string> {
    if parts == [] || parts[0].lead == VALUES || !parts[0].hole.Identifier? then []
    else [parts[0].hole.text] + Listed(parts[1..])
  }

  /** The values from VALUES on, up to the next identifier. */
  function Given(parts: seq<Part>, bound: map<ParamName, Value>, serverNow: Millis): seq<Option<Value>> {
    if parts == [] || parts[0].hole.Identifier? then []
    else [HoleValue(parts[0].hole, bound, serverNow)] + Given(parts[1..], bound, serverNow)
  }

  function Zip(columns: seq<string>, values: seq<Option<Value>>): TableRow {
    if columns == [] || values == [] then map[]
    else
      var rest := Zip(columns[1..], values[1..]);
      if values[0].Some? then rest[columns[0] := values[0].value] else rest
  }

  /** INSERT adds the row, unless its key is taken. */
  function InsertIntoTable(parts: seq<Part>, key: string, table: Table, bound: map<ParamName, Value>, serverNow: Millis): (Table, nat) {
    var columns := Listed(parts);
    var row := if |columns| <= |parts| then Zip(columns, Given(parts[|columns|..], bound, serverNow)) else map[];
    if ConflictsOn(parts, key) && key in row && row[key].Name? && row[key].text !in table
    then (table[row[key].text := row], 1) else (table, 0)
  }

  /** A conflict clause, if there is one, is about the primary key. */
  predicate ConflictsOn(parts: seq<Part>, key: string) {
    forall p <- parts :: p.lead == ON_CONFLICT ==> p.hole == Identifier(key)
  }

  /** What a statement does; `key` is the primary key column. */
  function Effect(t: Template, key: string, table: Table, bound: map<ParamName, Value>, serverNow: Millis): (Table, nat) {
    match t.verb
    case UPDATE_TABLE => UpdateTable(t.parts, table, bound, serverNow)
    case _ => InsertIntoTable(t.parts, key, table, bound, serverNow)
  }

  // ---- The table behind the records

  predicate DistinctColumns(c: ColumnNames) {
    && c.name != c.lockUntil && c.name != c.lockedAt && c.name != c.lockedBy
    && c.lockUntil != c.lockedAt && c.lockUntil != c.lockedBy && c.lockedAt != c.lockedBy
  }

  function RowOf(c: ColumnNames, name: string, r: Lease.Record): TableRow {
    map[c.name := Name(name), c.lockUntil := Time(r.lockUntil), c.lockedAt := Time(r.lockedAt), c.lockedBy := Name(r.lockedBy)]
  }

  function TableOf(c: ColumnNames, rows: Rows): Table {
    map name <- rows :: RowOf(c, name, rows[name])
  }

  // ---- Clause by clause

  /** One clause, of a kind that the statements are made of. */
  predicate Met(lead: Keyword, column: string, operator: Keyword, hole: Hole, row: TableRow, bound: map<ParamName, Value>, serverNow: Millis) {
    lead == WHERE || lead == AND ==>
      var value := HoleValue(hole, bound, serverNow);
      column in row && value.Some? && Compare(operator, row[column], value.value)
  }

  lemma PairSatisfies(lead: Keyword, column: string, operator: Keyword, hole: Hole, rest: seq<Part>,
                      row: TableRow, bound: map<ParamName, Value>, serverNow: Millis)
    requires !hole.Identifier?
    ensures Satisfies(Pair(lead, Identifier(column), operator, hole, rest), row, bound, serverNow)
      <==> Met(lead, column, operator, hole, row, bound, serverNow) && Satisfies(rest, row, bound, serverNow)
  {
    assert Pair(lead, Identifier(column), operator, hole, rest)[2..] == rest;
  }

  lemma PairAssigns(lead: Keyword, column: string, operator: Keyword, hole: Hole, rest: seq<Part>,
                    row: TableRow, bound: map<ParamName, Value>, serverNow: Millis)
    requires !hole.Identifier?
    ensures var after := Assigned(rest, row, bound, serverNow);
      var value := HoleValue(hole, bound, serverNow);
      Assigned(Pair(lead, Identifier(column), operator, hole, rest), row, bound, serverNow) ==
        if (lead == SET || lead == COMMA) && operator == EQUAL && value.Some? then after[column := value.value] else after
  {
    assert Pair(lead, Identifier(column), operator, hole, rest)[2..] == rest;
  }

  /** The row holds a record, and the bound values are those of the parameters. */
  predicate Holds(row: TableRow, c: ColumnNames, name: string, r: Lease.Record) {
    && c.name in row && row[c.name] == Name(name)
    && c.lockUntil in row && row[c.lockUntil] == Time(r.lockUntil)
    && c.lockedBy in row && row[c.lockedBy] == Name(r.lockedBy)
  }

  predicate Binds(bound: map<ParamName, Value>, p: Params, now: Value, d: Dialect, serverNow: Millis) {
    && NAME in bound && bound[NAME] == Name(p.name)
    && LOCK_UNTIL in bound && bound[LOCK_UNTIL] == Time(p.lockUntil)
    && LOCKED_BY in bound && bound[LOCKED_BY] == Name(p.lockedBy)
    && UNLOCK_TIME in bound && bound[UNLOCK_TIME] == Time(p.unlockTime)
    && (p.previousLockUntil.Some? ==> PREVIOUS_LOCK_UNTIL in bound && bound[PREVIOUS_LOCK_UNTIL] == Time(p.previousLockUntil.value))
    && !Now(d).Identifier? && HoleValue(Now(d), bound, serverNow) == Some(now)
  }

  /** The parameters carry the client's time exactly when the dialect needs it. */
  predicate FitsDialect(d: Dialect, p: Params) {
    p.now.Some? <==> !IsServerTime(d)
  }

  function TimeOf(p: Params, serverNow: Millis): Millis {
    if p.now.Some? then p.now.value else serverNow
  }

  lemma RowHolds(c: ColumnNames, name: string, r: Lease.Record)
    requires DistinctColumns(c)
    ensures Holds(RowOf(c, name, r), c, name, r)
  {
  }

  lemma BindingsBind(d: Dialect, p: Params, serverNow: Millis)
    requires FitsDialect(d, p)
    ensures Binds(Bindings(p), p, Time(TimeOf(p, serverNow)), d, serverNow)
  {
  }

  /** The guards of the statements, on the row of a record. */
  lemma OwnedMeans(c: ColumnNames, rest: seq<Part>, row: TableRow, name: string, r: Lease.Record,
                   bound: map<ParamName, Value>, p: Params, now: Value, d: Dialect, serverNow: Millis)
    requires Holds(row, c, name, r) && Binds(bound, p, now, d, serverNow)
    ensures Satisfies(Owned(c, rest), row, bound, serverNow) <==>
      name == p.name && r.lockedBy == p.lockedBy && Satisfies(rest, row, bound, serverNow)
    ensures Assigned(Owned(c, rest), row, bound, serverNow) == Assigned(rest, row, bound, serverNow)
  {
    var inner := Pair(AND, Identifier(c.lockedBy), EQUAL, Placeholder(LOCKED_BY), rest);
    PairSatisfies(AND, c.lockedBy, EQUAL, Placeholder(LOCKED_BY), rest, row, bound, serverNow);
    PairSatisfies(WHERE, c.name, EQUAL, Placeholder(NAME), inner, row, bound, serverNow);
    PairAssigns(AND, c.lockedBy, EQUAL, Placeholder(LOCKED_BY), rest, row, bound, serverNow);
    PairAssigns(WHERE, c.name, EQUAL, Placeholder(NAME), inner, row, bound, serverNow);
  }

  lemma FenceMeans(c: ColumnNames, n: ParamName, deadline: Millis, row: TableRow, name: string, r: Lease.Record,
                   bound: map<ParamName, Value>, serverNow: Millis)
    requires Holds(row, c, name, r) && n in bound && bound[n] == Time(deadline)
    ensures Satisfies(Fence(c, n), row, bound, serverNow) <==> r.lockUntil == deadline
    ensures Assigned(Fence(c, n), row, bound, serverNow) == row
  {
    PairSatisfies(AND, c.lockUntil, EQUAL, Placeholder(n), [], row, bound, serverNow);
    PairAssigns(AND, c.lockUntil, EQUAL, Placeholder(n), [], row, bound, serverNow);
  }

  lemma CurrentMeans(d: Dialect, c: ColumnNames, row: TableRow, name: string, r: Lease.Record,
                     bound: map<ParamName, Value>, p: Params, now: Millis, serverNow: Millis)
    requires Holds(row, c, name, r) && Binds(bound, p, Time(now), d, serverNow) && p.previousLockUntil.Some?
    ensures Satisfies(Current(d, c), row, bound, serverNow) <==> r.lockUntil > now && r.lockUntil == p.previousLockUntil.value
    ensures Assigned(Current(d, c), row, bound, serverNow) == row
  {
    var fence := Fence(c, PREVIOUS_LOCK_UNTIL);
    FenceMeans(c, PREVIOUS_LOCK_UNTIL, p.previousLockUntil.value, row, name, r, bound, serverNow);
    PairSatisfies(AND, c.lockUntil, ABOVE, Now(d), fence, row, bound, serverNow);
    PairAssigns(AND, c.lockUntil, ABOVE, Now(d), fence, row, bound, serverNow);
  }

  lemma FreeMeans(d: Dialect, c: ColumnNames, row: TableRow, name: string, r: Lease.Record,
                  bound: map<ParamName, Value>, p: Params, now: Millis, serverNow: Millis)
    requires Holds(row, c, name, r) && Binds(bound, p, Time(now), d, serverNow)
    ensures Satisfies(Free(d, c), row, bound, serverNow) <==> name == p.name && r.lockUntil <= now
    ensures Assigned(Free(d, c), row, bound, serverNow) == row
  {
    var inner := Pair(AND, Identifier(c.lockUntil), AT_MOST, Now(d), []);
    PairSatisfies(AND, c.lockUntil, AT_MOST, Now(d), [], row, bound, serverNow);
    PairSatisfies(WHERE, c.name, EQUAL, Placeholder(NAME), inner, row, bound, serverNow);
    PairAssigns(AND, c.lockUntil, AT_MOST, Now(d), [], row, bound, serverNow);
    PairAssigns(WHERE, c.name, EQUAL, Placeholder(NAME), inner, row, bound, serverNow);
  }

  /** An assignment of a bound value, before the clauses that follow it. */
  lemma SetMeans(lead: Keyword, column: string, hole: Hole, value: Value, rest: seq<Part>,
                 row: TableRow, bound: map<ParamName, Value>, serverNow: Millis)
    requires (lead == SET || lead == COMMA) && !hole.Identifier? && HoleValue(hole, bound, serverNow) == Some(value)
    ensures var parts := Pair(lead, Identifier(column), EQUAL, hole, rest);
      && (Satisfies(parts, row, bound, serverNow) <==> Satisfies(rest, row, bound, serverNow))
      && Assigned(parts, row, bound, serverNow) == Assigned(rest, row, bound, serverNow)[column := value]
  {
    PairSatisfies(lead, column, EQUAL, hole, rest, row, bound, serverNow);
    PairAssigns(lead, column, EQUAL, hole, rest, row, bound, serverNow);
  }

  // ---- Statement by statement

  lemma UnlockClauses(t: string, c: ColumnNames, row: TableRow, name: string, r: Lease.Record,
                      bound: map<ParamName, Value>, p: Params, now: Value, d: Dialect, serverNow: Millis)
    requires Holds(row, c, name, r) && Binds(bound, p, now, d, serverNow)
    ensures Satisfies(Unlock(t, c).parts, row, bound, serverNow) <==>
      name == p.name && r.lockedBy == p.lockedBy && r.lockUntil == p.lockUntil
    ensures Assigned(Unlock(t, c).parts, row, bound, serverNow) == row[c.lockUntil := Time(p.unlockTime)]
  {
    var fence := Fence(c, LOCK_UNTIL);
    FenceMeans(c, LOCK_UNTIL, p.lockUntil, row, name, r, bound, serverNow);
    OwnedMeans(c, fence, row, name, r, bound, p, now, d, serverNow);
    SetMeans(SET, c.lockUntil, Placeholder(UNLOCK_TIME), Time(p.unlockTime), Owned(c, fence), row, bound, serverNow);
  }

  lemma ExtendClauses(d: Dialect, t: string, c: ColumnNames, row: TableRow, name: string, r: Lease.Record,
                      bound: map<ParamName, Value>, p: Params, now: Millis, serverNow: Millis)
    requires Holds(row, c, name, r) && Binds(bound, p, Time(now), d, serverNow) && p.previousLockUntil.Some?
    ensures Satisfies(Extend(d, t, c).parts, row, bound, serverNow) <==>
      name == p.name && r.lockedBy == p.lockedBy && r.lockUntil > now && r.lockUntil == p.previousLockUntil.value
    ensures Assigned(Extend(d, t, c).parts, row, bound, serverNow) == row[c.lockUntil := Time(p.lockUntil)]
  {
    var current := Current(d, c);
    CurrentMeans(d, c, row, name, r, bound, p, now, serverNow);
    OwnedMeans(c, current, row, name, r, bound, p, Time(now), d, serverNow);
    SetMeans(SET, c.lockUntil, Placeholder(LOCK_UNTIL), Time(p.lockUntil), Owned(c, current), row, bound, serverNow);
  }

  lemma UpdateClauses(d: Dialect, t: string, c: ColumnNames, row: TableRow, name: string, r: Lease.Record,
                      bound: map<ParamName, Value>, p: Params, now: Millis, serverNow: Millis)
    requires Holds(row, c, name, r) && Binds(bound, p, Time(now), d, serverNow)
    ensures Satisfies(Update(d, t, c).parts, row, bound, serverNow) <==> name == p.name && r.lockUntil <= now
    ensures Assigned(Update(d, t, c).parts, row, bound, serverNow) ==
      row[c.lockedBy := Name(p.lockedBy)][c.lockedAt := Time(now)][c.lockUntil := Time(p.lockUntil)]
  {
    var free := Free(d, c);
    var host := Pair(COMMA, Identifier(c.lockedBy), EQUAL, Placeholder(LOCKED_BY), free);
    FreeMeans(d, c, row, name, r, bound, p, now, serverNow);
    SetMeans(COMMA, c.lockedBy, Placeholder(LOCKED_BY), Name(p.lockedBy), free, row, bound, serverNow);
    SetMeans(COMMA, c.lockedAt, Now(d), Time(now), host, row, bound, serverNow);
    SetMeans(SET, c.lockUntil, Placeholder(LOCK_UNTIL), Time(p.lockUntil), Pair(COMMA, Identifier(c.lockedAt), EQUAL, Now(d), host), row, bound, serverNow);
  }

  lemma NewDeadline(c: ColumnNames, name: string, r: Lease.Record, deadline: Millis)
    requires DistinctColumns(c)
    ensures RowOf(c, name, r)[c.lockUntil := Time(deadline)] == RowOf(c, name, r.(lockUntil := deadline))
  {
  }

  lemma NewRecord(c: ColumnNames, name: string, r: Lease.Record, r': Lease.Record)
    requires DistinctColumns(c)
    ensures RowOf(c, name, r)[c.lockedBy := Name(r'.lockedBy)][c.lockedAt := Time(r'.lockedAt)][c.lockUntil := Time(r'.lockUntil)] ==
      RowOf(c, name, r')
  {
  }

  /** An UPDATE whose clauses ask for one name and a condition, and turn its record into another,
      does so in the table. */
  lemma UpdateMeans(parts: seq<Part>, c: ColumnNames, rows: Rows, name: string, bound: map<ParamName, Value>, serverNow: Millis,
                    met: bool, r': Lease.Record)
    requires forall n <- rows :: Satisfies(parts, RowOf(c, n, rows[n]), bound, serverNow) <==> n == name && met
    requires name in rows && met ==> Assigned(parts, RowOf(c, name, rows[name]), bound, serverNow) == RowOf(c, name, r')
    ensures UpdateTable(parts, TableOf(c, rows), bound, serverNow) ==
      if name in rows && met then (TableOf(c, rows[name := r']), 1) else (TableOf(c, rows), 0)
  {
    var table := TableOf(c, rows);
    var hit := set k <- table | Satisfies(parts, table[k], bound, serverNow);
    assert hit == if name in rows && met then {name} else {};
    assert UpdateTable(parts, table, bound, serverNow).0 == if name in rows && met then TableOf(c, rows[name := r']) else table;
  }

  // ---- The insert

  lemma ColumnsAreListed(c: ColumnNames, rest: seq<Part>)
    requires rest != [] && rest[0].lead == VALUES
    ensures Listed(SqlStatements.Columns(c, rest)) == [c.name, c.lockUntil, c.lockedAt, c.lockedBy]
    ensures |SqlStatements.Columns(c, rest)| >= 4 && SqlStatements.Columns(c, rest)[4..] == rest
  {
    var tail := Pair(COMMA, Identifier(c.lockedAt), COMMA, Identifier(c.lockedBy), rest);
    ListedPair(COMMA, c.lockedAt, c.lockedBy, rest);
    ListedPair(OPEN, c.name, c.lockUntil, tail);
  }

  lemma ListedPair(lead: Keyword, first: string, second: string, rest: seq<Part>)
    requires lead != VALUES
    ensures Listed(Pair(lead, Identifier(first), COMMA, Identifier(second), rest)) == [first, second] + Listed(rest)
  {
    var parts := Pair(lead, Identifier(first), COMMA, Identifier(second), rest);
    assert parts[1..] == [Part(COMMA, Identifier(second))] + rest;
    assert parts[1..][1..] == rest;
  }

  lemma GivenPair(lead: Keyword, first: Hole, second: Hole, rest: seq<Part>, bound: map<ParamName, Value>, serverNow: Millis)
    requires !first.Identifier? && !second.Identifier?
    ensures Given(Pair(lead, first, COMMA, second, rest), bound, serverNow) ==
      [HoleValue(first, bound, serverNow), HoleValue(second, bound, serverNow)] + Given(rest, bound, serverNow)
  {
    var parts := Pair(lead, first, COMMA, second, rest);
    assert parts[1..] == [Part(COMMA, second)] + rest;
    assert parts[1..][1..] == rest;
  }

  lemma ValuesAreGiven(d: Dialect, rest: seq<Part>, bound: map<ParamName, Value>, p: Params, now: Value, serverNow: Millis)
    requires Binds(bound, p, now, d, serverNow) && (rest != [] ==> rest[0].hole.Identifier?)
    ensures Given(Values(d, rest), bound, serverNow) ==
      [Some(Name(p.name)), Some(Time(p.lockUntil)), Some(now), Some(Name(p.lockedBy))]
  {
    var tail := Pair(COMMA, Now(d), COMMA, Placeholder(LOCKED_BY), rest);
    GivenPair(COMMA, Now(d), Placeholder(LOCKED_BY), rest, bound, serverNow);
    GivenPair(VALUES, Placeholder(NAME), Placeholder(LOCK_UNTIL), tail, bound, serverNow);
  }

  lemma ZipRow(c: ColumnNames, name: string, r: Lease.Record)
    requires DistinctColumns(c)
    ensures Zip([c.name, c.lockUntil, c.lockedAt, c.lockedBy],
                [Some(Name(name)), Some(Time(r.lockUntil)), Some(Time(r.lockedAt)), Some(Name(r.lockedBy))]) == RowOf(c, name, r)
  {
    ZipOne(c.lockedBy, Name(r.lockedBy), [], []);
    ZipOne(c.lockedAt, Time(r.lockedAt), [c.lockedBy], [Some(Name(r.lockedBy))]);
    ZipOne(c.lockUntil, Time(r.lockUntil), [c.lockedAt, c.lockedBy], [Some(Time(r.lockedAt)), Some(Name(r.lockedBy))]);
    ZipOne(c.name, Name(name), [c.lockUntil, c.lockedAt, c.lockedBy],
           [Some(Time(r.lockUntil)), Some(Time(r.lockedAt)), Some(Name(r.lockedBy))]);
  }

  lemma ZipOne(column: string, value: Value, columns: seq<string>, values: seq<Option<Value>>)
    ensures Zip([column] + columns, [Some(value)] + values) == Zip(columns, values)[column := value]
  {
    assert ([column] + columns)[1..] == columns && ([Some(value)] + values)[1..] == values;
  }

  lemma InsertedRow(d: Dialect, t: string, c: ColumnNames, bound: map<ParamName, Value>, p: Params, now: Millis, serverNow: Millis)
    requires DistinctColumns(c) && Binds(bound, p, Time(now), d, serverNow)
    ensures var parts := Insert(d, t, c).parts;
      && |Listed(parts)| <= |parts|
      && Zip(Listed(parts), Given(parts[|Listed(parts)|..], bound, serverNow)) == RowOf(c, p.name, Lease.Record(p.lockUntil, now, p.lockedBy))
  {
    var end := if d.PostgresClient? || d.PostgresServer? then [Part(ON_CONFLICT, Identifier(c.name))] else [];
    var values := Values(d, end);
    assert Insert(d, t, c).parts == SqlStatements.Columns(c, values);
    ColumnsAreListed(c, values);
    ValuesAreGiven(d, end, bound, p, Time(now), serverNow);
    ZipRow(c, p.name, Lease.Record(p.lockUntil, now, p.lockedBy));
  }

  lemma InsertMeans(d: Dialect, t: string, c: ColumnNames, rows: Rows, bound: map<ParamName, Value>, p: Params, now: Millis, serverNow: Millis)
    requires DistinctColumns(c) && Binds(bound, p, Time(now), d, serverNow)
    ensures InsertIntoTable(Insert(d, t, c).parts, c.name, TableOf(c, rows), bound, serverNow) ==
      if p.name in rows then (TableOf(c, rows), 0)
      else (TableOf(c, rows[p.name := Lease.Record(p.lockUntil, now, p.lockedBy)]), 1)
  {
    InsertedRow(d, t, c, bound, p, now, serverNow);
    OnlyConflict(d, t, c);
    var r := Lease.Record(p.lockUntil, now, p.lockedBy);
    RowHolds(c, p.name, r);
    OneMoreRow(c, rows, p.name, r);
  }

  lemma OneMoreRow(c: ColumnNames, rows: Rows, name: string, r: Lease.Record)
    ensures TableOf(c, rows)[name := RowOf(c, name, r)] == TableOf(c, rows[name := r])
  {
  }

  lemma OnlyConflict(d: Dialect, t: string, c: ColumnNames)
    ensures ConflictsOn(Insert(d, t, c).parts, c.name)
  {
  }

  // ---- The theorem

  /** Whatever the table holds, each statement of each dialect, with the values its parameters bind,
      changes the table exactly as `Execute` changes the records, and reports as many rows. */
  lemma StatementsMeanExecute(statement: Statement, d: Dialect, t: string, c: ColumnNames, rows: Rows, p: Params, serverNow: Millis)
    requires DistinctColumns(c) && FitsDialect(d, p) && (statement.EXTEND? ==> p.previousLockUntil.Some?)
    ensures var (after, n) := Execute(statement, rows, p, serverNow);
      Effect(TemplateFor(statement, d, t, c), c.name, TableOf(c, rows), Bindings(p), serverNow) == (TableOf(c, after), n)
  {
    BindingsBind(d, p, serverNow);
    match statement
    case INSERT => InsertMeans(d, t, c, rows, Bindings(p), p, TimeOf(p, serverNow), serverNow);
    case UPDATE => UpdateMeansExecute(d, t, c, rows, Bindings(p), p, serverNow);
    case EXTEND => ExtendMeansExecute(d, t, c, rows, Bindings(p), p, serverNow);
    case UNLOCK => UnlockMeansExecute(d, t, c, rows, Bindings(p), p, serverNow);
  }

  lemma UpdateMeansExecute(d: Dialect, t: string, c: ColumnNames, rows: Rows, bound: map<ParamName, Value>, p: Params, serverNow: Millis)
    requires DistinctColumns(c) && Binds(bound, p, Time(TimeOf(p, serverNow)), d, serverNow)
    ensures var (after, n) := Execute(UPDATE, rows, p, serverNow);
      UpdateTable(Update(d, t, c).parts, TableOf(c, rows), bound, serverNow) == (TableOf(c, after), n)
  {
    var parts, now := Update(d, t, c).parts, TimeOf(p, serverNow);
    var met, r' := p.name in rows && rows[p.name].lockUntil <= now, Lease.Record(p.lockUntil, now, p.lockedBy);
    forall n <- rows ensures Satisfies(parts, RowOf(c, n, rows[n]), bound, serverNow) <==> n == p.name && met {
      RowHolds(c, n, rows[n]);
      UpdateClauses(d, t, c, RowOf(c, n, rows[n]), n, rows[n], bound, p, now, serverNow);
    }
    if met {
      RowHolds(c, p.name, rows[p.name]);
      UpdateClauses(d, t, c, RowOf(c, p.name, rows[p.name]), p.name, rows[p.name], bound, p, now, serverNow);
      NewRecord(c, p.name, rows[p.name], r');
    }
    UpdateMeans(parts, c, rows, p.name, bound, serverNow, met, r');
  }

  lemma ExtendMeansExecute(d: Dialect, t: string, c: ColumnNames, rows: Rows, bound: map<ParamName, Value>, p: Params, serverNow: Millis)
    requires DistinctColumns(c) && Binds(bound, p, Time(TimeOf(p, serverNow)), d, serverNow) && p.previousLockUntil.Some?
    ensures var (after, n) := Execute(EXTEND, rows, p, serverNow);
      UpdateTable(Extend(d, t, c).parts, TableOf(c, rows), bound, serverNow) == (TableOf(c, after), n)
  {
    var parts, now := Extend(d, t, c).parts, TimeOf(p, serverNow);
    var met := p.name in rows && rows[p.name].lockedBy == p.lockedBy && rows[p.name].lockUntil > now
               && rows[p.name].lockUntil == p.previousLockUntil.value;
    var r' := if p.name in rows then rows[p.name].(lockUntil := p.lockUntil) else Lease.Record(p.lockUntil, now, p.lockedBy);
    forall n <- rows ensures Satisfies(parts, RowOf(c, n, rows[n]), bound, serverNow) <==> n == p.name && met {
      RowHolds(c, n, rows[n]);
      ExtendClauses(d, t, c, RowOf(c, n, rows[n]), n, rows[n], bound, p, now, serverNow);
    }
    if met {
      RowHolds(c, p.name, rows[p.name]);
      ExtendClauses(d, t, c, RowOf(c, p.name, rows[p.name]), p.name, rows[p.name], bound, p, now, serverNow);
      NewDeadline(c, p.name, rows[p.name], p.lockUntil);
    }
    UpdateMeans(parts, c, rows, p.name, bound, serverNow, met, r');
  }

  lemma UnlockMeansExecute(d: Dialect, t: string, c: ColumnNames, rows: Rows, bound: map<ParamName, Value>, p: Params, serverNow: Millis)
    requires DistinctColumns(c) && Binds(bound, p, Time(TimeOf(p, serverNow)), d, serverNow)
    ensures var (after, n) := Execute(UNLOCK, rows, p, serverNow);
      UpdateTable(Unlock(t, c).parts, TableOf(c, rows), bound, serverNow) == (TableOf(c, after), n)
  {
    var parts, now := Unlock(t, c).parts, Time(TimeOf(p, serverNow));
    var met := p.name in rows && rows[p.name].lockedBy == p.lockedBy && rows[p.name].lockUntil == p.lockUntil;
    var r' := if p.name in rows then rows[p.name].(lockUntil := p.unlockTime) else Lease.Record(p.unlockTime, p.unlockTime, p.lockedBy);
    forall n <- rows ensures Satisfies(parts, RowOf(c, n, rows[n]), bound, serverNow) <==> n == p.name && met {
      RowHolds(c, n, rows[n]);
      UnlockClauses(t, c, RowOf(c, n, rows[n]), n, rows[n], bound, p, now, d, serverNow);
    }
    if met {
      RowHolds(c, p.name, rows[p.name]);
      UnlockClauses(t, c, RowOf(c, p.name, rows[p.name]), p.name, rows[p.name], bound, p, now, d, serverNow);
      NewDeadline(c, p.name, rows[p.name], p.unlockTime);
    }
    UpdateMeans(parts, c, rows, p.name, bound, serverNow, met, r');
  }

  /** In particular with what a dialect's own source binds for a call. */
  lemma SourcesMeanExecute(statement: Statement, d: Dialect, t: string, c: ColumnNames, rows: Rows,
                           lockedBy: string, config: LockConfiguration, previous: Option<Millis>, clock: Millis, serverNow: Millis)
    requires DistinctColumns(c) && (statement.EXTEND? ==> previous.Some?)
    ensures var p := Bind(SourceOf(d), lockedBy, config, previous, clock);
      var (after, n) := Execute(statement, rows, p, serverNow);
      Effect(TemplateFor(statement, d, t, c), c.name, TableOf(c, rows), Bindings(p), serverNow) == (TableOf(c, after), n)
  {
    StatementsMeanExecute(statement, d, t, c, rows, Bind(SourceOf(d), lockedBy, config, previous, clock), serverNow);
  }
}
