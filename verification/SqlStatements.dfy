/** The four statements of every SQL source, and the names their sources bind. */
module SqlStatements {
  import opened LockConfigurations
  import opened NamedParams
  import opened Binding
  import Drizzle
  import opened Storage

  // ---- The statements

  datatype ParamName = NAME | LOCK_UNTIL | NOW | LOCKED_BY | UNLOCK_TIME | PREVIOUS_LOCK_UNTIL

  function Spelling(p: ParamName): string {
    match p
    case NAME => "name"
    case LOCK_UNTIL => "lockUntil"
    case NOW => "now"
    case LOCKED_BY => "lockedBy"
    case UNLOCK_TIME => "unlockTime"
    case PREVIOUS_LOCK_UNTIL => "previousLockUntil"
  }

  ghost function Spellings(names: set<ParamName>): set<string> {
    set p <- names :: Spelling(p)
  }

  /** The fixed text a statement starts with. */
  datatype Verb = INSERT_INTO | INSERT_OR_IGNORE_INTO | UPDATE_TABLE

  function VerbText(v: Verb): string {
    match v
    case INSERT_INTO => "INSERT INTO "
    case INSERT_OR_IGNORE_INTO => "INSERT OR IGNORE INTO "
    case UPDATE_TABLE => "UPDATE "
  }

  /** The fixed text between the parts of a statement. */
  datatype Keyword = OPEN | COMMA | VALUES | CLOSE | ON_CONFLICT | DO_NOTHING | SET | WHERE | AND | EQUAL | AT_MOST | ABOVE

  function KeywordText(k: Keyword): string {
    match k
    case OPEN => "("
    case COMMA => ", "
    case VALUES => ") VALUES("
    case CLOSE => ")"
    case ON_CONFLICT => ") ON CONFLICT ("
    case DO_NOTHING => ") DO NOTHING"
    case SET => " SET "
    case WHERE => " WHERE "
    case AND => " AND "
    case EQUAL => " = "
    case AT_MOST => " <= "
    case ABOVE => " > "
  }

  datatype Dialect =
    | DefaultClient | PostgresClient
    | PostgresServer | MsSqlServer | MySqlServer | OracleServer | HsqlServer | H2Server | Db2Server | SqliteServer

  predicate IsServerTime(d: Dialect) {
    !d.DefaultClient? && !d.PostgresClient?
  }

  /** The database's own expression for the current time. */
  function ClockText(d: Dialect): string {
    match d
    case PostgresServer => "now()"
    case MsSqlServer => "GETUTCDATE()"
    case MySqlServer => "UTC_TIMESTAMP(3)"
    case SqliteServer => "strftime('%Y-%m-%dT%H:%M:%fZ', 'now')"
    case _ => "CURRENT_TIMESTAMP"
  }

  datatype Hole = Identifier(text: string) | Placeholder(name: ParamName) | Clock(d: Dialect)

  datatype Part = Part(lead: Keyword, hole: Hole)

  /** A statement on a table: its parts, and the keyword that ends it. */
  datatype Template = Template(verb: Verb, table: string, parts: seq<Part>, end: Option<Keyword>)

  datatype ColumnNames = ColumnNames(name: string, lockUntil: string, lockedAt: string, lockedBy: string)

  function Now(d: Dialect): Hole {
    if IsServerTime(d) then Clock(d) else Placeholder(NOW)
  }

  /** Two holes, each after its keyword, before the parts that follow. */
  function Pair(lead: Keyword, first: Hole, separator: Keyword, second: Hole, rest: seq<Part>): seq<Part> {
    [Part(lead, first), Part(separator, second)] + rest
  }

  function Columns(c: ColumnNames, rest: seq<Part>): seq<Part> {
    Pair(OPEN, Identifier(c.name), COMMA, Identifier(c.lockUntil),
    Pair(COMMA, Identifier(c.lockedAt), COMMA, Identifier(c.lockedBy), rest))
  }

  function Values(d: Dialect, rest: seq<Part>): seq<Part> {
    Pair(VALUES, Placeholder(NAME), COMMA, Placeholder(LOCK_UNTIL),
    Pair(COMMA, Now(d), COMMA, Placeholder(LOCKED_BY), rest))
  }

  function Insert(d: Dialect, t: string, c: ColumnNames): Template {
    if d.PostgresClient? || d.PostgresServer?
    then Template(INSERT_INTO, t, Columns(c, Values(d, [Part(ON_CONFLICT, Identifier(c.name))])), Some(DO_NOTHING))
    else Template(if d.SqliteServer? then INSERT_OR_IGNORE_INTO else INSERT_INTO, t, Columns(c, Values(d, [])), Some(CLOSE))
  }

  /** The guard that the lock is free. */
  function Free(d: Dialect, c: ColumnNames): seq<Part> {
    Pair(WHERE, Identifier(c.name), EQUAL, Placeholder(NAME),
    Pair(AND, Identifier(c.lockUntil), AT_MOST, Now(d), []))
  }

  function Update(d: Dialect, t: string, c: ColumnNames): Template {
    Template(UPDATE_TABLE, t,
             Pair(SET, Identifier(c.lockUntil), EQUAL, Placeholder(LOCK_UNTIL),
             Pair(COMMA, Identifier(c.lockedAt), EQUAL, Now(d),
             Pair(COMMA, Identifier(c.lockedBy), EQUAL, Placeholder(LOCKED_BY),
             Free(d, c)))),
             None)
  }

  /** The guard that the row is this lock's and this node's. */
  function Owned(c: ColumnNames, rest: seq<Part>): seq<Part> {
    Pair(WHERE, Identifier(c.name), EQUAL, Placeholder(NAME), Pair(AND, Identifier(c.lockedBy), EQUAL, Placeholder(LOCKED_BY), rest))
  }

  /** The guard that the stored deadline is the one bound to a name. */
  function Fence(c: ColumnNames, name: ParamName): seq<Part> {
    Pair(AND, Identifier(c.lockUntil), EQUAL, Placeholder(name), [])
  }

  function Current(d: Dialect, c: ColumnNames): seq<Part> {
    Pair(AND, Identifier(c.lockUntil), ABOVE, Now(d), Fence(c, PREVIOUS_LOCK_UNTIL))
  }

  function Extend(d: Dialect, t: string, c: ColumnNames): Template {
    Template(UPDATE_TABLE, t, Pair(SET, Identifier(c.lockUntil), EQUAL, Placeholder(LOCK_UNTIL), Owned(c, Current(d, c))), None)
  }

  function Unlock(t: string, c: ColumnNames): Template {
    Template(UPDATE_TABLE, t, Pair(SET, Identifier(c.lockUntil), EQUAL, Placeholder(UNLOCK_TIME), Owned(c, Fence(c, LOCK_UNTIL))), None)
  }

  function TemplateFor(statement: Statement, d: Dialect, t: string, c: ColumnNames): Template {
    match statement
    case INSERT => Insert(d, t, c)
    case UPDATE => Update(d, t, c)
    case EXTEND => Extend(d, t, c)
    case UNLOCK => Unlock(t, c)
  }

  function HoleText(hole: Hole): string {
    match hole case Identifier(t) => t case Clock(d) => ClockText(d) case Placeholder(n) => ":" + Spelling(n)
  }

  function EndText(end: Option<Keyword>): string {
    match end case None => "" case Some(k) => KeywordText(k)
  }

  function PartsText(parts: seq<Part>, end: string): string {
    if parts == [] then end else KeywordText(parts[0].lead) + (HoleText(parts[0].hole) + PartsText(parts[1..], end))
  }

  function Sql(t: Template): string {
    VerbText(t.verb) + (t.table + PartsText(t.parts, EndText(t.end)))
  }

  /** What `validateIdentifier` lets through. */
  predicate ValidIdentifier(value: string) {
    value != [] && IsStart(value[0]) && forall c <- value :: IsWord(c)
  }

  predicate ValidNames(table: string, c: ColumnNames) {
    && ValidIdentifier(table) && ValidIdentifier(c.name) && ValidIdentifier(c.lockUntil)
    && ValidIdentifier(c.lockedAt) && ValidIdentifier(c.lockedBy)
  }

  /** The keys of the record that `params` returns. */
  function BoundNames(d: Dialect, hasPrevious: bool): set<ParamName> {
    {NAME, LOCK_UNTIL, LOCKED_BY, UNLOCK_TIME}
    + (if IsServerTime(d) then {} else {NOW})
    + (if hasPrevious then {PREVIOUS_LOCK_UNTIL} else {})
  }

  datatype Value = Time(at: Millis) | Name(text: string)

  /** The record itself. */
  function Bindings(p: Params): map<ParamName, Value> {
    map[NAME := Name(p.name), LOCK_UNTIL := Time(p.lockUntil), LOCKED_BY := Name(p.lockedBy), UNLOCK_TIME := Time(p.unlockTime)]
    + (if p.now.Some? then map[NOW := Time(p.now.value)] else map[])
    + (if p.previousLockUntil.Some? then map[PREVIOUS_LOCK_UNTIL := Time(p.previousLockUntil.value)] else map[])
  }

  function SourceOf(d: Dialect): Source {
    if IsServerTime(d) then ServerTimeSource else ClientTimeSource
  }

  /** What the source of a dialect binds for a call has exactly these keys. */
  lemma SourceBindsNames(d: Dialect, lockedBy: string, config: LockConfiguration, previous: Option<Millis>, clock: Millis)
    ensures Bindings(Bind(SourceOf(d), lockedBy, config, previous, clock)).Keys == BoundNames(d, previous.Some?)
  {
    var p := Bind(SourceOf(d), lockedBy, config, previous, clock);
    assert forall n :: n in Bindings(p) <==> n in BoundNames(d, previous.Some?);
  }

  // ---- Scanning text

  /** A character no driver takes for the start of a placeholder. */
  predicate IsPlain(c: char) {
    c != '$' && c != '?' && c != '@'
  }

  /** Text with nothing that looks like a placeholder, not even at its end. */
  ghost predicate Quiet(text: string) {
    && (forall i :: 0 <= i < |text| && text[i] == ':' ==> i + 1 < |text| && !IsStart(text[i + 1]))
    && (forall c <- text :: IsPlain(c))
  }

  /** The tokens are plain characters and the given names. */
  ghost predicate PlainWith(tokens: seq<Token>, names: set<ParamName>) {
    && (forall t <- tokens :: t.Text? ==> IsPlain(t.c))
    && (forall n :: Param(n) in tokens <==> n in Spellings(names))
  }

  lemma QuietTextScans(text: string, rest: string, names: set<ParamName>)
    requires Quiet(text) && PlainWith(Scan(':', rest), names)
    ensures PlainWith(Scan(':', text + rest), names)
  {
    var s := text + rest;
    forall j | 0 <= j < |text| ensures !MatchesAt(':', s, j) {
      if s[j] == ':' { assert text[j] == ':' && s[j + 1] == text[j + 1]; }
    }
    ScanSkipsText(':', s, 0, |text|);
    assert s[0..] == s && s[0..|text|] == text && s[|text|..] == rest;
    assert Scan(':', s) == Texts(text) + Scan(':', rest);
    assert forall i :: 0 <= i < |text| ==> text[i] in text;
  }

  lemma PlaceholderScans(name: ParamName, rest: string, names: set<ParamName>)
    requires rest != [] ==> !IsWord(rest[0])
    requires PlainWith(Scan(':', rest), names)
    ensures PlainWith(Scan(':', HoleText(Placeholder(name)) + rest), {name} + names)
  {
    SpellingIsName(name);
    MarkedNameScans(':', Spelling(name), rest);
    assert HoleText(Placeholder(name)) + rest == [':'] + Spelling(name) + rest;
  }

  // ---- The fixed text

  lemma SpellingIsName(p: ParamName)
    ensures IsName(Spelling(p))
  {
    AllWords(Spelling(p));
  }

  lemma LettersAreQuiet(text: string)
    requires forall c <- text :: c != ':' && IsPlain(c)
    ensures Quiet(text)
  {
    assert forall i :: 0 <= i < |text| ==> text[i] in text;
  }

  lemma VerbIsQuiet(v: Verb)
    ensures Quiet(VerbText(v))
  {
    LettersAreQuiet(VerbText(v));
  }

  /** A keyword is quiet, and ends a name before it. */
  lemma KeywordIsQuiet(k: Keyword)
    ensures Quiet(KeywordText(k)) && KeywordText(k) != [] && !IsWord(KeywordText(k)[0])
  {
    LettersAreQuiet(KeywordText(k));
  }

  lemma QuietColon(before: string, after: string)
    requires forall c <- before :: c != ':' && IsPlain(c)
    requires Quiet(after) && after != [] && !IsStart(after[0])
    ensures Quiet(before + (":" + after))
  {
    var s := before + (":" + after);
    forall i | 0 <= i < |s| && s[i] == ':' ensures i + 1 < |s| && !IsStart(s[i + 1]) {
      assert i >= |before| by { assert forall j :: 0 <= j < |before| ==> s[j] in before; }
      var k := i - |before| - 1;
      if k >= 0 { assert after[k] == ':' && s[i + 1] == after[k + 1]; }
      if k == -1 { assert s[i + 1] == after[0]; }
    }
  }

  /** The one clock with colons: a percent sign follows each. */
  lemma SqliteClockIsQuiet()
    ensures Quiet(ClockText(SqliteServer))
  {
    QuietFromMinutes();
    QuietColon("strftime('%Y-%m-%dT%H", "%M:%fZ', 'now')");
    assert ClockText(SqliteServer) == "strftime('%Y-%m-%dT%H" + (":" + "%M:%fZ', 'now')");
  }

  lemma QuietFromMinutes()
    ensures Quiet("%M:%fZ', 'now')")
  {
    LettersAreQuiet("%fZ', 'now')");
    QuietColon("%M", "%fZ', 'now')");
    assert "%M:%fZ', 'now')" == "%M" + (":" + "%fZ', 'now')");
  }

  lemma ClockIsQuiet(d: Dialect)
    ensures Quiet(ClockText(d))
  {
    if d.SqliteServer? { SqliteClockIsQuiet(); } else { LettersAreQuiet(ClockText(d)); }
  }

  // ---- Scanning a statement

  ghost predicate Fits(hole: Hole) {
    hole.Identifier? ==> ValidIdentifier(hole.text)
  }

  ghost function NamesOf(parts: seq<Part>): set<ParamName> {
    set p <- parts | p.hole.Placeholder? :: p.hole.name
  }

  lemma NamesOfHead(parts: seq<Part>)
    requires parts != []
    ensures NamesOf(parts) == NameOf(parts[0].hole) + NamesOf(parts[1..])
  {
    assert parts == [parts[0]] + parts[1..];
  }

  lemma {:induction false} PartsScan(parts: seq<Part>, end: string)
    requires forall p <- parts :: Fits(p.hole)
    requires Quiet(end) && (end != [] ==> !IsWord(end[0]))
    ensures PlainWith(Scan(':', PartsText(parts, end)), NamesOf(parts))
    ensures PartsText(parts, end) != [] ==> !IsWord(PartsText(parts, end)[0])
    decreases |parts|
  {
    if parts == [] {
      assert Scan(':', "") == [];
      QuietTextScans(end, "", {});
      assert end + "" == end;
    } else {
      var rest := PartsText(parts[1..], end);
      PartsScan(parts[1..], end);
      NamesOfHead(parts);
      var hole := parts[0].hole;
      assert Fits(hole);
      HoleScans(hole, rest, NamesOf(parts[1..]));
      KeywordIsQuiet(parts[0].lead);
      QuietTextScans(KeywordText(parts[0].lead), HoleText(hole) + rest, NamesOf(parts));
    }
  }

  function NameOf(hole: Hole): set<ParamName> {
    if hole.Placeholder? then {hole.name} else {}
  }

  lemma HoleScans(hole: Hole, rest: string, names: set<ParamName>)
    requires Fits(hole) && (rest != [] ==> !IsWord(rest[0])) && PlainWith(Scan(':', rest), names)
    ensures PlainWith(Scan(':', HoleText(hole) + rest), NameOf(hole) + names)
  {
    match hole
    case Identifier(t) =>
      LettersAreQuiet(t);
      QuietTextScans(t, rest, names);
      assert {} + names == names;
    case Clock(d) =>
      ClockIsQuiet(d);
      QuietTextScans(ClockText(d), rest, names);
      assert {} + names == names;
    case Placeholder(n) => PlaceholderScans(n, rest, names);
  }

  lemma TemplateScans(t: Template)
    requires ValidIdentifier(t.table) && forall p <- t.parts :: Fits(p.hole)
    ensures PlainWith(Scan(':', Sql(t)), NamesOf(t.parts))
  {
    if t.end.Some? { KeywordIsQuiet(t.end.value); }
    var parts := PartsText(t.parts, EndText(t.end));
    PartsScan(t.parts, EndText(t.end));
    LettersAreQuiet(t.table);
    QuietTextScans(t.table, parts, NamesOf(t.parts));
    VerbIsQuiet(t.verb);
    QuietTextScans(VerbText(t.verb), t.table + parts, NamesOf(t.parts));
  }

  // ---- The text of each statement

  lemma NameText() ensures HoleText(Placeholder(NAME)) == ":name" {}

  lemma NowNameText() ensures HoleText(Placeholder(NOW)) == ":now" {}

  lemma LockUntilText() ensures HoleText(Placeholder(LOCK_UNTIL)) == ":lockUntil" {}

  lemma LockedByText() ensures HoleText(Placeholder(LOCKED_BY)) == ":lockedBy" {}

  lemma UnlockTimeText() ensures HoleText(Placeholder(UNLOCK_TIME)) == ":unlockTime" {}

  lemma PreviousText() ensures HoleText(Placeholder(PREVIOUS_LOCK_UNTIL)) == ":previousLockUntil" {}

  function NowText(d: Dialect): string {
    if IsServerTime(d) then ClockText(d) else ":now"
  }

  lemma NowIsText(d: Dialect)
    ensures HoleText(Now(d)) == NowText(d)
  {
    NowNameText();
  }

  lemma PairText(lead: Keyword, first: Hole, separator: Keyword, second: Hole, rest: seq<Part>, end: string)
    ensures PartsText(Pair(lead, first, separator, second, rest), end) ==
      KeywordText(lead) + (HoleText(first) + (KeywordText(separator) + (HoleText(second) + PartsText(rest, end))))
  {
    var parts := Pair(lead, first, separator, second, rest);
    assert parts[1..] == [Part(separator, second)] + rest;
    assert parts[1..][1..] == rest;
  }

  lemma OwnedText(c: ColumnNames, rest: seq<Part>)
    ensures PartsText(Owned(c, rest), "") ==
      " WHERE " + (c.name + (" = " + (":name" + (" AND " + (c.lockedBy + (" = " + (":lockedBy" + PartsText(rest, ""))))))))
  {
    NameText();
    LockedByText();
    PairText(AND, Identifier(c.lockedBy), EQUAL, Placeholder(LOCKED_BY), rest, "");
    PairText(WHERE, Identifier(c.name), EQUAL, Placeholder(NAME), Pair(AND, Identifier(c.lockedBy), EQUAL, Placeholder(LOCKED_BY), rest), "");
  }

  lemma FenceText(c: ColumnNames, n: ParamName)
    ensures PartsText(Fence(c, n), "") == " AND " + (c.lockUntil + (" = " + (HoleText(Placeholder(n)) + "")))
  {
    PairText(AND, Identifier(c.lockUntil), EQUAL, Placeholder(n), [], "");
  }

  /** The unlock statement reads, word for word, as the sources write it. */
  lemma UnlockText(t: string, c: ColumnNames)
    ensures Sql(Unlock(t, c)) ==
      "UPDATE " + (t + (" SET " + (c.lockUntil + (" = " + (":unlockTime"
      + (" WHERE " + (c.name + (" = " + (":name"
      + (" AND " + (c.lockedBy + (" = " + (":lockedBy"
      + (" AND " + (c.lockUntil + (" = " + (":lockUntil" + "")))))))))))))))))
  {
    UnlockTimeText();
    LockUntilText();
    FenceText(c, LOCK_UNTIL);
    OwnedText(c, Fence(c, LOCK_UNTIL));
    PairText(SET, Identifier(c.lockUntil), EQUAL, Placeholder(UNLOCK_TIME), Owned(c, Fence(c, LOCK_UNTIL)), "");
  }

  /** So does the extend statement. */
  lemma ExtendText(d: Dialect, t: string, c: ColumnNames)
    ensures Sql(Extend(d, t, c)) ==
      "UPDATE " + (t + (" SET " + (c.lockUntil + (" = " + (":lockUntil"
      + (" WHERE " + (c.name + (" = " + (":name"
      + (" AND " + (c.lockedBy + (" = " + (":lockedBy"
      + (" AND " + (c.lockUntil + (" > " + (NowText(d)
      + (" AND " + (c.lockUntil + (" = " + (":previousLockUntil" + "")))))))))))))))))))))
  {
    LockUntilText();
    PreviousText();
    NowIsText(d);
    FenceText(c, PREVIOUS_LOCK_UNTIL);
    PairText(AND, Identifier(c.lockUntil), ABOVE, Now(d), Fence(c, PREVIOUS_LOCK_UNTIL), "");
    OwnedText(c, Current(d, c));
    PairText(SET, Identifier(c.lockUntil), EQUAL, Placeholder(LOCK_UNTIL), Owned(c, Current(d, c)), "");
  }

  lemma FreeText(d: Dialect, c: ColumnNames)
    ensures PartsText(Free(d, c), "") ==
      " WHERE " + (c.name + (" = " + (":name" + (" AND " + (c.lockUntil + (" <= " + (NowText(d) + "")))))))
  {
    NameText();
    NowIsText(d);
    PairText(AND, Identifier(c.lockUntil), AT_MOST, Now(d), [], "");
    PairText(WHERE, Identifier(c.name), EQUAL, Placeholder(NAME), Pair(AND, Identifier(c.lockUntil), AT_MOST, Now(d), []), "");
  }

  lemma SetsText(d: Dialect, c: ColumnNames, rest: seq<Part>)
    ensures PartsText(Pair(COMMA, Identifier(c.lockedAt), EQUAL, Now(d), Pair(COMMA, Identifier(c.lockedBy), EQUAL, Placeholder(LOCKED_BY), rest)), "") ==
      ", " + (c.lockedAt + (" = " + (NowText(d) + (", " + (c.lockedBy + (" = " + (":lockedBy" + PartsText(rest, ""))))))))
  {
    NowIsText(d);
    LockedByText();
    var host := Pair(COMMA, Identifier(c.lockedBy), EQUAL, Placeholder(LOCKED_BY), rest);
    PairText(COMMA, Identifier(c.lockedBy), EQUAL, Placeholder(LOCKED_BY), rest, "");
    PairText(COMMA, Identifier(c.lockedAt), EQUAL, Now(d), host, "");
  }

  /** And the update statement. */
  lemma UpdateText(d: Dialect, t: string, c: ColumnNames)
    ensures Sql(Update(d, t, c)) ==
      "UPDATE " + (t + (" SET " + (c.lockUntil + (" = " + (":lockUntil"
      + (", " + (c.lockedAt + (" = " + (NowText(d)
      + (", " + (c.lockedBy + (" = " + (":lockedBy"
      + (" WHERE " + (c.name + (" = " + (":name"
      + (" AND " + (c.lockUntil + (" <= " + (NowText(d) + "")))))))))))))))))))))
  {
    LockUntilText();
    FreeText(d, c);
    SetsText(d, c, Free(d, c));
    PairText(SET, Identifier(c.lockUntil), EQUAL, Placeholder(LOCK_UNTIL),
             Pair(COMMA, Identifier(c.lockedAt), EQUAL, Now(d), Pair(COMMA, Identifier(c.lockedBy), EQUAL, Placeholder(LOCKED_BY), Free(d, c))), "");
  }

  lemma ValuesText(d: Dialect, rest: seq<Part>, end: string)
    ensures PartsText(Values(d, rest), end) ==
      ") VALUES(" + (":name" + (", " + (":lockUntil" + (", " + (NowText(d) + (", " + (":lockedBy" + PartsText(rest, end))))))))
  {
    NameText();
    LockUntilText();
    LockedByText();
    NowIsText(d);
    PairText(COMMA, Now(d), COMMA, Placeholder(LOCKED_BY), rest, end);
    PairText(VALUES, Placeholder(NAME), COMMA, Placeholder(LOCK_UNTIL), Pair(COMMA, Now(d), COMMA, Placeholder(LOCKED_BY), rest), end);
  }

  lemma ColumnsText(c: ColumnNames, rest: seq<Part>, end: string)
    ensures PartsText(Columns(c, rest), end) ==
      "(" + (c.name + (", " + (c.lockUntil + (", " + (c.lockedAt + (", " + (c.lockedBy + PartsText(rest, end))))))))
  {
    PairText(COMMA, Identifier(c.lockedAt), COMMA, Identifier(c.lockedBy), rest, end);
    PairText(OPEN, Identifier(c.name), COMMA, Identifier(c.lockUntil), Pair(COMMA, Identifier(c.lockedAt), COMMA, Identifier(c.lockedBy), rest), end);
  }

  function ConflictText(d: Dialect, c: ColumnNames): string {
    if d.PostgresClient? || d.PostgresServer? then ") ON CONFLICT (" + (c.name + ") DO NOTHING") else ")"
  }

  lemma InsertPartsText(d: Dialect, c: ColumnNames, rest: seq<Part>, end: string)
    ensures PartsText(Columns(c, Values(d, rest)), end) ==
      "(" + (c.name + (", " + (c.lockUntil + (", " + (c.lockedAt + (", " + (c.lockedBy
      + (") VALUES(" + (":name" + (", " + (":lockUntil" + (", " + (NowText(d) + (", " + (":lockedBy"
      + PartsText(rest, end))))))))))))))))
  {
    ValuesText(d, rest, end);
    ColumnsText(c, Values(d, rest), end);
  }

  lemma InsertEnds(d: Dialect, t: string, c: ColumnNames) returns (rest: seq<Part>)
    ensures Insert(d, t, c).parts == Columns(c, Values(d, rest)) && Insert(d, t, c).table == t
    ensures PartsText(rest, EndText(Insert(d, t, c).end)) == ConflictText(d, c)
    ensures VerbText(Insert(d, t, c).verb) == if d.SqliteServer? then "INSERT OR IGNORE INTO " else "INSERT INTO "
  {
    rest := if d.PostgresClient? || d.PostgresServer? then [Part(ON_CONFLICT, Identifier(c.name))] else [];
    if rest != [] { assert rest[1..] == []; }
  }

  /** And the insert statement of each dialect. */
  lemma InsertText(d: Dialect, t: string, c: ColumnNames)
    ensures Sql(Insert(d, t, c)) ==
      (if d.SqliteServer? then "INSERT OR IGNORE INTO " else "INSERT INTO ") + (t
      + ("(" + (c.name + (", " + (c.lockUntil + (", " + (c.lockedAt + (", " + (c.lockedBy
      + (") VALUES(" + (":name" + (", " + (":lockUntil" + (", " + (NowText(d) + (", " + (":lockedBy"
      + ConflictText(d, c))))))))))))))))))
  {
    var rest := InsertEnds(d, t, c);
    var template := Insert(d, t, c);
    InsertPartsText(d, c, rest, EndText(template.end));
  }

  // ---- The names of each statement

  /** The names each statement mentions. */
  function Mentioned(statement: Statement, d: Dialect): set<ParamName> {
    match statement
    case UNLOCK => {NAME, LOCK_UNTIL, LOCKED_BY, UNLOCK_TIME}
    case EXTEND => {NAME, LOCK_UNTIL, LOCKED_BY, PREVIOUS_LOCK_UNTIL} + (if IsServerTime(d) then {} else {NOW})
    case _ => {NAME, LOCK_UNTIL, LOCKED_BY} + (if IsServerTime(d) then {} else {NOW})
  }

  ghost predicate PartsFit(parts: seq<Part>) {
    forall p <- parts :: Fits(p.hole)
  }

  lemma PairNames(lead: Keyword, first: Hole, separator: Keyword, second: Hole, rest: seq<Part>)
    requires Fits(first) && Fits(second) && PartsFit(rest)
    ensures var parts := Pair(lead, first, separator, second, rest);
      PartsFit(parts) && NamesOf(parts) == NameOf(first) + NameOf(second) + NamesOf(rest)
  {
    var parts := Pair(lead, first, separator, second, rest);
    var tail := [Part(separator, second)] + rest;
    NamesOfHead(tail);
    assert tail[1..] == rest;
    NamesOfHead(parts);
    assert parts[1..] == tail;
  }

  lemma OwnedNames(c: ColumnNames, rest: seq<Part>)
    requires ValidNames("t", c) && PartsFit(rest)
    ensures PartsFit(Owned(c, rest)) && NamesOf(Owned(c, rest)) == {NAME, LOCKED_BY} + NamesOf(rest)
  {
    PairNames(AND, Identifier(c.lockedBy), EQUAL, Placeholder(LOCKED_BY), rest);
    PairNames(WHERE, Identifier(c.name), EQUAL, Placeholder(NAME), Pair(AND, Identifier(c.lockedBy), EQUAL, Placeholder(LOCKED_BY), rest));
  }

  lemma FenceNames(c: ColumnNames, name: ParamName)
    requires ValidNames("t", c)
    ensures PartsFit(Fence(c, name)) && NamesOf(Fence(c, name)) == {name}
  {
    PairNames(AND, Identifier(c.lockUntil), EQUAL, Placeholder(name), []);
  }

  lemma CurrentNames(d: Dialect, c: ColumnNames)
    requires ValidNames("t", c)
    ensures PartsFit(Current(d, c)) && NamesOf(Current(d, c)) == {PREVIOUS_LOCK_UNTIL} + NameOf(Now(d))
  {
    FenceNames(c, PREVIOUS_LOCK_UNTIL);
    PairNames(AND, Identifier(c.lockUntil), ABOVE, Now(d), Fence(c, PREVIOUS_LOCK_UNTIL));
  }

  /** Setting the deadline of a row that is this lock's. */
  lemma SetOwnedNames(c: ColumnNames, name: ParamName, rest: seq<Part>)
    requires ValidNames("t", c) && PartsFit(rest)
    ensures var parts := Pair(SET, Identifier(c.lockUntil), EQUAL, Placeholder(name), Owned(c, rest));
      PartsFit(parts) && NamesOf(parts) == {name, NAME, LOCKED_BY} + NamesOf(rest)
  {
    OwnedNames(c, rest);
    PairNames(SET, Identifier(c.lockUntil), EQUAL, Placeholder(name), Owned(c, rest));
  }

  lemma UnlockNames(t: string, c: ColumnNames)
    requires ValidNames(t, c)
    ensures PartsFit(Unlock(t, c).parts) && NamesOf(Unlock(t, c).parts) == {NAME, LOCK_UNTIL, LOCKED_BY, UNLOCK_TIME}
  {
    FenceNames(c, LOCK_UNTIL);
    SetOwnedNames(c, UNLOCK_TIME, Fence(c, LOCK_UNTIL));
  }

  lemma ExtendNames(d: Dialect, t: string, c: ColumnNames)
    requires ValidNames(t, c)
    ensures PartsFit(Extend(d, t, c).parts)
    ensures NamesOf(Extend(d, t, c).parts) == {NAME, LOCK_UNTIL, LOCKED_BY, PREVIOUS_LOCK_UNTIL} + NameOf(Now(d))
  {
    CurrentNames(d, c);
    SetOwnedNames(c, LOCK_UNTIL, Current(d, c));
  }

  lemma FreeNames(d: Dialect, c: ColumnNames)
    requires ValidNames("t", c)
    ensures PartsFit(Free(d, c)) && NamesOf(Free(d, c)) == {NAME} + NameOf(Now(d))
  {
    PairNames(AND, Identifier(c.lockUntil), AT_MOST, Now(d), []);
    PairNames(WHERE, Identifier(c.name), EQUAL, Placeholder(NAME), Pair(AND, Identifier(c.lockUntil), AT_MOST, Now(d), []));
  }

  lemma UpdateNames(d: Dialect, t: string, c: ColumnNames)
    requires ValidNames(t, c)
    ensures PartsFit(Update(d, t, c).parts)
    ensures NamesOf(Update(d, t, c).parts) == {NAME, LOCK_UNTIL, LOCKED_BY} + NameOf(Now(d))
  {
    FreeNames(d, c);
    PairNames(COMMA, Identifier(c.lockedBy), EQUAL, Placeholder(LOCKED_BY), Free(d, c));
    var rest := Pair(COMMA, Identifier(c.lockedBy), EQUAL, Placeholder(LOCKED_BY), Free(d, c));
    PairNames(COMMA, Identifier(c.lockedAt), EQUAL, Now(d), rest);
    rest := Pair(COMMA, Identifier(c.lockedAt), EQUAL, Now(d), rest);
    PairNames(SET, Identifier(c.lockUntil), EQUAL, Placeholder(LOCK_UNTIL), rest);
  }

  lemma ColumnsNames(c: ColumnNames, rest: seq<Part>)
    requires ValidNames("t", c) && PartsFit(rest)
    ensures PartsFit(Columns(c, rest)) && NamesOf(Columns(c, rest)) == NamesOf(rest)
  {
    PairNames(COMMA, Identifier(c.lockedAt), COMMA, Identifier(c.lockedBy), rest);
    PairNames(OPEN, Identifier(c.name), COMMA, Identifier(c.lockUntil), Pair(COMMA, Identifier(c.lockedAt), COMMA, Identifier(c.lockedBy), rest));
  }

  lemma ValuesNames(d: Dialect, rest: seq<Part>)
    requires PartsFit(rest)
    ensures PartsFit(Values(d, rest)) && NamesOf(Values(d, rest)) == {NAME, LOCK_UNTIL, LOCKED_BY} + NameOf(Now(d)) + NamesOf(rest)
  {
    PairNames(COMMA, Now(d), COMMA, Placeholder(LOCKED_BY), rest);
    PairNames(VALUES, Placeholder(NAME), COMMA, Placeholder(LOCK_UNTIL), Pair(COMMA, Now(d), COMMA, Placeholder(LOCKED_BY), rest));
  }

  lemma InsertNames(d: Dialect, t: string, c: ColumnNames)
    requires ValidNames(t, c)
    ensures PartsFit(Insert(d, t, c).parts)
    ensures NamesOf(Insert(d, t, c).parts) == {NAME, LOCK_UNTIL, LOCKED_BY} + NameOf(Now(d))
  {
    var rest := if d.PostgresClient? || d.PostgresServer? then [Part(ON_CONFLICT, Identifier(c.name))] else [];
    assert PartsFit(rest) && NamesOf(rest) == {};
    ValuesNames(d, rest);
    ColumnsNames(c, Values(d, rest));
  }

  lemma TemplateNames(statement: Statement, d: Dialect, t: string, c: ColumnNames)
    requires ValidNames(t, c)
    ensures var template := TemplateFor(statement, d, t, c);
      template.table == t && PartsFit(template.parts) && NamesOf(template.parts) == Mentioned(statement, d)
  {
    match statement
    case INSERT => InsertNames(d, t, c);
    case UPDATE => UpdateNames(d, t, c);
    case EXTEND => ExtendNames(d, t, c);
    case UNLOCK => UnlockNames(t, c);
  }

  // ---- The theorems

  /** A statement's placeholders are exactly the names it mentions, and nothing else in it looks
      like a placeholder to a driver. */
  lemma StatementsScan(statement: Statement, d: Dialect, t: string, c: ColumnNames)
    requires ValidNames(t, c)
    ensures PlainWith(Scan(':', Sql(TemplateFor(statement, d, t, c))), Mentioned(statement, d))
  {
    TemplateNames(statement, d, t, c);
    TemplateScans(TemplateFor(statement, d, t, c));
  }

  /** A source binds the names a statement mentions, but for the previous deadline. */
  lemma SourcesBindMentioned(statement: Statement, d: Dialect, hasPrevious: bool)
    ensures Mentioned(statement, d) <= BoundNames(d, hasPrevious) <==> (statement.EXTEND? ==> hasPrevious)
  {
    if statement.EXTEND? { assert PREVIOUS_LOCK_UNTIL in Mentioned(statement, d); }
  }

  lemma SpellingsDiffer(p: ParamName, q: ParamName)
    ensures Spelling(p) == Spelling(q) <==> p == q
  {
    assert Spelling(p)[0] == Spelling(q)[0] && |Spelling(p)| == |Spelling(q)| ==> p == q;
  }

  /** Rendering a statement with the parameters of its source reports a missing parameter only for
      an extension without a previous deadline. */
  lemma StatementsAreClosed<T>(statement: Statement, d: Dialect, hasPrevious: bool, t: string, c: ColumnNames, params: map<string, T>)
    requires ValidNames(t, c) && params.Keys == Spellings(BoundNames(d, hasPrevious))
    ensures Covers(params, Scan(':', Sql(TemplateFor(statement, d, t, c)))) <==> (statement.EXTEND? ==> hasPrevious)
  {
    var tokens := Scan(':', Sql(TemplateFor(statement, d, t, c)));
    StatementsScan(statement, d, t, c);
    SourcesBindMentioned(statement, d, hasPrevious);
    if Mentioned(statement, d) <= BoundNames(d, hasPrevious) {
      forall i | 0 <= i < |tokens| && tokens[i].Param? ensures tokens[i].name in params {
        assert Param(tokens[i].name) in tokens;
      }
    } else {
      assert Param(Spelling(PREVIOUS_LOCK_UNTIL)) in tokens;
      forall p <- BoundNames(d, hasPrevious) ensures Spelling(p) != Spelling(PREVIOUS_LOCK_UNTIL) {
        SpellingsDiffer(p, PREVIOUS_LOCK_UNTIL);
      }
      assert Spelling(PREVIOUS_LOCK_UNTIL) !in params;
    }
  }

  /** Every driver binds every statement as the named statement means it: by number, by position,
      by marked name, and as chunks. */
  lemma StatementsBindAsMeant<T>(statement: Statement, d: Dialect, hasPrevious: bool, t: string, c: ColumnNames, params: map<string, T>)
    requires ValidNames(t, c) && params.Keys == Spellings(BoundNames(d, hasPrevious))
    requires statement.EXTEND? ==> hasPrevious
    ensures var tokens := Scan(':', Sql(TemplateFor(statement, d, t, c)));
      var dollar, question := Replaced(Dollar, tokens, params, [], []), Replaced(Question, tokens, params, [], []);
      && Covers(params, tokens)
      && dollar.Returned? && BindDollar(dollar.value.0, dollar.value.1) == Some(Direct(tokens, params))
      && question.Returned? && BindQuestion(question.value.0, question.value.1) == Some(Direct(tokens, params))
    ensures var tokens := Scan(':', Sql(TemplateFor(statement, d, t, c)));
      var marked := Replaced(Prefix('@'), tokens, params, [], []);
      && marked.Returned? && BindMarked('@', marked.value.0, params) == Some(Direct(tokens, params))
    ensures var sql := Sql(TemplateFor(statement, d, t, c));
      var query := Drizzle.Query(sql, params);
      && query.Returned? && Drizzle.Denote(query.value) == Direct(Scan(':', sql), params)
  {
    var sql := Sql(TemplateFor(statement, d, t, c));
    var tokens := Scan(':', sql);
    StatementsScan(statement, d, t, c);
    StatementsAreClosed(statement, d, hasPrevious, t, c, params);
    NothingMistaken(tokens, Mentioned(statement, d));
    RenderingsPreserveMeaning(sql, params);
    PrefixPreservesMeaning('@', sql, params);
    Drizzle.QueryMeans(sql, params);
  }

  lemma NothingMistaken(tokens: seq<Token>, names: set<ParamName>)
    requires PlainWith(tokens, names)
    ensures !LooksNumbered(tokens) && Text('?') !in tokens && !LooksMarked('@', tokens)
  {
    assert forall i :: 0 <= i < |tokens| ==> tokens[i] in tokens;
  }
}
