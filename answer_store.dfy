/** The per-exam answer store: one table per exam inside one shared SQLite
    file. The file is a map from table name to table (a name is present
    exactly when its table exists) and a table maps a question id to its
    row, which is what the `UNIQUE(question_id)` column with
    `INSERT OR REPLACE` amounts to.

    Failures of the storage engine are injected: every public operation of
    a `DatabaseManager` takes the next `Faults` from a script held by the
    shared file. */
module AnswerStore {
  import opened Wrappers
  import opened JsText

  /** One saved row: the question, the chosen option and when it was chosen. */
  datatype ExamAnswer = ExamAnswer(
    questionId: int,
    questionText: string,
    selectedOptionId: int,
    selectedOptionText: string,
    createdAt: string)

  /** One exam's table, keyed by the unique question id: every row sits
      under its own question id. */
  type Table = t: map<int, ExamAnswer> | WellKeyed(t) witness map[]

  /** The shared database file: table name to table. */
  type Tables = map<string, Table>

  /** What goes wrong during one operation: opening the file, running
      `CREATE TABLE IF NOT EXISTS`, and how many consecutive runs of the
      operation's main statement throw (0: the first run succeeds; 1: the
      retry succeeds; 2 or more: the retry throws too). For `closeDatabase`
      a positive count means closing throws. */
  datatype Faults = Faults(openFails: bool, createFails: bool, stmtFailures: nat)

  const NoFaults := Faults(false, false, 0)

  /** The failures scripted for the next operation; none once the script is used up. */
  function Head(script: seq<Faults>): Faults {
    if script == [] then NoFaults else script[0]
  }

  function Tail(script: seq<Faults>): seq<Faults> {
    if script == [] then [] else script[1..]
  }

  /** What one manager sees: the shared tables and whether its own
      connection (`this.db`) is open. */
  datatype Store = Store(tables: Tables, isOpen: bool)

  /** Every row sits under its own question id. */
  predicate WellKeyed(t: map<int, ExamAnswer>) {
    forall q :: q in t ==> t[q].questionId == q
  }

  /** The rows of table `name`, none when the table does not exist. */
  function RowsOf(s: Store, name: string): Table {
    if name in s.tables then s.tables[name] else map[]
  }

  /** `r` differs from `s` at most in table `name`. */
  ghost predicate Isolated(s: Store, r: Store, name: string) {
    forall n :: n != name ==> (n in r.tables <==> n in s.tables) &&
                              (n in s.tables ==> r.tables[n] == s.tables[n])
  }

  // ------------------------------------------------------------ table name

  predicate IsSafeChar(c: char) {
    ('a' <= c <= 'z') || ('A' <= c <= 'Z') || IsDigit(c) || c == '_'
  }

  /** `replace(/[^a-zA-Z0-9_]/g, '_')`: every unsafe character becomes `_`. */
  function Sanitize(id: string): (r: string)
    ensures |r| == |id|
    ensures forall i :: 0 <= i < |r| ==> IsSafeChar(r[i])
    ensures forall i :: 0 <= i < |r| ==> (r[i] == id[i] <==> IsSafeChar(id[i]))
  {
    if id == [] then []
    else [if IsSafeChar(id[0]) then id[0] else '_'] + Sanitize(id[1..])
  }

  const TablePrefix: string := "exam_answers_"

  /** The table holding exam `examId`'s answers. */
  function TableName(examId: string): string {
    var safe := Sanitize(examId);
    if safe == [] || |Trim(safe)| == 0 then TablePrefix + "invalid"
    else TablePrefix + (if IsDigit(safe[0]) then "t_" + safe else safe)
  }

  /** No character of a sanitized id is whitespace. */
  lemma SafeIsNotSpace(c: char)
    requires IsSafeChar(c)
    ensures !IsSpace(c)
  {
  }

  /** A non-empty id keeps its sanitized spelling after the prefix, guarded
      by `t_` when it starts with a digit: the whitespace check on the
      sanitized id can never fire. */
  lemma TableNameOfId(examId: string)
    requires examId != []
    ensures var safe := Sanitize(examId);
            TableName(examId) == TablePrefix + (if IsDigit(examId[0]) then "t_" + safe else safe)
  {
    var safe := Sanitize(examId);
    SafeIsNotSpace(safe[0]);
    TrimBlank(safe);
    assert Trim(safe) != [];
    assert IsDigit(examId[0]) <==> IsDigit(safe[0]);
  }

  predicate AllSafe(s: string) {
    forall i :: 0 <= i < |s| ==> IsSafeChar(s[i])
  }

  lemma PrefixedName(tail: string)
    requires tail != [] && AllSafe(tail) && !IsDigit(tail[0])
    ensures NameShaped(TablePrefix + tail)
  {
    var name := TablePrefix + tail;
    assert AllSafe(TablePrefix);
    forall i | 0 <= i < |name| ensures IsSafeChar(name[i]) {
      if i < |TablePrefix| {
        assert name[i] == TablePrefix[i];
      } else {
        assert name[i] == tail[i - |TablePrefix|];
      }
    }
  }

  predicate NameShaped(name: string) {
    |name| > |TablePrefix| && name[..|TablePrefix|] == TablePrefix &&
    AllSafe(name) && !IsDigit(name[|TablePrefix|])
  }

  lemma DigitLedName(examId: string)
    requires examId != [] && IsDigit(examId[0])
    ensures NameShaped(TableName(examId))
  {
    TableNameOfId(examId);
    var safe := Sanitize(examId);
    var tail := "t_" + safe;
    assert AllSafe(tail) by {
      forall i | 0 <= i < |tail| ensures IsSafeChar(tail[i]) {
        if i >= 2 {
          assert tail[i] == safe[i - 2];
        }
      }
    }
    PrefixedName(tail);
  }

  lemma LetterLedName(examId: string)
    requires examId != [] && !IsDigit(examId[0])
    ensures NameShaped(TableName(examId))
  {
    TableNameOfId(examId);
    var safe := Sanitize(examId);
    assert IsSafeChar(safe[0]) && safe[0] != examId[0] ==> safe[0] == '_';
    PrefixedName(safe);
  }

  /** A table name is a safe SQL identifier: it starts with the prefix, uses
      only letters, digits and `_`, and no digit follows the prefix. An empty
      exam id is mapped to the `invalid` table. */
  lemma TableNameShape(examId: string)
    ensures NameShaped(TableName(examId))
    ensures examId == [] ==> TableName(examId) == TablePrefix + "invalid"
  {
    if examId == [] {
      assert AllSafe("invalid");
      PrefixedName("invalid");
    } else if IsDigit(examId[0]) {
      DigitLedName(examId);
    } else {
      LetterLedName(examId);
    }
  }

  /** The naming is not injective: ids that differ only in unsafe characters
      share a table, and so do a digit-leading id and its `t_` spelling, and
      the empty id and `invalid`. */
  lemma TableNameCollisions()
    ensures TableName("a-b") == TableName("a.b")
    ensures TableName("1") == TableName("t_1")
    ensures TableName("") == TableName("invalid")
  {
    UnsafeCharsCollide();
    DigitGuardCollides();
    EmptyIdCollides();
  }

  lemma UnsafeCharsCollide()
    ensures TableName("a-b") == TableName("a.b")
  {
    assert Sanitize("a-b") == "a_b" by {
      assert Sanitize("b") == "b";
      assert Sanitize("-b") == "_b";
    }
    assert Sanitize("a.b") == "a_b" by {
      assert Sanitize("b") == "b";
      assert Sanitize(".b") == "_b";
    }
    TableNameOfId("a-b");
    TableNameOfId("a.b");
  }

  lemma DigitGuardCollides()
    ensures TableName("1") == TableName("t_1")
  {
    assert Sanitize("1") == "1";
    assert Sanitize("t_1") == "t_1" by {
      assert Sanitize("1") == "1";
      assert Sanitize("_1") == "_1";
    }
    TableNameOfId("1");
    TableNameOfId("t_1");
    assert "t_" + "1" == "t_1";
  }

  lemma EmptyIdCollides()
    ensures TableName("") == TableName("invalid")
  {
    assert Sanitize("invalid") == "invalid" by {
      assert AllSafe("invalid");
    }
    TableNameOfId("invalid");
  }

  // ----------------------------------------------------------- ordered rows

  lemma HasMember(ks: set<int>)
    requires ks != {}
    ensures exists k :: k in ks
  {
    if forall k :: k !in ks {
      assert false;
    }
  }

  lemma {:induction false} MinExists(ks: set<int>)
    requires ks != {}
    ensures exists m :: m in ks && forall k :: k in ks ==> m <= k
    decreases ks
  {
    HasMember(ks);
    var x :| x in ks;
    var rest := ks - {x};
    if rest == {} {
      forall k | k in ks ensures x <= k {
        assert k == x || k in rest;
      }
    } else {
      MinExists(rest);
      var y :| y in rest && forall k :: k in rest ==> y <= k;
      var m := if x < y then x else y;
      forall k | k in ks ensures m <= k {
        if k != x {
          assert k in rest;
        }
      }
    }
  }

  function MinKey(ks: set<int>): (m: int)
    requires ks != {}
    ensures m in ks && forall k :: k in ks ==> m <= k
  {
    MinExists(ks);
    var m :| m in ks && forall k :: k in ks ==> m <= k;
    m
  }

  /** The keys in ascending order. */
  function SortedKeys(ks: set<int>): (r: seq<int>)
    ensures |r| == |ks|
    ensures forall k :: k in ks <==> k in r
    ensures forall i, j :: 0 <= i < j < |r| ==> r[i] < r[j]
    decreases ks
  {
    if ks == {} then []
    else
      var m := MinKey(ks);
      var rest := SortedKeys(ks - {m});
      MinThenRest(ks, m, rest);
      [m] + rest
  }

  /** The least key followed by the rest in ascending order lists every key
      in ascending order. */
  lemma MinThenRest(ks: set<int>, m: int, rest: seq<int>)
    requires m in ks && forall k :: k in ks ==> m <= k
    requires |rest| == |ks - {m}|
    requires forall k :: k in ks - {m} <==> k in rest
    requires forall i, j :: 0 <= i < j < |rest| ==> rest[i] < rest[j]
    ensures |[m] + rest| == |ks|
    ensures forall k :: k in ks <==> k in [m] + rest
    ensures forall i, j :: 0 <= i < j < |[m] + rest| ==> ([m] + rest)[i] < ([m] + rest)[j]
  {
    assert |ks - {m}| == |ks| - 1;
    var r := [m] + rest;
    forall i, j | 0 <= i < j < |r| ensures r[i] < r[j] {
      if i > 0 {
        assert r[i] == rest[i - 1] && r[j] == rest[j - 1];
      } else {
        assert r[j] == rest[j - 1] && r[j] in ks - {m};
      }
    }
  }

  /** The rows stored under `keys`, in the order of `keys`. */
  function KeyedRows(t: Table, keys: seq<int>): (rows: seq<ExamAnswer>)
    requires forall i :: 0 <= i < |keys| ==> keys[i] in t
    ensures |rows| == |keys|
    ensures forall i :: 0 <= i < |keys| ==> rows[i] == t[keys[i]]
  {
    seq(|keys|, i requires 0 <= i < |keys| => t[keys[i]])
  }

  lemma RowsCover(t: Table, keys: seq<int>, rows: seq<ExamAnswer>)
    requires |rows| == |keys|
    requires forall i :: 0 <= i < |keys| ==> keys[i] in t && rows[i] == t[keys[i]]
    requires forall q :: q in t ==> q in keys
    ensures forall q :: q in t ==> t[q] in rows
  {
    forall q | q in t ensures t[q] in rows {
      var i :| 0 <= i < |keys| && keys[i] == q;
      assert rows[i] == t[q];
    }
  }

  /** Rows read under ascending keys come out by ascending question id. */
  lemma RowsFollowKeys(t: Table, keys: seq<int>, rows: seq<ExamAnswer>)
    requires |rows| == |keys|
    requires forall i :: 0 <= i < |keys| ==> keys[i] in t && rows[i] == t[keys[i]]
    requires forall i, j :: 0 <= i < j < |keys| ==> keys[i] < keys[j]
    ensures forall i :: 0 <= i < |rows| ==> rows[i].questionId == keys[i]
    ensures forall i, j :: 0 <= i < j < |rows| ==> rows[i].questionId < rows[j].questionId
  {
  }

  /** `SELECT * ... ORDER BY question_id`: every row once, by ascending question id. */
  function Rows(t: Table): (rows: seq<ExamAnswer>)
    ensures |rows| == |t|
    ensures forall i, j :: 0 <= i < j < |rows| ==> rows[i].questionId < rows[j].questionId
    ensures forall i :: 0 <= i < |rows| ==> rows[i].questionId in t && t[rows[i].questionId] == rows[i]
    ensures forall q :: q in t ==> t[q] in rows
  {
    var keys := SortedKeys(t.Keys);
    var rows := KeyedRows(t, keys);
    RowsCover(t, keys, rows);
    RowsFollowKeys(t, keys, rows);
    rows
  }

  // ------------------------------------------------- one operation, as values

  function EnsureTable(ts: Tables, name: string): (r: Tables)
    ensures name in r && r.Keys == ts.Keys + {name}
    ensures forall n :: n in ts ==> r[n] == ts[n]
    ensures name !in ts ==> r[name] == map[]
  {
    if name in ts then ts else ts[name := map[]]
  }

  /** `if (!this.db) await this.initializeDatabase(); await this.ensureExamTable();`
      The flag says whether both steps succeeded. */
  function Prepare(s: Store, name: string, f: Faults): (r: (Store, bool))
    ensures r.1 <==> (s.isOpen || !f.openFails) && !f.createFails
    ensures r.1 ==> r.0.isOpen && name in r.0.tables && r.0.tables[name] == RowsOf(s, name)
    ensures !r.1 ==> r.0.tables == s.tables
    ensures Isolated(s, r.0, name)
  {
    if !s.isOpen && f.openFails then (s, false)
    else if f.createFails then (s.(isOpen := true), false)
    else (Store(EnsureTable(s.tables, name), true), true)
  }

  /** `withReconnect(op, onReconnect)`: the statement runs once; if it throws,
      the connection is reopened, `onReconnect` recreates the table when
      `recreate` holds, and the statement runs a second and last time. The
      flag says whether some run succeeded; a statement that throws has no
      effect, so the caller applies the statement's effect exactly when it is set. */
  function Reconnect(s: Store, name: string, failures: nat, recreate: bool): (r: (Store, bool))
    ensures r.1 <==> failures < 2
    ensures name in s.tables ==> r.0.tables == s.tables
    ensures s.isOpen ==> r.0.isOpen
    ensures Isolated(s, r.0, name)
  {
    if failures == 0 then (s, true)
    else
      var reopened := s.(isOpen := true);
      var s1 := if recreate then reopened.(tables := EnsureTable(reopened.tables, name)) else reopened;
      (s1, failures == 1)
  }

  /** `saveAnswer`: upsert the row under its question id. Errors are swallowed,
      so there is no result: on success the table holds `row` in place of any
      earlier row for that question; on any failure no row changes. */
  function Save(s: Store, name: string, row: ExamAnswer, f: Faults): (r: Store)
    ensures Isolated(s, r, name)
    ensures Saves(s, f) ==> name in r.tables && r.tables[name] == RowsOf(s, name)[row.questionId := row]
    ensures !Saves(s, f) ==> RowsOf(r, name) == RowsOf(s, name)
  {
    var (s1, ready) := Prepare(s, name, f);
    if !ready then s1
    else
      var (s2, ok) := Reconnect(s1, name, f.stmtFailures, true);
      if ok then s2.(tables := s2.tables[name := s2.tables[name][row.questionId := row]])
      else s2
  }

  /** Whether an upsert under faults `f` reaches the table. */
  predicate Saves(s: Store, f: Faults) {
    (s.isOpen || !f.openFails) && !f.createFails && f.stmtFailures < 2
  }

  /** `getAllAnswers`: the rows ordered by question id, creating the table if
      it is absent; `[]` on any failure. */
  function GetAll(s: Store, name: string, f: Faults): (r: (Store, seq<ExamAnswer>))
    ensures Isolated(s, r.0, name)
    ensures RowsOf(r.0, name) == RowsOf(s, name)
    ensures Saves(s, f) ==> r.1 == Rows(RowsOf(s, name))
    ensures !Saves(s, f) ==> r.1 == []
    ensures (s.isOpen || !f.openFails) && !f.createFails ==> name in r.0.tables
  {
    var (s1, ready) := Prepare(s, name, f);
    if !ready then (s1, [])
    else
      var (s2, ok) := Reconnect(s1, name, f.stmtFailures, true);
      if ok then (s2, Rows(s2.tables[name])) else (s2, [])
  }

  /** `getAnswerByQuestionId`: the row for `questionId`, or nothing when it is
      absent or anything fails. */
  function GetByQuestion(s: Store, name: string, questionId: int, f: Faults): (r: (Store, Option<ExamAnswer>))
    ensures Isolated(s, r.0, name)
    ensures RowsOf(r.0, name) == RowsOf(s, name)
    ensures Saves(s, f) && questionId in RowsOf(s, name) ==> r.1 == Some(RowsOf(s, name)[questionId])
    ensures !Saves(s, f) || questionId !in RowsOf(s, name) ==> r.1 == None
  {
    var (s1, ready) := Prepare(s, name, f);
    if !ready then (s1, None)
    else
      var (s2, ok) := Reconnect(s1, name, f.stmtFailures, true);
      if ok && questionId in s2.tables[name] then (s2, Some(s2.tables[name][questionId]))
      else (s2, None)
  }

  /** `clearAllAnswers`: delete every row but keep the table. The flag is
      false when the operation throws (it rethrows). */
  function Clear(s: Store, name: string, f: Faults): (r: (Store, bool))
    ensures Isolated(s, r.0, name)
    ensures r.1 <==> Saves(s, f)
    ensures r.1 ==> name in r.0.tables && r.0.tables[name] == map[]
    ensures !r.1 ==> RowsOf(r.0, name) == RowsOf(s, name)
  {
    var (s1, ready) := Prepare(s, name, f);
    if !ready then (s1, false)
    else
      var (s2, ok) := Reconnect(s1, name, f.stmtFailures, false);
      if ok then (s2.(tables := s2.tables[name := map[]]), true) else (s2, false)
  }

  /** `dropExamTable`: `DROP TABLE IF EXISTS`, errors swallowed. A closed
      manager first runs `initializeDatabase`, which creates the table. */
  function Drop(s: Store, name: string, f: Faults): (r: Store)
    ensures Isolated(s, r, name)
    ensures Drops(s, f) ==> name !in r.tables && r.isOpen
    ensures !Drops(s, f) ==> RowsOf(r, name) == RowsOf(s, name)
  {
    if !s.isOpen && f.openFails then s
    else if !s.isOpen && f.createFails then s.(isOpen := true)
    else
      var s1 := if s.isOpen then s else Store(EnsureTable(s.tables, name), true);
      var (s2, ok) := Reconnect(s1, name, f.stmtFailures, false);
      if ok then s2.(tables := s2.tables - {name}) else s2
  }

  /** Whether a drop under faults `f` removes the table. */
  predicate Drops(s: Store, f: Faults) {
    (s.isOpen || (!f.openFails && !f.createFails)) && f.stmtFailures < 2
  }

  /** `checkDatabaseExists`: true exactly when the table exists and holds a
      row; false when it is missing and false on any failure. It never
      changes a table. */
  function Exists(s: Store, name: string, f: Faults): (r: (Store, bool))
    ensures r.0.tables == s.tables
    ensures r.1 <==> (s.isOpen || !f.openFails) && f.stmtFailures == 0 && |RowsOf(s, name)| > 0
  {
    if !s.isOpen && f.openFails then (s, false)
    else if f.stmtFailures > 0 then (s.(isOpen := true), false)
    else (s.(isOpen := true), name in s.tables && |s.tables[name]| > 0)
  }

  /** `closeDatabase`: an open connection is closed unless closing throws;
      a closed one stays closed. Tables are untouched. */
  function Close(s: Store, f: Faults): (r: Store)
    ensures r.tables == s.tables
    ensures !s.isOpen ==> !r.isOpen
    ensures s.isOpen ==> (r.isOpen <==> f.stmtFailures > 0)
  {
    if s.isOpen && f.stmtFailures == 0 then s.(isOpen := false) else s
  }

  // ----------------------------------------------------------------- lemmas

  /** Upsert: writing option A and then option B for question q leaves
      exactly one row for q, holding B. */
  lemma UpsertLastWins(s: Store, name: string, a: ExamAnswer, b: ExamAnswer)
    requires a.questionId == b.questionId
    ensures var s2 := Save(Save(s, name, a, NoFaults), name, b, NoFaults);
            var rows := GetAll(s2, name, NoFaults).1;
            b in rows &&
            (forall i :: 0 <= i < |rows| && rows[i].questionId == b.questionId ==> rows[i] == b) &&
            (forall i, j :: 0 <= i < j < |rows| ==> rows[i].questionId != rows[j].questionId)
  {
    var s1 := Save(s, name, a, NoFaults);
    var s2 := Save(s1, name, b, NoFaults);
    SaveStores(s1, name, b);
    ReadsWhatIsStored(s2, name);
    OneRowPerQuestion(RowsOf(s2, name), b);
  }

  lemma SaveStores(s: Store, name: string, row: ExamAnswer)
    ensures RowsOf(Save(s, name, row, NoFaults), name) == RowsOf(s, name)[row.questionId := row]
  {
    assert Saves(s, NoFaults);
  }

  lemma ReadsWhatIsStored(s: Store, name: string)
    ensures GetAll(s, name, NoFaults).1 == Rows(RowsOf(s, name))
  {
    assert Saves(s, NoFaults);
  }

  /** The listing of a table shows a question's row once: its stored row. */
  lemma OneRowPerQuestion(t: Table, b: ExamAnswer)
    requires b.questionId in t && t[b.questionId] == b
    ensures var rows := Rows(t);
            b in rows &&
            (forall i :: 0 <= i < |rows| && rows[i].questionId == b.questionId ==> rows[i] == b) &&
            (forall i, j :: 0 <= i < j < |rows| ==> rows[i].questionId != rows[j].questionId)
  {
  }

  /** A failed write leaves every table as it was (the write is lost, and
      nothing is reported). */
  lemma FailedSaveLosesOnlyTheWrite(s: Store, name: string, row: ExamAnswer, f: Faults)
    requires !Saves(s, f)
    ensures var r := Save(s, name, row, f);
            (forall n :: n in s.tables ==> n in r.tables && r.tables[n] == s.tables[n]) &&
            (forall n :: n in r.tables && n != name ==> n in s.tables)
  {
    var r := Save(s, name, row, f);
    forall n | n in s.tables ensures n in r.tables && r.tables[n] == s.tables[n] {
      if n == name {
        assert RowsOf(r, name) == RowsOf(s, name);
        assert (s.isOpen || !f.openFails) && !f.createFails ==> name in r.tables;
      }
    }
  }

  /** Drop, then verify: after a successful drop the table does not exist,
      so the existence check is false and the fallback clear is skipped;
      reading the answers afterwards recreates an empty table. */
  lemma DropThenVerify(s: Store, name: string)
    ensures var d := Drop(s, name, NoFaults);
            name !in d.tables && d.tables == s.tables - {name} &&
            !Exists(d, name, NoFaults).1 &&
            GetAll(Exists(d, name, NoFaults).0, name, NoFaults).1 == []
  {
    var d := Drop(s, name, NoFaults);
    DropRemoves(s, name);
    MissingTableReadsEmpty(d, name);
  }

  lemma DropRemoves(s: Store, name: string)
    ensures Drop(s, name, NoFaults).tables == s.tables - {name}
  {
    var d := Drop(s, name, NoFaults);
    assert Drops(s, NoFaults);
    assert d.tables.Keys == s.tables.Keys - {name};
  }

  /** A missing table is reported missing, and reading it gives no rows. */
  lemma MissingTableReadsEmpty(d: Store, name: string)
    requires name !in d.tables
    ensures !Exists(d, name, NoFaults).1
    ensures GetAll(Exists(d, name, NoFaults).0, name, NoFaults).1 == []
  {
    var e := Exists(d, name, NoFaults).0;
    assert RowsOf(e, name) == map[];
    assert Saves(e, NoFaults);
  }

  /** Dropping is idempotent (`IF EXISTS`). */
  lemma DropIdempotent(s: Store, name: string)
    ensures Drop(Drop(s, name, NoFaults), name, NoFaults) == Drop(s, name, NoFaults)
  {
  }

  /** When the drop itself fails, the fallback clear still empties the table. */
  lemma FallbackClearEmpties(s: Store, name: string, f: Faults)
    requires !Drops(s, f) && Exists(Drop(s, name, f), name, NoFaults).1
    ensures var c := Clear(Exists(Drop(s, name, f), name, NoFaults).0, name, NoFaults);
            c.1 && Rows(RowsOf(c.0, name)) == []
  {
    var c := Clear(Exists(Drop(s, name, f), name, NoFaults).0, name, NoFaults);
    assert RowsOf(c.0, name) == map[];
  }

  /** Closing twice is the same as closing once. */
  lemma CloseIdempotent(s: Store)
    ensures Close(Close(s, NoFaults), NoFaults) == Close(s, NoFaults)
    ensures !Close(s, NoFaults).isOpen
  {
  }

  // ------------------------------------------------------ the storage engine

  /** The shared database file and the failures scripted for the operations
      that will run against it. */
  class SharedFile {
    var tables: Tables
    var script: seq<Faults>

    constructor(tables: Tables, script: seq<Faults>)
      ensures this.tables == tables && this.script == script
    {
      this.tables := tables;
      this.script := script;
    }

    /** Hand out the failures of the next operation. */
    method NextFaults() returns (f: Faults)
      modifies this
      ensures f == Head(old(script)) && script == Tail(old(script))
      ensures tables == old(tables)
    {
      if script == [] {
        f := NoFaults;
      } else {
        f := script[0];
        script := script[1..];
      }
    }
  }

  /** `DatabaseManager`: one exam's view of the shared file, with a lazily
      opened connection. */
  class DatabaseManager {
    const examId: string
    const file: SharedFile
    var isOpen: bool

    constructor(examId: string, file: SharedFile)
      ensures this.examId == examId && this.file == file && !isOpen
    {
      this.examId := examId;
      this.file := file;
      isOpen := false;
    }

    function Name(): string {
      TableName(examId)
    }

    function State(): Store
      reads this, file
    {
      Store(file.tables, isOpen)
    }

    /** `openDb`: open the connection unless it is open already. */
    method OpenDb(f: Faults) returns (ok: bool)
      modifies this
      ensures ok <==> old(isOpen) || !f.openFails
      ensures isOpen == ok
    {
      if !isOpen {
        if f.openFails {
          return false;
        }
        isOpen := true;
      }
      ok := true;
    }

    /** `ensureExamTable`: open, then `CREATE TABLE IF NOT EXISTS`. */
    method EnsureExamTable(f: Faults) returns (ok: bool)
      modifies this, file
      ensures file.script == old(file.script)
      ensures ok <==> (old(isOpen) || !f.openFails) && !f.createFails
      ensures isOpen == (old(isOpen) || !f.openFails)
      ensures file.tables == if ok then EnsureTable(old(file.tables), Name()) else old(file.tables)
    {
      ok := OpenDb(f);
      if ok {
        if f.createFails {
          ok := false;
        } else {
          file.tables := EnsureTable(file.tables, Name());
        }
      }
    }

    /** The common preamble of the reading and writing operations: run
        `initializeDatabase` when no connection is open, then `ensureExamTable`. */
    method Prepared(f: Faults) returns (ok: bool)
      modifies this, file
      ensures file.script == old(file.script)
      ensures (State(), ok) == Prepare(old(State()), Name(), f)
    {
      ok := true;
      if !isOpen {
        ok := EnsureExamTable(f);
      }
      if ok {
        ok := EnsureExamTable(f);
      }
    }

    /** `withReconnect`: see `Reconnect`. `runs` counts the runs of the
        statement: at most two, and the outcome is a success exactly when
        one of them did not throw. */
    method WithReconnect(failures: nat, recreate: bool) returns (ok: bool, runs: nat)
      modifies this, file
      ensures file.script == old(file.script)
      ensures (State(), ok) == Reconnect(old(State()), Name(), failures, recreate)
      ensures 1 <= runs <= 2 && (runs == 2 <==> failures > 0)
      ensures ok <==> failures < runs
    {
      runs := 1;
      if failures < runs {
        return true, runs;
      }
      isOpen := true;
      if recreate {
        file.tables := EnsureTable(file.tables, Name());
      }
      runs := 2;
      ok := failures < runs;
    }

    method SaveAnswer(questionId: int, questionText: string, selectedOptionId: int,
                      selectedOptionText: string, now: string)
      modifies this, file
      ensures file.script == Tail(old(file.script))
      ensures State() == Save(old(State()), Name(),
                              ExamAnswer(questionId, questionText, selectedOptionId, selectedOptionText, now),
                              Head(old(file.script)))
    {
      var f := file.NextFaults();
      var ready := Prepared(f);
      if ready {
        var ok, _ := WithReconnect(f.stmtFailures, true);
        if ok {
          var row := ExamAnswer(questionId, questionText, selectedOptionId, selectedOptionText, now);
          file.tables := file.tables[Name() := file.tables[Name()][questionId := row]];
        }
      }
    }

    /** `saveAnswerNoThrow`: `saveAnswer` already swallows every error. */
    method SaveAnswerNoThrow(questionId: int, questionText: string, selectedOptionId: int,
                             selectedOptionText: string, now: string)
      modifies this, file
      ensures file.script == Tail(old(file.script))
      ensures State() == Save(old(State()), Name(),
                              ExamAnswer(questionId, questionText, selectedOptionId, selectedOptionText, now),
                              Head(old(file.script)))
    {
      SaveAnswer(questionId, questionText, selectedOptionId, selectedOptionText, now);
    }

    method GetAllAnswers() returns (rows: seq<ExamAnswer>)
      modifies this, file
      ensures file.script == Tail(old(file.script))
      ensures (State(), rows) == GetAll(old(State()), Name(), Head(old(file.script)))
    {
      var f := file.NextFaults();
      var ready := Prepared(f);
      rows := [];
      if ready {
        var ok, _ := WithReconnect(f.stmtFailures, true);
        if ok {
          rows := Rows(file.tables[Name()]);
        }
      }
    }

    method GetAnswerByQuestionId(questionId: int) returns (answer: Option<ExamAnswer>)
      modifies this, file
      ensures file.script == Tail(old(file.script))
      ensures (State(), answer) == GetByQuestion(old(State()), Name(), questionId, Head(old(file.script)))
    {
      var f := file.NextFaults();
      var ready := Prepared(f);
      answer := None;
      if ready {
        var ok, _ := WithReconnect(f.stmtFailures, true);
        if ok && questionId in file.tables[Name()] {
          answer := Some(file.tables[Name()][questionId]);
        }
      }
    }

    /** Returns false where the source rethrows. */
    method ClearAllAnswers() returns (ok: bool)
      modifies this, file
      ensures file.script == Tail(old(file.script))
      ensures (State(), ok) == Clear(old(State()), Name(), Head(old(file.script)))
    {
      var f := file.NextFaults();
      ok := Prepared(f);
      if ok {
        var runs;
        ok, runs := WithReconnect(f.stmtFailures, false);
        if ok {
          file.tables := file.tables[Name() := map[]];
        }
      }
    }

    method DropExamTable()
      modifies this, file
      ensures file.script == Tail(old(file.script))
      ensures State() == Drop(old(State()), Name(), Head(old(file.script)))
    {
      var f := file.NextFaults();
      var ready := true;
      if !isOpen {
        ready := EnsureExamTable(f);
      }
      if ready {
        var ok, _ := WithReconnect(f.stmtFailures, false);
        if ok {
          file.tables := file.tables - {Name()};
        }
      }
    }

    method CheckDatabaseExists() returns (exists_: bool)
      modifies this, file
      ensures file.script == Tail(old(file.script))
      ensures (State(), exists_) == Exists(old(State()), Name(), Head(old(file.script)))
    {
      var f := file.NextFaults();
      var ok := OpenDb(f);
      if !ok {
        return false;
      }
      if f.stmtFailures > 0 {
        return false;
      }
      exists_ := Name() in file.tables && |file.tables[Name()]| > 0;
    }

    method CloseDatabase()
      modifies this, file
      ensures file.script == Tail(old(file.script))
      ensures State() == Close(old(State()), Head(old(file.script)))
    {
      var f := file.NextFaults();
      if isOpen && f.stmtFailures == 0 {
        isOpen := false;
      }
    }
  }
}
