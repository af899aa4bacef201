/**
 * The local habit store of lib/db.ts: one SQLite table `habits` whose rows
 * carry an AUTOINCREMENT primary key. The SQL engine is replaced by its
 * effect on an abstract table (a sequence of rows in rowid order plus the
 * AUTOINCREMENT counter); each statement also receives an `Engine` value
 * saying whether the engine completes it or throws, and a throw leaves the
 * table as it was and is handed back to the caller.
 */
module HabitStore {

  import opened Wrappers
  import SqlText

  // ---------------------------------------------------------------------
  // Rows, columns and SQL values
  // ---------------------------------------------------------------------

  /** A row of `habits`: the `Habit` interface with its id assigned. */
  datatype Habit = Habit(
    id: int,
    title: string,
    description: string,
    frequency: string,
    streakCount: int,
    bestStreak: int,
    totalCount: int,
    lastCompleted: string,
    createdAt: string,
    userId: string,
    appwriteId: Option<string>)

  /**
   * The argument of addHabitLocal, `Omit<Habit, "id">`. The two counts and
   * the remote id may be left undefined (None) by the caller.
   */
  datatype NewHabit = NewHabit(
    title: string,
    description: string,
    frequency: string,
    streakCount: int,
    bestStreak: Option<int>,
    totalCount: Option<int>,
    lastCompleted: string,
    createdAt: string,
    userId: string,
    appwriteId: Option<string>)

  /** The columns an update may assign (every declared column except the key). */
  datatype Column =
    | Title | Description | Frequency | StreakCount | BestStreak | TotalCount
    | LastCompleted | CreatedAt | UserId | AppwriteId

  /** One key of the `Partial<Habit>` handed to updateHabitLocal, with its value. */
  datatype Assignment =
    | SetTitle(title: string)
    | SetDescription(description: string)
    | SetFrequency(frequency: string)
    | SetStreakCount(streakCount: int)
    | SetBestStreak(bestStreak: int)
    | SetTotalCount(totalCount: int)
    | SetLastCompleted(lastCompleted: string)
    | SetCreatedAt(createdAt: string)
    | SetUserId(userId: string)
    | SetAppwriteId(appwriteId: Option<string>)

  /** A value bound to a `?` parameter, or read out of a column. */
  datatype SqlValue = Text(text: string) | Integer(number: int) | Null

  /** A statement handed to the engine together with its parameters. */
  datatype Statement = Statement(sql: string, params: seq<SqlValue>)

  /** What the engine does with a statement: run it, or throw. */
  datatype Engine = Completes | Fails(message: string)

  /** The errors a local operation rethrows. */
  datatype DbError = NoSuchTable | EngineError(message: string)

  function Name(c: Column): string
  {
    match c
    case Title => "title"
    case Description => "description"
    case Frequency => "frequency"
    case StreakCount => "streak_count"
    case BestStreak => "best_streak"
    case TotalCount => "total_count"
    case LastCompleted => "last_completed"
    case CreatedAt => "created_at"
    case UserId => "user_id"
    case AppwriteId => "appwrite_id"
  }

  function ColumnOf(a: Assignment): Column
  {
    match a
    case SetTitle(_) => Title
    case SetDescription(_) => Description
    case SetFrequency(_) => Frequency
    case SetStreakCount(_) => StreakCount
    case SetBestStreak(_) => BestStreak
    case SetTotalCount(_) => TotalCount
    case SetLastCompleted(_) => LastCompleted
    case SetCreatedAt(_) => CreatedAt
    case SetUserId(_) => UserId
    case SetAppwriteId(_) => AppwriteId
  }

  function TextOrNull(s: Option<string>): SqlValue
  {
    if s.Some? then Text(s.value) else Null
  }

  /** The parameter value an assignment binds (the `Object.values` entry). */
  function ValueOf(a: Assignment): SqlValue
  {
    match a
    case SetTitle(s) => Text(s)
    case SetDescription(s) => Text(s)
    case SetFrequency(s) => Text(s)
    case SetStreakCount(n) => Integer(n)
    case SetBestStreak(n) => Integer(n)
    case SetTotalCount(n) => Integer(n)
    case SetLastCompleted(s) => Text(s)
    case SetCreatedAt(s) => Text(s)
    case SetUserId(s) => Text(s)
    case SetAppwriteId(s) => TextOrNull(s)
  }

  /** The value stored in column `c` of row `h`. */
  function Read(h: Habit, c: Column): SqlValue
  {
    match c
    case Title => Text(h.title)
    case Description => Text(h.description)
    case Frequency => Text(h.frequency)
    case StreakCount => Integer(h.streakCount)
    case BestStreak => Integer(h.bestStreak)
    case TotalCount => Integer(h.totalCount)
    case LastCompleted => Text(h.lastCompleted)
    case CreatedAt => Text(h.createdAt)
    case UserId => Text(h.userId)
    case AppwriteId => TextOrNull(h.appwriteId)
  }

  // ---------------------------------------------------------------------
  // Insert
  // ---------------------------------------------------------------------

  /** The columns the INSERT names, in its order. */
  const InsertColumns: seq<Column> :=
    [Title, Description, Frequency, StreakCount, BestStreak, TotalCount,
     LastCompleted, CreatedAt, UserId, AppwriteId]

  function ColumnList(cs: seq<Column>): string
  {
    SqlText.Join(seq(|cs|, i requires 0 <= i < |cs| => Name(cs[i])))
  }

  /**
   * The INSERT text: "INSERT INTO habits (title, ..., appwrite_id) VALUES
   * (?, ?, ?, ?, ?, ?, ?, ?, ?, ?)", assembled from its column list.
   */
  function InsertSql(): string
  {
    "INSERT INTO habits (" + ColumnList(InsertColumns) + ") VALUES (" + Placeholders(|InsertColumns|) + ")"
  }

  /** `n || 0` on a count that may be undefined. */
  function OrZero(n: Option<int>): int
  {
    if n.Some? then n.value else 0
  }

  /** `s || null` on a remote id that may be undefined: undefined and "" are both falsy. */
  function NonEmptyOrNull(s: Option<string>): Option<string>
  {
    if s.Some? && s.value != "" then s else None
  }

  /** The ten parameters addHabitLocal binds, in the INSERT's column order. */
  function InsertParams(h: NewHabit): seq<SqlValue>
  {
    [Text(h.title), Text(h.description), Text(h.frequency),
     Integer(h.streakCount), Integer(OrZero(h.bestStreak)), Integer(OrZero(h.totalCount)),
     Text(h.lastCompleted), Text(h.createdAt), Text(h.userId),
     TextOrNull(NonEmptyOrNull(h.appwriteId))]
  }

  /** The row the INSERT stores under key `id`. */
  function Stored(h: NewHabit, id: int): (r: Habit)
    ensures r.id == id
    ensures r.title == h.title && r.description == h.description && r.frequency == h.frequency
    ensures r.streakCount == h.streakCount
    ensures r.lastCompleted == h.lastCompleted && r.createdAt == h.createdAt && r.userId == h.userId
    ensures h.bestStreak.None? ==> r.bestStreak == 0
    ensures h.bestStreak.Some? ==> r.bestStreak == h.bestStreak.value
    ensures h.totalCount.None? ==> r.totalCount == 0
    ensures h.totalCount.Some? ==> r.totalCount == h.totalCount.value
    ensures r.appwriteId.None? <==> h.appwriteId.None? || h.appwriteId.value == ""
    ensures r.appwriteId.Some? ==> r.appwriteId == h.appwriteId
  {
    Habit(id, h.title, h.description, h.frequency, h.streakCount,
          OrZero(h.bestStreak), OrZero(h.totalCount),
          h.lastCompleted, h.createdAt, h.userId, NonEmptyOrNull(h.appwriteId))
  }

  /** The stored row holds, column by column, exactly the parameters the INSERT binds. */
  lemma StoredMatchesParams(h: NewHabit, id: int)
    ensures |InsertParams(h)| == |InsertColumns|
    ensures forall i :: 0 <= i < |InsertColumns| ==> Read(Stored(h, id), InsertColumns[i]) == InsertParams(h)[i]
  {
  }

  /** Column names hold no `?`, so neither does a list of them. */
  lemma ColumnListUnmarked(cs: seq<Column>)
    ensures SqlText.CountChar('?', ColumnList(cs)) == 0
  {
    var names := seq(|cs|, i requires 0 <= i < |cs| => Name(cs[i]));
    forall i | 0 <= i < |names| ensures '?' !in names[i] {
      NameShape(cs[i]);
    }
    SqlText.JoinAbsent('?', names);
    SqlText.CountCharAbsent('?', ColumnList(cs));
  }

  /** The INSERT has exactly one `?` per bound parameter. */
  lemma InsertBindsEveryParam(h: NewHabit)
    ensures SqlText.CountChar('?', InsertSql()) == |InsertParams(h)|
  {
    var head := "INSERT INTO habits (";
    var cols := ColumnList(InsertColumns);
    var marks := Placeholders(|InsertColumns|);
    ColumnListUnmarked(InsertColumns);
    PlaceholdersMarks(|InsertColumns|);
    InsertHeadMarks();
    ValuesMarks();
    CloseMarks();
    SqlText.CountCharAppend('?', head, cols);
    SqlText.CountCharAppend('?', head + cols, ") VALUES (");
    SqlText.CountCharAppend('?', head + cols + ") VALUES (", marks);
    SqlText.CountCharAppend('?', head + cols + ") VALUES (" + marks, ")");
  }

  // ---------------------------------------------------------------------
  // Ordering: `ORDER BY created_at DESC` and `ORDER BY streak_count DESC`
  // ---------------------------------------------------------------------

  /**
   * `a <= b` in the BINARY collation of a TEXT column: lexicographic by
   * character code, a proper prefix coming first.
   */
  predicate TextLe(a: string, b: string)
    decreases |a|
  {
    |a| == 0 || (|b| > 0 && (a[0] < b[0] || (a[0] == b[0] && TextLe(a[1..], b[1..]))))
  }

  lemma {:induction false} TextLeTotal(a: string, b: string)
    ensures TextLe(a, b) || TextLe(b, a)
    decreases |a|
  {
    if |a| > 0 && |b| > 0 && a[0] == b[0] {
      TextLeTotal(a[1..], b[1..]);
    }
  }

  lemma {:induction false} TextLeTransitive(a: string, b: string, c: string)
    requires TextLe(a, b) && TextLe(b, c)
    ensures TextLe(a, c)
    decreases |a|
  {
    if |a| > 0 && a[0] == b[0] && b[0] == c[0] {
      TextLeTransitive(a[1..], b[1..], c[1..]);
    }
  }

  /** The two orders the reads ask the engine for. */
  datatype Order = NewestFirst | MostStreak

  /** `x` may stand before `y` in the order `o` (both directions hold on a tie). */
  predicate Precedes(o: Order, x: Habit, y: Habit)
  {
    match o
    case NewestFirst => TextLe(y.createdAt, x.createdAt)
    case MostStreak => y.streakCount <= x.streakCount
  }

  lemma PrecedesTotal(o: Order, x: Habit, y: Habit)
    ensures Precedes(o, x, y) || Precedes(o, y, x)
  {
    if o == NewestFirst {
      TextLeTotal(x.createdAt, y.createdAt);
    }
  }

  lemma PrecedesTransitive(o: Order)
    ensures forall x, y, z :: Precedes(o, x, y) && Precedes(o, y, z) ==> Precedes(o, x, z)
  {
    forall x, y, z | Precedes(o, x, y) && Precedes(o, y, z)
      ensures Precedes(o, x, z)
    {
      if o == NewestFirst {
        TextLeTransitive(z.createdAt, y.createdAt, x.createdAt);
      }
    }
  }

  predicate Sorted(o: Order, s: seq<Habit>)
  {
    forall i, j :: 0 <= i < j < |s| ==> Precedes(o, s[i], s[j])
  }

  /** A row that may stand before the head of a sorted sequence may stand before all of it. */
  lemma ConsSorted(o: Order, h: Habit, s: seq<Habit>)
    requires Sorted(o, s) && |s| > 0 && Precedes(o, h, s[0])
    ensures Sorted(o, [h] + s)
  {
    PrecedesTransitive(o);
  }

  /** The head of a sorted sequence may stand before every row of its tail with `h` added. */
  lemma HeadBeforeInserted(o: Order, s: seq<Habit>, h: Habit, t: seq<Habit>)
    requires Sorted(o, s) && |s| > 0 && Precedes(o, s[0], h)
    requires Sorted(o, t) && multiset(t) == multiset(s[1..]) + multiset{h}
    ensures Sorted(o, [s[0]] + t)
  {
    forall j | 0 <= j < |t| ensures Precedes(o, s[0], t[j]) {
      assert t[j] in multiset(t);
      if t[j] != h {
        assert t[j] in s[1..];
        var k :| 0 <= k < |s[1..]| && s[1..][k] == t[j];
        assert s[k + 1] == t[j];
      }
    }
  }

  /** Places `h` in the sorted sequence `s`, ahead of the rows it ties with. */
  function Insert(o: Order, h: Habit, s: seq<Habit>): (r: seq<Habit>)
    requires Sorted(o, s)
    ensures multiset(r) == multiset(s) + multiset{h}
    ensures Sorted(o, r)
  {
    if |s| == 0 then [h]
    else if Precedes(o, h, s[0]) then
      ConsSorted(o, h, s);
      [h] + s
    else
      PrecedesTotal(o, h, s[0]);
      assert s == [s[0]] + s[1..];
      var t := Insert(o, h, s[1..]);
      HeadBeforeInserted(o, s, h, t);
      [s[0]] + t
  }

  /**
   * The rows of `s` in the order `o`. Rows that tie keep their rowid order
   * here; the engine promises no particular order among ties, so nothing
   * below relies on it.
   */
  function SortBy(o: Order, s: seq<Habit>): (r: seq<Habit>)
    ensures multiset(r) == multiset(s)
    ensures Sorted(o, r)
  {
    if |s| == 0 then []
    else
      assert s == [s[0]] + s[1..];
      Insert(o, s[0], SortBy(o, s[1..]))
  }

  /** The default of getTopStreaksLocal's `limit`. */
  const DefaultTopLimit: nat := 3

  /** A prefix of the rows sorted by streak leaves out only rows with no larger streak. */
  lemma SortedPrefixIsTop(sorted: seq<Habit>, rows: seq<Habit>, k: nat)
    requires multiset(sorted) == multiset(rows) && Sorted(MostStreak, sorted)
    requires k <= |sorted|
    ensures multiset(sorted[..k]) <= multiset(rows)
    ensures forall x, y :: x in multiset(rows) - multiset(sorted[..k]) && y in sorted[..k] ==> x.streakCount <= y.streakCount
    ensures IdsDistinct(rows) ==> IdsDistinct(sorted[..k])
  {
    assert sorted == sorted[..k] + sorted[k..];
    assert multiset(sorted) == multiset(sorted[..k]) + multiset(sorted[k..]);
    forall x, y | x in multiset(rows) - multiset(sorted[..k]) && y in sorted[..k]
      ensures x.streakCount <= y.streakCount
    {
      assert x in sorted[k..];
      var p :| k <= p < |sorted| && sorted[p] == x;
      var q :| 0 <= q < k && sorted[q] == y;
      assert Precedes(MostStreak, sorted[q], sorted[p]);
    }
    if IdsDistinct(rows) {
      SubMultisetIdsDistinct(sorted[..k], rows);
    }
  }

  /** `SELECT * FROM habits ORDER BY streak_count DESC LIMIT limit`. */
  function TopStreaks(rows: seq<Habit>, limit: nat): (r: seq<Habit>)
    ensures |r| == if limit < |rows| then limit else |rows|
    ensures multiset(r) <= multiset(rows)
    ensures Sorted(MostStreak, r)
    ensures forall x, y :: x in multiset(rows) - multiset(r) && y in r ==> x.streakCount <= y.streakCount
    ensures IdsDistinct(rows) ==> IdsDistinct(r)
  {
    var sorted := SortBy(MostStreak, rows);
    var k := if limit < |rows| then limit else |rows|;
    SortedPrefixIsTop(sorted, rows, k);
    sorted[..k]
  }

  // ---------------------------------------------------------------------
  // Keys
  // ---------------------------------------------------------------------

  /** No two rows share an id. */
  predicate IdsDistinct(s: seq<Habit>)
  {
    forall i, j :: 0 <= i < |s| && 0 <= j < |s| && s[i].id == s[j].id ==> i == j
  }

  /** Row ids strictly increase: rowid order of an AUTOINCREMENT key. */
  predicate Ascending(s: seq<Habit>)
  {
    forall i, j :: 0 <= i < j < |s| ==> s[i].id < s[j].id
  }

  lemma {:induction false} DistinctIdsAtMostOnce(s: seq<Habit>)
    requires IdsDistinct(s)
    ensures forall x :: multiset(s)[x] <= 1
  {
    if |s| > 0 {
      assert s == [s[0]] + s[1..];
      assert IdsDistinct(s[1..]) by {
        forall i, j | 0 <= i < |s[1..]| && 0 <= j < |s[1..]| && s[1..][i].id == s[1..][j].id
          ensures i == j
        {
          assert s[i + 1].id == s[j + 1].id;
        }
      }
      DistinctIdsAtMostOnce(s[1..]);
      assert s[0] !in s[1..];
    }
  }

  lemma RepeatedTwice(r: seq<Habit>, i: int, j: int)
    ensures 0 <= i < |r| && 0 <= j < |r| && i != j && r[i] == r[j] ==> multiset(r)[r[i]] >= 2
  {
    if 0 <= i < |r| && 0 <= j < |r| && i != j && r[i] == r[j] {
      var hi := if i < j then j else i;
      assert r == r[..hi] + r[hi..];
      assert r[i] in r[..hi] && r[i] in r[hi..];
      assert multiset(r)[r[i]] == multiset(r[..hi])[r[i]] + multiset(r[hi..])[r[i]];
    }
  }

  /** Rows drawn without repetition from a keyed table are keyed too. */
  lemma SubMultisetIdsDistinct(r: seq<Habit>, s: seq<Habit>)
    requires IdsDistinct(s)
    requires multiset(r) <= multiset(s)
    ensures IdsDistinct(r)
  {
    DistinctIdsAtMostOnce(s);
    forall i, j | 0 <= i < |r| && 0 <= j < |r| && r[i].id == r[j].id
      ensures i == j
    {
      if i != j {
        assert r[i] in multiset(s) && r[j] in multiset(s);
        var p :| 0 <= p < |s| && s[p] == r[i];
        var q :| 0 <= q < |s| && s[q] == r[j];
        assert p == q;
        RepeatedTwice(r, i, j);
      }
    }
  }

  // ---------------------------------------------------------------------
  // Update
  // ---------------------------------------------------------------------

  /** The row after one `column = value` assignment. */
  function Apply(h: Habit, a: Assignment): (r: Habit)
    ensures r.id == h.id
    ensures forall c :: Read(r, c) == if c == ColumnOf(a) then ValueOf(a) else Read(h, c)
  {
    match a
    case SetTitle(s) => h.(title := s)
    case SetDescription(s) => h.(description := s)
    case SetFrequency(s) => h.(frequency := s)
    case SetStreakCount(n) => h.(streakCount := n)
    case SetBestStreak(n) => h.(bestStreak := n)
    case SetTotalCount(n) => h.(totalCount := n)
    case SetLastCompleted(s) => h.(lastCompleted := s)
    case SetCreatedAt(s) => h.(createdAt := s)
    case SetUserId(s) => h.(userId := s)
    case SetAppwriteId(s) => h.(appwriteId := s)
  }

  /** The row after every assignment of `patch`, left to right. */
  function ApplyAll(h: Habit, patch: seq<Assignment>): Habit
    decreases |patch|
  {
    if |patch| == 0 then h else ApplyAll(Apply(h, patch[0]), patch[1..])
  }

  /** The value the rightmost assignment to `c` in `patch` binds, if any. */
  function LastFor(patch: seq<Assignment>, c: Column): Option<SqlValue>
  {
    if |patch| == 0 then None
    else
      var later := LastFor(patch[1..], c);
      if later.Some? then later
      else if ColumnOf(patch[0]) == c then Some(ValueOf(patch[0]))
      else None
  }

  /**
   * The value column `c` holds after the patch: the rightmost assignment
   * to it wins (as in SQLite's UPDATE), an unnamed column keeps its value.
   */
  function Patched(h: Habit, patch: seq<Assignment>, c: Column): SqlValue
  {
    var v := LastFor(patch, c);
    if v.Some? then v.value else Read(h, c)
  }

  /** Applying a patch keeps the key and changes exactly the named columns. */
  lemma {:induction false} ApplyAllReads(h: Habit, patch: seq<Assignment>)
    ensures ApplyAll(h, patch).id == h.id
    ensures forall c :: Read(ApplyAll(h, patch), c) == Patched(h, patch, c)
    decreases |patch|
  {
    if |patch| > 0 {
      ApplyAllReads(Apply(h, patch[0]), patch[1..]);
    }
  }

  /** `UPDATE habits SET ... WHERE id = ?` on the rows. */
  function UpdateRows(rows: seq<Habit>, id: int, patch: seq<Assignment>): (r: seq<Habit>)
    ensures |r| == |rows|
    ensures forall i :: 0 <= i < |rows| ==> r[i].id == rows[i].id
    ensures forall i :: 0 <= i < |rows| && rows[i].id != id ==> r[i] == rows[i]
    ensures forall i, c :: 0 <= i < |rows| && rows[i].id == id ==> Read(r[i], c) == Patched(rows[i], patch, c)
    ensures (forall i :: 0 <= i < |rows| ==> rows[i].id != id) ==> r == rows
  {
    if |rows| == 0 then []
    else
      ApplyAllReads(rows[0], patch);
      [if rows[0].id == id then ApplyAll(rows[0], patch) else rows[0]] + UpdateRows(rows[1..], id, patch)
  }

  /** The `field = ?` entries of the SET clause, one per patch key in key order. */
  function Entries(patch: seq<Assignment>): (r: seq<string>)
    ensures |r| == |patch|
  {
    seq(|patch|, i requires 0 <= i < |patch| => Name(ColumnOf(patch[i])) + " = ?")
  }

  /** `fields.map((field) => `${field} = ?`).join(", ")`. */
  function SetClause(patch: seq<Assignment>): string
  {
    SqlText.Join(Entries(patch))
  }

  function UpdateSql(patch: seq<Assignment>): string
  {
    "UPDATE habits SET " + SetClause(patch) + " WHERE id = ?"
  }

  /** `[...values, id]`. */
  function UpdateParams(patch: seq<Assignment>, id: int): (r: seq<SqlValue>)
    ensures |r| == |patch| + 1
  {
    seq(|patch|, i requires 0 <= i < |patch| => ValueOf(patch[i])) + [Integer(id)]
  }

  lemma NameShape(c: Column)
    ensures ',' !in Name(c) && '?' !in Name(c)
  {
    match c {
      case Title =>
      case Description =>
      case Frequency =>
      case StreakCount =>
      case BestStreak =>
      case TotalCount =>
      case LastCompleted =>
      case CreatedAt =>
      case UserId =>
      case AppwriteId =>
    }
  }

  // The fixed text of the statements: where its `?` marks are.

  lemma UpdateHeadMarks()
    ensures SqlText.CountChar('?', "UPDATE habits SET ") == 0
  {
    SqlText.CountCharAbsent('?', "UPDATE habits SET ");
  }

  lemma WhereIdMarks()
    ensures SqlText.CountChar('?', " WHERE id = ?") == 1
  {
    SqlText.CountCharAbsent('?', " WHERE id = ");
    SqlText.CountCharAppend('?', " WHERE id = ", "?");
  }

  lemma DeleteHeadMarks()
    ensures SqlText.CountChar('?', "DELETE FROM habits WHERE id IN (") == 0
  {
    SqlText.CountCharAbsent('?', "DELETE FROM habits WHERE id IN (");
  }

  lemma InsertHeadMarks()
    ensures SqlText.CountChar('?', "INSERT INTO habits (") == 0
  {
    SqlText.CountCharAbsent('?', "INSERT INTO habits (");
  }

  lemma ValuesMarks()
    ensures SqlText.CountChar('?', ") VALUES (") == 0
  {
    SqlText.CountCharAbsent('?', ") VALUES (");
  }

  lemma CloseMarks()
    ensures SqlText.CountChar('?', ")") == 0
  {
  }

  lemma EntryShape(a: Assignment)
    ensures ',' !in Name(ColumnOf(a)) + " = ?"
    ensures SqlText.CountChar('?', Name(ColumnOf(a)) + " = ?") == 1
  {
    NameShape(ColumnOf(a));
    SqlText.CountCharAbsent('?', Name(ColumnOf(a)));
    SqlText.CountCharAppend('?', Name(ColumnOf(a)), " = ?");
  }

  /** Reading the SET clause back at ", " gives one `field = ?` entry per key, in key order. */
  lemma SetClauseEntries(patch: seq<Assignment>)
    requires |patch| > 0
    ensures SqlText.Split(SetClause(patch)) == Entries(patch)
  {
    forall i | 0 <= i < |patch| ensures ',' !in Entries(patch)[i] {
      EntryShape(patch[i]);
    }
    SqlText.SplitJoin(Entries(patch));
  }

  /** The UPDATE statement has exactly one `?` per bound parameter. */
  lemma UpdateBindsEveryParam(patch: seq<Assignment>, id: int)
    ensures SqlText.CountChar('?', UpdateSql(patch)) == |UpdateParams(patch, id)|
  {
    forall i | 0 <= i < |patch| ensures SqlText.CountChar('?', Entries(patch)[i]) == 1 {
      EntryShape(patch[i]);
    }
    SqlText.CountCharJoin('?', Entries(patch));
    UpdateHeadMarks();
    WhereIdMarks();
    SqlText.CountCharAppend('?', "UPDATE habits SET ", SetClause(patch));
    SqlText.CountCharAppend('?', "UPDATE habits SET " + SetClause(patch), " WHERE id = ?");
  }

  // ---------------------------------------------------------------------
  // Delete
  // ---------------------------------------------------------------------

  /** `DELETE FROM habits WHERE id = ?`. */
  function WithoutId(rows: seq<Habit>, id: int): (r: seq<Habit>)
    ensures forall h :: h in r <==> h in rows && h.id != id
    ensures Ascending(rows) ==> Ascending(r)
    ensures (forall i :: 0 <= i < |rows| ==> rows[i].id != id) ==> r == rows
  {
    if |rows| == 0 then []
    else if rows[0].id == id then WithoutId(rows[1..], id)
    else
      assert rows == [rows[0]] + rows[1..];
      [rows[0]] + WithoutId(rows[1..], id)
  }

  /** `DELETE FROM habits WHERE id IN (?, ...)`. */
  function WithoutIds(rows: seq<Habit>, ids: seq<int>): (r: seq<Habit>)
    ensures forall h :: h in r <==> h in rows && h.id !in ids
    ensures Ascending(rows) ==> Ascending(r)
    ensures (forall i :: 0 <= i < |rows| ==> rows[i].id !in ids) ==> r == rows
  {
    if |rows| == 0 then []
    else if rows[0].id in ids then WithoutIds(rows[1..], ids)
    else
      assert rows == [rows[0]] + rows[1..];
      [rows[0]] + WithoutIds(rows[1..], ids)
  }

  /** Deleting one id is deleting the one-element id list. */
  lemma {:induction false} WithoutIdIsWithoutIds(rows: seq<Habit>, id: int)
    ensures WithoutId(rows, id) == WithoutIds(rows, [id])
  {
    if |rows| > 0 {
      WithoutIdIsWithoutIds(rows[1..], id);
    }
  }

  /** A second delete of the same id finds nothing left to remove. */
  lemma WithoutIdIdempotent(rows: seq<Habit>, id: int)
    ensures WithoutId(WithoutId(rows, id), id) == WithoutId(rows, id)
  {
  }

  lemma WithoutIdsIdempotent(rows: seq<Habit>, ids: seq<int>)
    ensures WithoutIds(WithoutIds(rows, ids), ids) == WithoutIds(rows, ids)
  {
  }

  /** `ids.map(() => "?").join(", ")`. */
  function Placeholders(n: nat): string
  {
    SqlText.Join(seq(n, _ => "?"))
  }

  function DeleteManySql(ids: seq<int>): string
  {
    "DELETE FROM habits WHERE id IN (" + Placeholders(|ids|) + ")"
  }

  function DeleteManyParams(ids: seq<int>): (r: seq<SqlValue>)
    ensures |r| == |ids|
  {
    seq(|ids|, i requires 0 <= i < |ids| => Integer(ids[i]))
  }

  /** The placeholder list reads back as exactly `n` separate `?`. */
  lemma PlaceholdersSplit(n: nat)
    requires n > 0
    ensures SqlText.Split(Placeholders(n)) == seq(n, _ => "?")
  {
    SqlText.SplitJoin(seq(n, _ => "?"));
  }

  lemma PlaceholdersMarks(n: nat)
    ensures SqlText.CountChar('?', Placeholders(n)) == n
  {
    var parts := seq(n, _ => "?");
    forall i | 0 <= i < n ensures SqlText.CountChar('?', parts[i]) == 1 {
      assert parts[i] == "?";
    }
    SqlText.CountCharJoin('?', parts);
  }

  /** The bulk DELETE has exactly one `?` per id it binds. */
  lemma DeleteManyBindsEveryId(ids: seq<int>)
    ensures SqlText.CountChar('?', DeleteManySql(ids)) == |DeleteManyParams(ids)|
  {
    PlaceholdersMarks(|ids|);
    DeleteHeadMarks();
    CloseMarks();
    SqlText.CountCharAppend('?', "DELETE FROM habits WHERE id IN (", Placeholders(|ids|));
    SqlText.CountCharAppend('?', "DELETE FROM habits WHERE id IN (" + Placeholders(|ids|), ")");
  }

  // ---------------------------------------------------------------------
  // The table
  // ---------------------------------------------------------------------

  const InitSql: string :=
    "PRAGMA journal_mode = WAL; CREATE TABLE IF NOT EXISTS habits (id INTEGER PRIMARY KEY AUTOINCREMENT, title TEXT NOT NULL, description TEXT, frequency TEXT NOT NULL, streak_count INTEGER DEFAULT 0, best_streak INTEGER DEFAULT 0, total_count INTEGER DEFAULT 0, last_completed TEXT, created_at TEXT NOT NULL, user_id TEXT NOT NULL, appwrite_id TEXT);"

  const SelectAllSql: string := "SELECT * FROM habits ORDER BY created_at DESC"

  const DeleteOneSql: string := "DELETE FROM habits WHERE id = ?"

  function Digits(n: nat): string
  {
    if n < 10 then ["0123456789"[n]] else Digits(n / 10) + ["0123456789"[n % 10]]
  }

  function TopStreaksSql(limit: nat): string
  {
    "SELECT * FROM habits ORDER BY streak_count DESC LIMIT " + Digits(limit)
  }

  /** The `habits` table behind the module-level connection of lib/db.ts. */
  class HabitTable {
    /** Whether CREATE TABLE has run. */
    var tableExists: bool
    /** The rows, in rowid order. */
    var rows: seq<Habit>
    /** The key the next insert receives (AUTOINCREMENT never reuses a key). */
    var nextId: int
    /** Every statement handed to the engine, oldest first. */
    ghost var issued: seq<Statement>

    ghost predicate Valid()
      reads this
    {
      && nextId >= 1
      && Ascending(rows)
      && (forall i :: 0 <= i < |rows| ==> 1 <= rows[i].id < nextId)
      && (!tableExists ==> rows == [])
    }

    /** Why the engine throws on a statement against this table, if it does. */
    function Refusal(engine: Engine): (e: Option<DbError>)
      reads this
    {
      if !tableExists then Some(NoSuchTable)
      else if engine.Fails? then Some(EngineError(engine.message))
      else None
    }

    /** A freshly opened database file with no table yet. */
    constructor ()
      ensures Valid()
      ensures !tableExists && rows == [] && nextId == 1 && issued == []
    {
      tableExists := false;
      rows := [];
      nextId := 1;
      issued := [];
    }

    /** initDB: CREATE TABLE IF NOT EXISTS, so an existing table keeps its rows. */
    method InitDB(engine: Engine) returns (err: Option<DbError>)
      requires Valid()
      modifies this
      ensures Valid()
      ensures err == (if engine.Fails? then Some(EngineError(engine.message)) else None)
      ensures tableExists == (old(tableExists) || err.None?)
      ensures rows == old(rows) && nextId == old(nextId)
      ensures issued == old(issued) + [Statement(InitSql, [])]
    {
      issued := issued + [Statement(InitSql, [])];
      if engine.Fails? {
        return Some(EngineError(engine.message));
      }
      tableExists := true;
      err := None;
    }

    /** addHabitLocal: inserts one row and returns its fresh key. */
    method AddHabitLocal(h: NewHabit, engine: Engine) returns (r: Result<int, DbError>)
      requires Valid()
      modifies this
      ensures Valid()
      ensures tableExists == old(tableExists)
      ensures issued == old(issued) + [Statement(InsertSql(), InsertParams(h))]
      ensures r.Failure? <==> old(Refusal(engine)).Some?
      ensures r.Failure? ==> r.error == old(Refusal(engine)).value && rows == old(rows) && nextId == old(nextId)
      ensures r.Success? ==> && r.value == old(nextId)
                             && (forall i :: 0 <= i < |old(rows)| ==> old(rows)[i].id != r.value)
                             && rows == old(rows) + [Stored(h, r.value)]
                             && nextId == old(nextId) + 1
    {
      issued := issued + [Statement(InsertSql(), InsertParams(h))];
      var refusal := Refusal(engine);
      if refusal.Some? {
        return Failure(refusal.value);
      }
      var id := nextId;
      rows := rows + [Stored(h, id)];
      nextId := nextId + 1;
      r := Success(id);
    }

    /** getHabitsLocal: every row once, newest `created_at` first. */
    method GetHabitsLocal(engine: Engine) returns (r: Result<seq<Habit>, DbError>)
      requires Valid()
      modifies this
      ensures Valid()
      ensures rows == old(rows) && tableExists == old(tableExists) && nextId == old(nextId)
      ensures issued == old(issued) + [Statement(SelectAllSql, [])]
      ensures r.Failure? <==> Refusal(engine).Some?
      ensures r.Failure? ==> r.error == Refusal(engine).value
      ensures r.Success? ==> multiset(r.value) == multiset(rows) && Sorted(NewestFirst, r.value)
    {
      issued := issued + [Statement(SelectAllSql, [])];
      var refusal := Refusal(engine);
      if refusal.Some? {
        return Failure(refusal.value);
      }
      r := Success(SortBy(NewestFirst, rows));
    }

    /** getTopStreaksLocal: the `limit` rows with the largest streaks, largest first. */
    method GetTopStreaksLocal(limit: nat := DefaultTopLimit, engine: Engine) returns (r: Result<seq<Habit>, DbError>)
      requires Valid()
      modifies this
      ensures Valid()
      ensures rows == old(rows) && tableExists == old(tableExists) && nextId == old(nextId)
      ensures issued == old(issued) + [Statement(TopStreaksSql(limit), [])]
      ensures r.Failure? <==> Refusal(engine).Some?
      ensures r.Failure? ==> r.error == Refusal(engine).value
      ensures r.Success? ==> && |r.value| == (if limit < |rows| then limit else |rows|)
                             && multiset(r.value) <= multiset(rows)
                             && IdsDistinct(r.value)
                             && Sorted(MostStreak, r.value)
                             && (forall x, y :: x in multiset(rows) - multiset(r.value) && y in r.value
                                                ==> x.streakCount <= y.streakCount)
    {
      issued := issued + [Statement(TopStreaksSql(limit), [])];
      var refusal := Refusal(engine);
      if refusal.Some? {
        return Failure(refusal.value);
      }
      r := Success(TopStreaks(rows, limit));
    }

    /** updateHabitLocal: an empty patch returns before any statement; a missing id changes nothing. */
    method UpdateHabitLocal(id: int, patch: seq<Assignment>, engine: Engine) returns (err: Option<DbError>)
      requires Valid()
      modifies this
      ensures Valid()
      ensures tableExists == old(tableExists) && nextId == old(nextId)
      ensures |patch| == 0 ==> err.None? && rows == old(rows) && issued == old(issued)
      ensures |patch| > 0 ==> && issued == old(issued) + [Statement(UpdateSql(patch), UpdateParams(patch, id))]
                              && err == old(Refusal(engine))
                              && rows == (if err.None? then UpdateRows(old(rows), id, patch) else old(rows))
    {
      if |patch| == 0 {
        return None;
      }
      issued := issued + [Statement(UpdateSql(patch), UpdateParams(patch, id))];
      err := Refusal(engine);
      if err.None? {
        rows := UpdateRows(rows, id, patch);
      }
    }

    /** deleteHabitLocal: removes the row with key `id`, if there is one. */
    method DeleteHabitLocal(id: int, engine: Engine) returns (err: Option<DbError>)
      requires Valid()
      modifies this
      ensures Valid()
      ensures tableExists == old(tableExists) && nextId == old(nextId)
      ensures issued == old(issued) + [Statement(DeleteOneSql, [Integer(id)])]
      ensures err == old(Refusal(engine))
      ensures rows == (if err.None? then WithoutId(old(rows), id) else old(rows))
    {
      issued := issued + [Statement(DeleteOneSql, [Integer(id)])];
      err := Refusal(engine);
      if err.None? {
        rows := WithoutId(rows, id);
      }
    }

    /** deleteHabitsLocal: an empty list returns before any statement. */
    method DeleteHabitsLocal(ids: seq<int>, engine: Engine) returns (err: Option<DbError>)
      requires Valid()
      modifies this
      ensures Valid()
      ensures tableExists == old(tableExists) && nextId == old(nextId)
      ensures |ids| == 0 ==> err.None? && rows == old(rows) && issued == old(issued)
      ensures |ids| > 0 ==> && issued == old(issued) + [Statement(DeleteManySql(ids), DeleteManyParams(ids))]
                            && err == old(Refusal(engine))
                            && rows == (if err.None? then WithoutIds(old(rows), ids) else old(rows))
    {
      if |ids| == 0 {
        return None;
      }
      issued := issued + [Statement(DeleteManySql(ids), DeleteManyParams(ids))];
      err := Refusal(engine);
      if err.None? {
        rows := WithoutIds(rows, ids);
      }
    }
  }
}
