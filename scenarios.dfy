/**
 * Client checks in the manner of a test harness: each method drives the
 * models through a short scenario and asserts what their contracts alone
 * let a caller conclude.
 */
module Scenarios {

  import opened Wrappers
  import opened HabitStore
  import opened AuthScreen
  import opened Timestamps
  import RouteGuard

  /** Midnight UTC on a day of January 2024. */
  function January(day: nat): Instant
  {
    Instant(2024, 1, day, 0, 0, 0, 0)
  }

  /** A habit as the add-habit screen builds it, with every count zero. */
  function Draft(title: string, streak: int, created: string): NewHabit
  {
    NewHabit(title, "", "Daily", streak, Some(0), Some(0), created, created, "user-1", None)
  }

  /** Two distinct rows handed over out of order come back swapped. */
  lemma SortedPair(o: Order, rows: seq<Habit>, t: seq<Habit>)
    requires |rows| == 2 && multiset(t) == multiset(rows) && Sorted(o, t)
    requires rows[0] != rows[1] && !Precedes(o, rows[0], rows[1])
    ensures t == [rows[1], rows[0]]
  {
    assert |t| == 2;
    assert t[0] in multiset(rows) && t[1] in multiset(rows);
    assert rows[0] in multiset(t) && rows[1] in multiset(t);
  }

  method NewestFirstScenario()
  {
    var table := new HabitTable();
    var _ := table.InitDB(Completes);
    var _ := table.AddHabitLocal(Draft("Run", 5, IsoText(January(1))), Completes);
    var _ := table.AddHabitLocal(Draft("Read", 2, IsoText(January(2))), Completes);
    var rows := table.rows;
    var all := table.GetHabitsLocal(Completes);
    NewestFirstIsLatestFirst(rows[0], rows[1], January(1), January(2));
    SortedPair(NewestFirst, rows, all.value);
    assert all.value[0].title == "Read";
  }

  method TopStreaksScenario()
  {
    var table := new HabitTable();
    var _ := table.InitDB(Completes);
    var _ := table.AddHabitLocal(Draft("Run", 5, "2024-01-01T00:00:00.000Z"), Completes);
    var _ := table.AddHabitLocal(Draft("Read", 2, "2024-01-02T00:00:00.000Z"), Completes);
    var _ := table.AddHabitLocal(Draft("Swim", 9, "2024-01-03T00:00:00.000Z"), Completes);
    var rows := table.rows;
    var top := table.GetTopStreaksLocal(engine := Completes);
    var t := top.value;
    assert |t| == 3;
    assert t[0] in multiset(rows) && t[1] in multiset(rows) && t[2] in multiset(rows);
    assert rows[0].id == 1 && rows[1].id == 2 && rows[2].id == 3;
    assert t[0].id != t[1].id && t[1].id != t[2].id && t[0].id != t[2].id;
    assert t[0].streakCount == 9 && t[1].streakCount == 5 && t[2].streakCount == 2;
  }

  method NoTableYet()
  {
    var table := new HabitTable();
    var err := table.DeleteHabitLocal(1, Completes);
    assert err == Some(NoSuchTable);
    var r := table.AddHabitLocal(Draft("Run", 5, "2024-01-01T00:00:00.000Z"), Completes);
    assert r == Failure(NoSuchTable) && table.rows == [];
  }

  method DeleteTwice()
  {
    var table := new HabitTable();
    var _ := table.InitDB(Completes);
    var a := table.AddHabitLocal(Draft("Run", 5, "2024-01-01T00:00:00.000Z"), Completes);
    var b := table.AddHabitLocal(Draft("Read", 2, "2024-01-02T00:00:00.000Z"), Completes);
    assert a == Success(1) && b == Success(2);
    var _ := table.DeleteHabitLocal(1, Completes);
    var once := table.rows;
    assert |once| == 1 && once[0].title == "Read";
    var _ := table.DeleteHabitLocal(1, Completes);
    assert table.rows == once;
  }

  method EarlyReturns()
  {
    var table := new HabitTable();
    var _ := table.InitDB(Completes);
    var _ := table.AddHabitLocal(Draft("Run", 5, "2024-01-01T00:00:00.000Z"), Completes);
    var rows, issued := table.rows, table.issued;
    var err := table.UpdateHabitLocal(1, [], Fails("disk I/O error"));
    assert err == None && table.rows == rows && table.issued == issued;
    err := table.DeleteHabitsLocal([], Fails("disk I/O error"));
    assert err == None && table.rows == rows && table.issued == issued;
    err := table.UpdateHabitLocal(7, [SetStreakCount(4)], Completes);
    assert err == None && table.rows == rows;
    err := table.DeleteHabitsLocal([1], Fails("disk I/O error"));
    assert err == Some(EngineError("disk I/O error")) && table.rows == rows;
  }

  method SignInScenario()
  {
    var form := new AuthForm();
    form.email := "user@example.com";
    form.password := "123456";
    assert MatchesAt("user@example.com", 4, 12);
    form.HandleAuth(Replied(None));
    assert form.routes == [RouteGuard.HomeRoute] && |form.calls| == 1 && form.calls[0].loading;
    assert !form.loading && form.error == None;
    form.ToggleMode();
    form.HandleAuth(Threw);
    assert form.error == Some(FillAllFields) && form.routes == [RouteGuard.HomeRoute] && |form.calls| == 1;
  }

  method SignUpScenario()
  {
    var form := new AuthForm();
    form.ToggleMode();
    form.email := "user@example.com";
    form.password := "123456";
    assert MatchesAt("user@example.com", 4, 12);
    form.HandleAuth(Replied(Some("A user with the same id, email, or phone already exists")));
    assert form.error == Some("A user with the same id, email, or phone already exists");
    assert !form.loading && form.routes == [];
    form.HandleAuth(Threw);
    assert form.error == Some(AuthFailed) && !form.loading && form.routes == [];
  }
}
