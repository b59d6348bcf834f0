/** Clients of the store: what callers can conclude from the operations' contracts alone. */
module Scenarios {
  import opened Wrappers
  import opened Blocks
  import opened Schedule
  import opened Resolver
  import opened LocalClock
  import opened ScheduleStore

  /** A wrong code or an invalid block changes nothing; a valid request installs the list and the title. */
  method ReplaceMondayMath()
  {
    var store := new Store(DefaultAdminCode, [ScheduleRecord(1, "Default")], []);
    var math := Block(0, 960, 1005, "Math", None, Medium);

    var denied := store.Replace(ReplaceRequest(Some("Week"), "guess", [math]));
    assert denied == Err(Forbidden);
    assert store.blocks == [] && store.schedules == [ScheduleRecord(1, "Default")];

    var bad := Block(0, 960, 960, "Empty", None, Easy);
    var invalid := store.Replace(ReplaceRequest(None, DefaultAdminCode, [math, bad]));
    assert invalid.Err? && BlockError(1, EndNotAfterStart) in invalid.error.errors;
    assert store.blocks == [];

    assert forall i :: 0 <= i < |[math]| ==> WellFormed([math][i]);
    var ok := store.Replace(ReplaceRequest(Some("Week"), DefaultAdminCode, [math]));
    assert ok.Ok?;
    assert store.schedules == [ScheduleRecord(1, "Week")];
    assert BlocksOf(store.blocks, 1) == [math];
  }

  /** A store whose default schedule holds Monday 16:00-16:45 "Math". */
  method MondayMathStore() returns (store: Store, math: Block)
    ensures fresh(store) && store.Valid()
    ensures math == Block(0, 960, 1005, "Math", None, Medium)
    ensures store.DefaultId() == 1 && DayRows(store.blocks, 1, 0) == [math]
  {
    math := Block(0, 960, 1005, "Math", None, Medium);
    store := new Store(DefaultAdminCode, [ScheduleRecord(1, "Default")], [BlockRow(1, math)]);
    assert [BlockRow(1, math)][1..] == [];
    assert BlocksOf(store.blocks, 1) == [math];
    assert [math][1..] == [];
    assert OnDay([math], 0) == [math];
    assert SortBlocks([math]) == [math];
  }

  /** Midnight of Monday 1970-01-05 in UTC-6, in seconds since the epoch. */
  const MondayMidnight: int := 4 * 24 * 3600 + 6 * 3600

  /** At 16:30 Math is current with 15 minutes left. */
  method TodayDuringMath()
  {
    var store, math := MondayMathStore();
    assert ToLocal(MondayMidnight + 16 * 3600 + 30 * 60, None) == Ok(LocalNow(0, 990));
    assert Resolution([math], 990) == Status(Some(math), Some(15), None);
    var r := store.Today(MondayMidnight + 16 * 3600 + 30 * 60, None);
    assert r == Ok(Status(Some(math), Some(15), None));
  }

  /** At 15:00 Math starts in 60 minutes. */
  method TodayBeforeMath()
  {
    var store, math := MondayMathStore();
    assert ToLocal(MondayMidnight + 15 * 3600, Some(-360)) == Ok(LocalNow(0, 900));
    assert Resolution([math], 900) == Status(None, None, Some(60));
    var r := store.Today(MondayMidnight + 15 * 3600, Some(-360));
    assert r == Ok(Status(None, None, Some(60)));
  }

  /** At 17:00 nothing is current or upcoming; a whole-day offset is refused. */
  method TodayAfterMath()
  {
    var store, math := MondayMathStore();
    assert ToLocal(MondayMidnight + 17 * 3600, None) == Ok(LocalNow(0, 1020));
    assert Resolution([math], 1020) == Idle;
    var r := store.Today(MondayMidnight + 17 * 3600, None);
    assert r == Ok(Idle);
    var far := store.Today(MondayMidnight, Some(1440));
    assert far == Err(OffsetOutOfRange(1440));
  }

  /** Replacing with an empty list leaves the schedule read with no blocks. */
  method ClearSchedule()
  {
    var math := Block(0, 960, 1005, "Math", None, Medium);
    var store := new Store(DefaultAdminCode, [ScheduleRecord(1, "Default")], [BlockRow(1, math)]);
    var cleared := store.Replace(ReplaceRequest(Some(""), DefaultAdminCode, []));
    assert cleared.Ok?;
    var view := store.GetSchedule();
    assert view.blocks == [];
    assert view.title == "Default";
  }
}
