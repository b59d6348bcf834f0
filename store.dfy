/**
 * The schedule store behind the HTTP handlers: a table of schedules, a
 * table of block rows, the shared admin code, and the three operations
 * that touch them: the ordered read of the default schedule, replace-all
 * of its blocks, and the "today" query.
 *
 * The default schedule is the one with the smallest id; the schedules
 * table keeps ids in ascending order, so it is the first record.
 */
module ScheduleStore {
  import opened Wrappers
  import opened Blocks
  import opened Schedule
  import opened Resolver
  import opened LocalClock

  datatype ScheduleRecord = ScheduleRecord(id: int, title: string)

  /** The response of the schedule read. */
  datatype ScheduleView = ScheduleView(scheduleId: int, title: string, blocks: seq<Block>)

  datatype ReplaceRequest = ReplaceRequest(title: Option<string>, adminCode: string, blocks: seq<Block>)

  datatype ReplaceError = Invalid(errors: set<BlockError>) | Forbidden

  /** The admin code used when none is configured. */
  const DefaultAdminCode: string := "change-me"

  /** A plain comparison against the configured code. */
  predicate IsAdmin(code: string, adminCode: string)
  {
    code == adminCode
  }

  /** The title after a replace: a given, non-empty title replaces the old one. */
  function NewTitle(current: string, requested: Option<string>): (t: string)
    ensures t == current || requested == Some(t)
  {
    if requested.Some? && requested.value != "" then requested.value else current
  }

  /** The title changes exactly when a non-empty title different from the old one is given. */
  lemma TitleChangesIffGiven(current: string, requested: Option<string>)
    ensures NewTitle(current, requested) != current <==>
              requested.Some? && requested.value != "" && requested.value != current
    ensures requested.None? || requested == Some("") ==> NewTitle(current, requested) == current
  {
  }

  ghost predicate AscendingIds(ss: seq<ScheduleRecord>)
  {
    forall i, j :: 0 <= i < j < |ss| ==> ss[i].id < ss[j].id
  }

  ghost predicate AllWellFormed(rows: seq<BlockRow>)
  {
    forall i :: 0 <= i < |rows| ==> WellFormed(rows[i].block)
  }

  class Store {
    const adminCode: string
    var schedules: seq<ScheduleRecord>
    var blocks: seq<BlockRow>

    /** There is a default schedule, ids ascend, and every stored block passed validation. */
    ghost predicate Valid()
      reads this
    {
      |schedules| > 0 && AscendingIds(schedules) && AllWellFormed(blocks)
    }

    /** The id of the default schedule: the smallest one. */
    function DefaultId(): (sid: int)
      reads this
      requires Valid()
      ensures forall s :: s in schedules ==> sid <= s.id
      ensures ScheduleRecord(sid, schedules[0].title) in schedules
    {
      schedules[0].id
    }

    constructor (code: string, initialSchedules: seq<ScheduleRecord>, initialBlocks: seq<BlockRow>)
      requires |initialSchedules| > 0 && AscendingIds(initialSchedules) && AllWellFormed(initialBlocks)
      ensures Valid()
      ensures adminCode == code && schedules == initialSchedules && blocks == initialBlocks
    {
      adminCode := code;
      schedules := initialSchedules;
      blocks := initialBlocks;
    }

    /** The default schedule with its blocks ordered by weekday, then start minute. */
    method GetSchedule() returns (view: ScheduleView)
      requires Valid()
      ensures view.scheduleId == DefaultId() && view.title == schedules[0].title
      ensures view.blocks == ScheduleBlocks(blocks, DefaultId())
      ensures Sorted(view.blocks)
      ensures multiset(view.blocks) == multiset(BlocksOf(blocks, DefaultId()))
      ensures forall b :: b in view.blocks <==> BlockRow(DefaultId(), b) in blocks
    {
      var sid := schedules[0].id;
      ScheduleBlocksExact(blocks, sid);
      view := ScheduleView(sid, schedules[0].title, ScheduleBlocks(blocks, sid));
    }

    /**
     * Replace-all of the default schedule. The blocks are validated first,
     * then the admin code is checked; only then is the title updated (when
     * a non-empty one is given), the schedule's rows deleted and the new
     * list inserted.
     */
    method Replace(req: ReplaceRequest) returns (r: Result<(), ReplaceError>)
      requires Valid()
      modifies this
      ensures Valid()
      ensures ValidateBlocks(req.blocks).Err? ==>
                r == Err(Invalid(ValidateBlocks(req.blocks).error)) && unchanged(this)
      ensures ValidateBlocks(req.blocks).Ok? && !IsAdmin(req.adminCode, adminCode) ==>
                r == Err(Forbidden) && unchanged(this)
      ensures r.Ok? <==> ValidateBlocks(req.blocks).Ok? && IsAdmin(req.adminCode, adminCode)
      ensures r.Ok? ==>
                schedules == old(schedules)[0 := ScheduleRecord(old(schedules[0].id), NewTitle(old(schedules[0].title), req.title))] &&
                blocks == ReplaceRows(old(blocks), old(schedules[0].id), req.blocks)
      ensures r.Ok? ==> BlocksOf(blocks, DefaultId()) == req.blocks
      ensures r.Ok? ==> forall id :: id != DefaultId() ==> BlocksOf(blocks, id) == BlocksOf(old(blocks), id)
    {
      var checked := ValidateBlocks(req.blocks);
      if checked.Err? {
        return Err(Invalid(checked.error));
      }
      if !IsAdmin(req.adminCode, adminCode) {
        return Err(Forbidden);
      }
      var sid := schedules[0].id;
      ghost var before := blocks;
      schedules := schedules[0 := ScheduleRecord(sid, NewTitle(schedules[0].title, req.title))];
      blocks := ReplaceRows(blocks, sid, req.blocks);
      forall id ensures BlocksOf(blocks, sid) == req.blocks && (id != sid ==> BlocksOf(blocks, id) == BlocksOf(before, id)) {
        ReplaceRowsExact(before, sid, req.blocks, id);
      }
      forall i | 0 <= i < |blocks| ensures WellFormed(blocks[i].block) {
        var row := blocks[i];
        assert row in Without(before, sid) + Tag(sid, req.blocks);
        if row !in Without(before, sid) {
          var k :| 0 <= k < |req.blocks| && Tag(sid, req.blocks)[k] == row;
        } else {
          var k :| 0 <= k < |before| && before[k] == row;
        }
      }
      r := Ok(());
    }

    /**
     * What is happening now on the default schedule: the day's blocks are
     * read in ascending start order and scanned at the local minute.
     */
    method Today(utcSeconds: int, offset: Option<int>) returns (r: Result<Status, ClockError>)
      requires Valid()
      ensures ToLocal(utcSeconds, offset).Err? ==> r == Err(ToLocal(utcSeconds, offset).error)
      ensures ToLocal(utcSeconds, offset).Ok? ==> r.Ok?
      ensures r.Ok? ==>
                var now := ToLocal(utcSeconds, offset).value;
                r.value == Resolution(DayRows(blocks, DefaultId(), now.weekday), now.minuteOfDay) &&
                Reports(r.value, OnDay(BlocksOf(blocks, DefaultId()), now.weekday), now.minuteOfDay)
    {
      var sid := schedules[0].id;
      var clock := ToLocal(utcSeconds, offset);
      if clock.Err? {
        return Err(clock.error);
      }
      var now := clock.value;
      var rows := DayRows(blocks, sid, now.weekday);
      var st := Resolve(rows, now.minuteOfDay);
      DayRowsExact(blocks, sid, now.weekday);
      ResolutionReports(rows, now.minuteOfDay);
      ReportsSameBlocks(st, rows, OnDay(BlocksOf(blocks, sid), now.weekday), now.minuteOfDay);
      r := Ok(st);
    }
  }
}
