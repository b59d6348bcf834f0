/**
 * The block table of the store and the queries run against it.
 *
 * The table is a sequence of rows in insertion order, each row tagged with
 * the id of the schedule it belongs to. A query's ORDER BY is modelled by a
 * stable insertion sort on (day_of_week, start_min): rows with equal keys
 * keep their insertion order.
 */
module Schedule {
  import opened Blocks

  datatype BlockRow = BlockRow(scheduleId: int, block: Block)

  /** The ordering of the ordered read: by weekday, then by start minute. */
  predicate KeyLe(a: Block, b: Block)
  {
    a.dayOfWeek < b.dayOfWeek || (a.dayOfWeek == b.dayOfWeek && a.startMin <= b.startMin)
  }

  ghost predicate Sorted(s: seq<Block>)
  {
    forall i, j :: 0 <= i < j < |s| ==> KeyLe(s[i], s[j])
  }

  /** Ascending start minute, the order of a single day's rows. */
  ghost predicate SortedByStart(s: seq<Block>)
  {
    forall i, j :: 0 <= i < j < |s| ==> s[i].startMin <= s[j].startMin
  }

  /** Places b before the first element whose key is not smaller than b's. */
  function Insert(b: Block, s: seq<Block>): (r: seq<Block>)
    ensures multiset(r) == multiset(s) + multiset{b}
  {
    if s == [] || KeyLe(b, s[0]) then [b] + s
    else
      assert s == [s[0]] + s[1..];
      [s[0]] + Insert(b, s[1..])
  }

  /** Inserting into an ordered list keeps it ordered. */
  lemma {:induction false} InsertSorted(b: Block, s: seq<Block>)
    requires Sorted(s)
    ensures Sorted(Insert(b, s))
    decreases |s|
  {
    if s != [] && !KeyLe(b, s[0]) {
      var rest := Insert(b, s[1..]);
      InsertSorted(b, s[1..]);
      forall x | x in rest ensures KeyLe(s[0], x) {
        assert multiset(rest)[x] > 0;
        assert x == b || x in s[1..];
      }
      var r := [s[0]] + rest;
      assert Insert(b, s) == r;
      forall i, j | 0 <= i < j < |r| ensures KeyLe(r[i], r[j]) {
        if i == 0 {
          assert r[j] in rest;
        } else {
          assert r[i] == rest[i - 1] && r[j] == rest[j - 1];
        }
      }
    }
  }

  /** The rows in ascending (day_of_week, start_min) order. */
  function SortBlocks(s: seq<Block>): (r: seq<Block>)
    ensures Sorted(r)
    ensures multiset(r) == multiset(s)
  {
    if s == [] then []
    else
      assert s == [s[0]] + s[1..];
      InsertSorted(s[0], SortBlocks(s[1..]));
      Insert(s[0], SortBlocks(s[1..]))
  }

  /** The blocks of one schedule, in insertion order. */
  function BlocksOf(rows: seq<BlockRow>, sid: int): (r: seq<Block>)
    ensures forall b :: b in r <==> BlockRow(sid, b) in rows
  {
    if rows == [] then []
    else
      var rest := BlocksOf(rows[1..], sid);
      assert rows == [rows[0]] + rows[1..];
      if rows[0].scheduleId == sid then [rows[0].block] + rest else rest
  }

  /** The rows of all schedules other than sid: what is left after deleting its blocks. */
  function Without(rows: seq<BlockRow>, sid: int): (r: seq<BlockRow>)
    ensures forall row :: row in r <==> row in rows && row.scheduleId != sid
  {
    if rows == [] then []
    else
      var rest := Without(rows[1..], sid);
      assert rows == [rows[0]] + rows[1..];
      if rows[0].scheduleId == sid then rest else [rows[0]] + rest
  }

  /** The rows inserted for a list of blocks of schedule sid. */
  function Tag(sid: int, bs: seq<Block>): (r: seq<BlockRow>)
    ensures |r| == |bs|
    ensures forall i :: 0 <= i < |bs| ==> r[i] == BlockRow(sid, bs[i])
  {
    seq(|bs|, i requires 0 <= i < |bs| => BlockRow(sid, bs[i]))
  }

  /** The blocks of one weekday, in the order given. */
  function OnDay(bs: seq<Block>, dow: int): (r: seq<Block>)
    ensures forall b :: b in r <==> b in bs && b.dayOfWeek == dow
  {
    if bs == [] then []
    else
      var rest := OnDay(bs[1..], dow);
      assert bs == [bs[0]] + bs[1..];
      if bs[0].dayOfWeek == dow then [bs[0]] + rest else rest
  }

  /** The ordered read of the whole schedule. */
  function ScheduleBlocks(rows: seq<BlockRow>, sid: int): (bs: seq<Block>)
  {
    SortBlocks(BlocksOf(rows, sid))
  }

  /** The ordered read of one weekday of a schedule. */
  function DayRows(rows: seq<BlockRow>, sid: int, dow: int): (bs: seq<Block>)
  {
    SortBlocks(OnDay(BlocksOf(rows, sid), dow))
  }

  /** The schedule read lists exactly the schedule's blocks, as many times as they are stored, in order. */
  lemma ScheduleBlocksExact(rows: seq<BlockRow>, sid: int)
    ensures Sorted(ScheduleBlocks(rows, sid))
    ensures multiset(ScheduleBlocks(rows, sid)) == multiset(BlocksOf(rows, sid))
    ensures forall b :: b in ScheduleBlocks(rows, sid) <==> BlockRow(sid, b) in rows
  {
    var r := ScheduleBlocks(rows, sid);
    forall b ensures b in r <==> b in BlocksOf(rows, sid) {
      assert b in r <==> multiset(r)[b] > 0;
    }
  }

  /** The rows of one weekday are that day's blocks of the schedule, in ascending start order. */
  lemma DayRowsExact(rows: seq<BlockRow>, sid: int, dow: int)
    ensures SortedByStart(DayRows(rows, sid, dow))
    ensures forall b :: b in DayRows(rows, sid, dow) <==> BlockRow(sid, b) in rows && b.dayOfWeek == dow
  {
    var r := DayRows(rows, sid, dow);
    var d := OnDay(BlocksOf(rows, sid), dow);
    forall b ensures b in r <==> b in d {
      assert b in r <==> multiset(r)[b] > 0;
    }
    forall i, j | 0 <= i < j < |r| ensures r[i].startMin <= r[j].startMin {
      assert r[i] in d && r[j] in d;
      assert KeyLe(r[i], r[j]);
    }
  }

  /** BlocksOf reads concatenated tables part by part. */
  lemma {:induction false} BlocksOfAppend(a: seq<BlockRow>, b: seq<BlockRow>, sid: int)
    ensures BlocksOf(a + b, sid) == BlocksOf(a, sid) + BlocksOf(b, sid)
    decreases |a|
  {
    if a == [] {
      assert a + b == b;
    } else {
      assert (a + b)[1..] == a[1..] + b;
      BlocksOfAppend(a[1..], b, sid);
      if a[0].scheduleId == sid {
        assert BlocksOf(a + b, sid) == [a[0].block] + BlocksOf(a[1..] + b, sid);
      } else {
        assert BlocksOf(a + b, sid) == BlocksOf(a[1..] + b, sid);
      }
    }
  }

  /** Deleting the blocks of sid leaves it none and leaves every other schedule as it was. */
  lemma {:induction false} BlocksOfWithout(rows: seq<BlockRow>, sid: int, other: int)
    ensures BlocksOf(Without(rows, sid), sid) == []
    ensures other != sid ==> BlocksOf(Without(rows, sid), other) == BlocksOf(rows, other)
    decreases |rows|
  {
    if rows != [] {
      BlocksOfWithout(rows[1..], sid, other);
      if rows[0].scheduleId != sid {
        assert Without(rows, sid) == [rows[0]] + Without(rows[1..], sid);
        assert ([rows[0]] + Without(rows[1..], sid))[1..] == Without(rows[1..], sid);
      }
    }
  }

  /** The inserted rows give back exactly the submitted list for sid, and nothing for any other schedule. */
  lemma {:induction false} BlocksOfTag(sid: int, bs: seq<Block>, other: int)
    ensures BlocksOf(Tag(sid, bs), sid) == bs
    ensures other != sid ==> BlocksOf(Tag(sid, bs), other) == []
    decreases |bs|
  {
    if bs != [] {
      assert Tag(sid, bs)[1..] == Tag(sid, bs[1..]);
      BlocksOfTag(sid, bs[1..], other);
    }
  }

  /** Replace-all: delete the schedule's rows, then append the new list. */
  function ReplaceRows(rows: seq<BlockRow>, sid: int, bs: seq<Block>): (table: seq<BlockRow>)
  {
    Without(rows, sid) + Tag(sid, bs)
  }

  /** After replace-all the schedule holds exactly the new list, and every other schedule keeps its blocks. */
  lemma ReplaceRowsExact(rows: seq<BlockRow>, sid: int, bs: seq<Block>, other: int)
    ensures BlocksOf(ReplaceRows(rows, sid, bs), sid) == bs
    ensures other != sid ==> BlocksOf(ReplaceRows(rows, sid, bs), other) == BlocksOf(rows, other)
  {
    BlocksOfAppend(Without(rows, sid), Tag(sid, bs), sid);
    BlocksOfAppend(Without(rows, sid), Tag(sid, bs), other);
    BlocksOfWithout(rows, sid, other);
    BlocksOfTag(sid, bs, other);
  }
}
