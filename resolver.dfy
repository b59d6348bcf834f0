/**
 * The temporal resolver behind the "today" query.
 *
 * Given the blocks of one weekday (ascending start order) and the local
 * minute of the day, one scan reports the current block with the minutes
 * left in it, or else the minutes until the next block starts, or nothing.
 * Start is inclusive and end exclusive.
 */
module Resolver {
  import opened Wrappers
  import opened Blocks
  import opened Schedule

  /** The three optional fields of the "today" response. */
  datatype Status = Status(current: Option<Block>, minutesLeft: Option<int>, nextBlockStartsIn: Option<int>)

  const Idle: Status := Status(None, None, None)

  predicate IsCurrent(b: Block, now: int) { b.startMin <= now < b.endMin }

  predicate StartsLater(b: Block, now: int) { b.startMin > now }

  /** The position of the first block with property p, if any. */
  function FirstWhere(rows: seq<Block>, p: Block -> bool): (r: Option<nat>)
    ensures r.Some? ==> r.value < |rows| && p(rows[r.value]) &&
                        forall k :: 0 <= k < r.value ==> !p(rows[k])
    ensures r.None? ==> forall k :: 0 <= k < |rows| ==> !p(rows[k])
  {
    if rows == [] then None
    else if p(rows[0]) then Some(0)
    else match FirstWhere(rows[1..], p)
         case None => None
         case Some(i) => Some(i + 1)
  }

  /**
   * What the scan reports: the first current block in list order, or else
   * the first block in list order that starts later, or else nothing.
   */
  function Resolution(rows: seq<Block>, now: int): (r: Status)
    ensures !(r.current.Some? && r.nextBlockStartsIn.Some?)
    ensures r.current.Some? <==> r.minutesLeft.Some?
    ensures r.current.Some? ==> 1 <= r.minutesLeft.value <= r.current.value.endMin - r.current.value.startMin
    ensures r.nextBlockStartsIn.Some? ==> r.nextBlockStartsIn.value > 0
    ensures rows == [] ==> r == Idle
  {
    match FirstWhere(rows, b => IsCurrent(b, now))
    case Some(i) => Status(Some(rows[i]), Some(rows[i].endMin - now), None)
    case None =>
      match FirstWhere(rows, b => StartsLater(b, now))
      case Some(j) => Status(None, None, Some(rows[j].startMin - now))
      case None => Idle
  }

  /** The scan of the "today" handler: stops at the first current block, remembers the first later one. */
  method Resolve(rows: seq<Block>, now: int) returns (st: Status)
    ensures st == Resolution(rows, now)
  {
    var currentRow: Option<Block> := None;
    var nextRow: Option<Block> := None;
    ghost var currentAt: nat := 0;
    ghost var nextAt: nat := 0;
    for i := 0 to |rows|
      invariant currentRow.None?
      invariant forall k :: 0 <= k < i ==> !IsCurrent(rows[k], now)
      invariant nextRow.None? ==> forall k :: 0 <= k < i ==> !StartsLater(rows[k], now)
      invariant nextRow.Some? ==>
                  (nextAt < i && nextRow.value == rows[nextAt] && StartsLater(rows[nextAt], now) &&
                   forall k :: 0 <= k < nextAt ==> !StartsLater(rows[k], now))
    {
      var r := rows[i];
      if r.startMin <= now < r.endMin {
        currentRow := Some(r);
        currentAt := i;
        break;
      }
      if r.startMin > now && nextRow.None? {
        nextRow := Some(r);
        nextAt := i;
      }
    }
    if currentRow.Some? {
      var c := currentRow.value;
      assert c == rows[currentAt] && IsCurrent(c, now);
      st := Status(Some(c), Some(c.endMin - now), None);
    } else if nextRow.Some? {
      st := Status(None, None, Some(nextRow.value.startMin - now));
    } else {
      st := Idle;
    }
  }

  /**
   * What the response says about the day's blocks, independent of their order:
   * the current block is live now and no live block starts before it; with no
   * current block, none is live and the wait is to the earliest later start.
   */
  ghost predicate Reports(st: Status, day: seq<Block>, now: int)
  {
    (st.current.Some? ==>
       st.current.value in day && IsCurrent(st.current.value, now) &&
       st.minutesLeft == Some(st.current.value.endMin - now) &&
       st.nextBlockStartsIn.None? &&
       forall c :: c in day && IsCurrent(c, now) ==> st.current.value.startMin <= c.startMin) &&
    (st.current.None? ==>
       st.minutesLeft.None? &&
       (forall c :: c in day ==> !IsCurrent(c, now)) &&
       (st.nextBlockStartsIn.None? ==> forall c :: c in day ==> c.startMin <= now) &&
       (st.nextBlockStartsIn.Some? ==>
          (exists c :: c in day && c.startMin - now == st.nextBlockStartsIn.value) &&
          forall c :: c in day && StartsLater(c, now) ==> st.nextBlockStartsIn.value <= c.startMin - now))
  }

  /** On a day in ascending start order the scan reports the current block, else the earliest later one. */
  lemma ResolutionReports(rows: seq<Block>, now: int)
    requires SortedByStart(rows)
    ensures Reports(Resolution(rows, now), rows, now)
  {
    var st := Resolution(rows, now);
    match FirstWhere(rows, b => IsCurrent(b, now))
    case Some(i) =>
      forall c | c in rows && IsCurrent(c, now) ensures rows[i].startMin <= c.startMin {
        var k :| 0 <= k < |rows| && rows[k] == c;
      }
    case None =>
      match FirstWhere(rows, b => StartsLater(b, now))
      case Some(j) =>
        forall c | c in rows && StartsLater(c, now) ensures rows[j].startMin <= c.startMin {
          var k :| 0 <= k < |rows| && rows[k] == c;
        }
      case None =>
  }

  /** Reports depends only on which blocks the day holds. */
  lemma ReportsSameBlocks(st: Status, a: seq<Block>, b: seq<Block>, now: int)
    requires forall x :: x in a <==> x in b
    requires Reports(st, a, now)
    ensures Reports(st, b, now)
  {
    if st.current.None? && st.nextBlockStartsIn.Some? {
      var c :| c in a && c.startMin - now == st.nextBlockStartsIn.value;
      assert c in b;
    }
  }

  /** A block is live from its start minute up to, not including, its end minute; then the next block is upcoming. */
  lemma StartInclusiveEndExclusive()
    ensures var first := Block(0, 600, 645, "Math", None, Medium);
            var second := Block(0, 700, 760, "Reading", None, Hard);
            Resolution([first, second], 600) == Status(Some(first), Some(45), None) &&
            Resolution([first, second], 644) == Status(Some(first), Some(1), None) &&
            Resolution([first, second], 645) == Status(None, None, Some(55)) &&
            Resolution([first, second], 760) == Idle
  {
  }
}
