/**
 * Time blocks of a schedule and the request validation that guards them.
 *
 * A block is a titled interval of local time on one weekday
 * (0 = Monday ... 6 = Sunday), in minutes from local midnight.
 * Validation follows the field constraints of the request model:
 * each field is checked on its own, and the "end after start" rule is
 * only checked when both minute fields passed their own range checks.
 */
module Blocks {
  import opened Wrappers

  datatype Difficulty = Easy | Medium | Hard

  datatype Block = Block(
    dayOfWeek: int,
    startMin: int,
    endMin: int,
    title: string,
    color: Option<string>,
    difficulty: Difficulty)

  /** Minutes in a day: the bound of the minute range checks. */
  const MinutesPerDay: int := 24 * 60

  datatype Field = DayOfWeek | StartMin | EndMin

  datatype FieldError = OutOfRange(field: Field) | EndNotAfterStart

  predicate DayInRange(b: Block) { 0 <= b.dayOfWeek <= 6 }
  predicate StartInRange(b: Block) { 0 <= b.startMin <= MinutesPerDay - 1 }
  predicate EndInRange(b: Block) { 1 <= b.endMin <= MinutesPerDay }

  /** A block the request model accepts. */
  predicate WellFormed(b: Block)
  {
    0 <= b.dayOfWeek <= 6 &&
    0 <= b.startMin <= 1439 &&
    1 <= b.endMin <= 1440 &&
    b.endMin > b.startMin
  }

  /** The validation errors reported for one block, in field order. */
  function FieldErrors(b: Block): (errs: seq<FieldError>)
    ensures errs == [] <==> WellFormed(b)
    ensures OutOfRange(DayOfWeek) in errs <==> !DayInRange(b)
    ensures OutOfRange(StartMin) in errs <==> !StartInRange(b)
    ensures OutOfRange(EndMin) in errs <==> !EndInRange(b)
    ensures EndNotAfterStart in errs <==>
              StartInRange(b) && EndInRange(b) && b.endMin <= b.startMin
  {
    (if DayInRange(b) then [] else [OutOfRange(DayOfWeek)]) +
    (if StartInRange(b) then [] else [OutOfRange(StartMin)]) +
    (if !EndInRange(b) then [OutOfRange(EndMin)]
     else if StartInRange(b) && b.endMin <= b.startMin then [EndNotAfterStart]
     else [])
  }

  /** An accepted block always lasts between one minute and a whole day. */
  lemma WellFormedDuration(b: Block)
    requires FieldErrors(b) == []
    ensures 1 <= b.endMin - b.startMin <= MinutesPerDay
    ensures b.endMin > b.startMin
  {
  }

  /** A validation error of a request: the position of the block and what is wrong with it. */
  datatype BlockError = BlockError(index: nat, error: FieldError)

  /** All validation errors of a list of blocks (which errors are reported, not their order). */
  function ListErrors(bs: seq<Block>): (errs: set<BlockError>)
    ensures errs == {} <==> forall i :: 0 <= i < |bs| ==> WellFormed(bs[i])
    ensures forall e :: e in errs ==> e.index < |bs| && e.error in FieldErrors(bs[e.index])
    ensures forall i, fe :: 0 <= i < |bs| && fe in FieldErrors(bs[i]) ==> BlockError(i, fe) in errs
  {
    var errs := set i, fe | 0 <= i < |bs| && fe in FieldErrors(bs[i]) :: BlockError(i, fe);
    assert forall i :: 0 <= i < |bs| && !WellFormed(bs[i]) ==> BlockError(i, FieldErrors(bs[i])[0]) in errs;
    errs
  }

  /** Validates the blocks of a request: the list itself when all are accepted, otherwise every error. */
  function ValidateBlocks(bs: seq<Block>): (r: Result<seq<Block>, set<BlockError>>)
    ensures r.Ok? <==> forall i :: 0 <= i < |bs| ==> WellFormed(bs[i])
    ensures r.Ok? ==> r.value == bs
    ensures r.Err? ==> r.error != {}
    ensures r.Err? ==> forall e :: e in r.error ==> e.index < |bs| && e.error in FieldErrors(bs[e.index])
    ensures r.Err? ==> forall i, fe :: 0 <= i < |bs| && fe in FieldErrors(bs[i]) ==> BlockError(i, fe) in r.error
  {
    var errs := ListErrors(bs);
    if errs == {} then Ok(bs) else Err(errs)
  }
}
