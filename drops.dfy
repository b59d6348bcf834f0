/**
 * The reward drawn when a block is completed.
 *
 * Two stages: a rare draw (`random.random() < 0.05`)
 * makes a comet whatever the difficulty; otherwise a hard block gives a
 * planet and any other gives a star. A planet's label carries one of the
 * letters A..Z, chosen uniformly. The random draws are inputs here: `rare`
 * and the letter index.
 */
module Drops {
  import opened Wrappers
  import opened Blocks

  datatype DropType = Star | Planet | Comet

  datatype Drop = Drop(kind: DropType, labelText: string)

  /** The index the uniform letter draw returns. */
  type LetterIndex = i: int | 0 <= i <= 25

  const CometLabel: string := "Comet \U{2728}"
  const StarLabel: string := "Star \U{2B50}"
  const PlanetPrefix: string := "Planet "

  /** First stage: rare or common, then a difficulty-dependent common tier. */
  function DropTypeFor(difficulty: Difficulty, rare: bool): (kind: DropType)
  {
    if rare then Comet
    else if difficulty == Hard then Planet
    else Star
  }

  /** Second stage: the label of the chosen type. */
  function LabelFor(kind: DropType, letter: LetterIndex): (text: string)
  {
    match kind
    case Planet => PlanetPrefix + [(65 + letter) as char]
    case Comet => CometLabel
    case Star => StarLabel
  }

  /** The drop for completing a block of the given difficulty. */
  function Complete(difficulty: Difficulty, rare: bool, letter: LetterIndex): (d: Drop)
    ensures rare ==> d == Drop(Comet, CometLabel)
    ensures !rare && difficulty == Hard ==>
              d.kind == Planet && |d.labelText| == 8 && d.labelText[..7] == PlanetPrefix &&
              'A' <= d.labelText[7] <= 'Z' && d.labelText[7] as int == 65 + letter
    ensures !rare && difficulty != Hard ==> d == Drop(Star, StarLabel)
  {
    var kind := DropTypeFor(difficulty, rare);
    Drop(kind, LabelFor(kind, letter))
  }

  /** Reads the type (and for a planet the letter) back from a label. */
  function ParseLabel(text: string): (parsed: Option<(DropType, int)>)
  {
    if text == CometLabel then Some((Comet, 0))
    else if text == StarLabel then Some((Star, 0))
    else if |text| == 8 && text[..7] == PlanetPrefix && 'A' <= text[7] <= 'Z'
    then Some((Planet, text[7] as int - 65))
    else None
  }

  /** Every label names its type, and a planet label its letter: the 26 planets and the two other labels are all distinct. */
  lemma LabelRoundTrip(kind: DropType, letter: LetterIndex)
    ensures ParseLabel(LabelFor(kind, letter)) == Some((kind, if kind == Planet then letter else 0))
  {
    if kind == Planet {
      var l := LabelFor(kind, letter);
      assert l[..7] == PlanetPrefix;
      assert l != CometLabel && l != StarLabel by { assert l[0] == 'P'; }
    }
  }

  /** Outside the rare draw a hard block never gets a star and an easy or medium one never a planet. */
  lemma CommonTierByDifficulty(difficulty: Difficulty, letter: LetterIndex)
    ensures Complete(difficulty, false, letter).kind != Comet
    ensures difficulty == Hard ==> Complete(difficulty, false, letter).kind != Star
    ensures difficulty != Hard ==> Complete(difficulty, false, letter).kind != Planet
  {
  }
}
