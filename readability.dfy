/** StudyAssistant.get_readability_score (app.py:665-696): the Flesch reading
    ease and Flesch-Kincaid grade of a text and the reading level the ease falls
    in. The two Flesch numbers come from textstat and are inputs here. */
module Readability {

  datatype Option<T> = None | Some(value: T)

  /** The three entries of the dictionary the method returns. */
  datatype Readability = Readability(ease: real, grade: real, level: string)

  /** The lowest ease of each level from "Very Easy" down to "Difficult";
      anything lower is "Very Difficult". */
  const Floors: seq<real> := [90.0, 80.0, 70.0, 60.0, 50.0, 30.0]

  const Levels: seq<string> :=
    ["Very Easy", "Easy", "Fairly Easy", "Standard", "Fairly Difficult", "Difficult", "Very Difficult"]

  /** The position of the first floor the ease reaches, 6 when it reaches none. */
  function LevelIndex(ease: real): (k: nat)
    ensures k <= 6
    ensures forall j :: 0 <= j < 6 ==> (k <= j <==> ease >= Floors[j])
  {
    if ease >= 90.0 then 0
    else if ease >= 80.0 then 1
    else if ease >= 70.0 then 2
    else if ease >= 60.0 then 3
    else if ease >= 50.0 then 4
    else if ease >= 30.0 then 5
    else 6
  }

  /** The if/elif chain of app.py:672-685. */
  function ReadingLevel(ease: real): (level: string)
    ensures level == Levels[LevelIndex(ease)]
  {
    if ease >= 90.0 then "Very Easy"
    else if ease >= 80.0 then "Easy"
    else if ease >= 70.0 then "Fairly Easy"
    else if ease >= 60.0 then "Standard"
    else if ease >= 50.0 then "Fairly Difficult"
    else if ease >= 30.0 then "Difficult"
    else "Very Difficult"
  }

  /** An easier text never gets a harder level. */
  lemma LevelMonotone(e1: real, e2: real)
    requires e1 <= e2
    ensures LevelIndex(e2) <= LevelIndex(e1)
  {
    var k1, k2 := LevelIndex(e1), LevelIndex(e2);
    if k1 < 6 {
      assert e1 >= Floors[k1];
    }
  }

  /** Each level is reached by exactly the eases between its floor and the
      floor above it. */
  lemma LevelBands(ease: real, j: nat)
    requires 0 < j < 6
    ensures LevelIndex(ease) == j <==> Floors[j] <= ease < Floors[j - 1]
  {
  }

  /** The scores, or None when textstat raised; the bare `except` then yields
      zeros and "Unknown". */
  function ReadabilityOf(flesch: Option<(real, real)>): (r: Readability)
    ensures flesch.None? ==> r == Readability(0.0, 0.0, "Unknown")
    ensures flesch.Some? ==> r.ease == flesch.value.0 && r.grade == flesch.value.1
    ensures flesch.Some? ==> r.level in Levels && r.level != "Unknown"
    ensures flesch.Some? ==> r.level == Levels[LevelIndex(flesch.value.0)]
  {
    match flesch
    case None => Readability(0.0, 0.0, "Unknown")
    case Some((ease, grade)) => Readability(ease, grade, ReadingLevel(ease))
  }
}
