/** The entities of package entity: users and quiz questions. */
module Entity {
  import opened GoString

  /**
    A user. entity/user.go declares no Password field, but both the
    registration and the login code read and write one, so it is kept here.
   */
  datatype User = User(id: nat, phoneNumber: Bytes, name: Bytes, password: Bytes)

  /** Go's uint8, the underlying type of both question enums. */
  newtype PossibleAnswerChoice = c: int | 0 <= c < 256

  const PossibleAnswerA: PossibleAnswerChoice := 1
  const PossibleAnswerB: PossibleAnswerChoice := 2
  const PossibleAnswerC: PossibleAnswerChoice := 3
  const PossibleAnswerD: PossibleAnswerChoice := 4

  newtype QuestionDifficulty = d: int | 0 <= d < 256

  const QuestionDifficultyEasy: QuestionDifficulty := 1
  const QuestionDifficultyMedium: QuestionDifficulty := 2
  const QuestionDifficultyHard: QuestionDifficulty := 3

  /** A choice is valid when it lies between A and D; the zero value is not. */
  function ChoiceIsValid(c: PossibleAnswerChoice): (r: bool)
    ensures r <==> 1 <= c <= 4
  {
    c >= PossibleAnswerA && c <= PossibleAnswerD
  }

  /** A difficulty is valid when it lies between Easy and Hard. */
  function DifficultyIsValid(d: QuestionDifficulty): (r: bool)
    ensures r <==> 1 <= d <= 3
  {
    d >= QuestionDifficultyEasy && d <= QuestionDifficultyHard
  }

  /** The valid choices are exactly the four named constants. */
  lemma ValidChoicesAreNamed(c: PossibleAnswerChoice)
    ensures ChoiceIsValid(c) <==> c in {PossibleAnswerA, PossibleAnswerB, PossibleAnswerC, PossibleAnswerD}
  {
  }

  /** Of the 256 uint8 values, exactly four are valid choices. */
  lemma FourValidChoices()
    ensures |set c: PossibleAnswerChoice | ChoiceIsValid(c)| == 4
  {
    var valid := set c: PossibleAnswerChoice | ChoiceIsValid(c);
    assert valid == {1, 2, 3, 4} by {
      forall c: PossibleAnswerChoice ensures c in valid <==> c in {1, 2, 3, 4} {
        ValidChoicesAreNamed(c);
      }
    }
  }

  /** The valid difficulties are exactly the three named constants. */
  lemma ValidDifficultiesAreNamed(d: QuestionDifficulty)
    ensures DifficultyIsValid(d) <==> d in {QuestionDifficultyEasy, QuestionDifficultyMedium, QuestionDifficultyHard}
  {
  }

  /** Of the 256 uint8 values, exactly three are valid difficulties: 0 and 4..255 are not. */
  lemma ThreeValidDifficulties()
    ensures |set d: QuestionDifficulty | DifficultyIsValid(d)| == 3
  {
    var valid := set d: QuestionDifficulty | DifficultyIsValid(d);
    assert valid == {1, 2, 3} by {
      forall d: QuestionDifficulty ensures d in valid <==> d in {1, 2, 3} {
        ValidDifficultiesAreNamed(d);
      }
    }
  }
}
