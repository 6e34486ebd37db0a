/** The entities shared by the quiz screens, as stored for a quiz. */
module QuizTypes {
  /** `'two_choices' | 'four_choices' | 'input'` */
  datatype QuestionType = TwoChoices | FourChoices | Input {
    predicate IsChoice() {
      this == TwoChoices || this == FourChoices
    }
  }
}
