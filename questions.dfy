/**
 The three kinds of quiz question as one closed variant type, each with its
 rendering (`display`) and its answer check (`checkAnswer`). Both are pure
 functions of the stored fields and the answer, so a question is never
 changed by being displayed or answered, and the same answer always gets
 the same verdict.
 */
module Questions {
  import opened JavaLang

  datatype Question =
    | MultipleChoice(prompt: string, options: seq<string>, correctOption: Int32)
    | TrueFalse(prompt: string, correctAnswer: bool)
    | FillInBlank(prompt: string, correctText: string)

  /** The number shown in front of the option at 0-based position i. */
  function OptionLabel(i: nat): string {
    NatToDecimal(i + 1)
  }

  /** The line printed for the option at 0-based position i. */
  function OptionLine(i: nat, option: string): string {
    OptionLabel(i) + ". " + option
  }

  /** The lines `display` prints, in order. */
  function Display(q: Question): (lines: seq<string>)
    ensures |lines| > 0 && lines[0] == q.prompt
    ensures q.MultipleChoice? ==> |lines| == |q.options| + 1
  {
    match q
    case MultipleChoice(prompt, options, _) =>
      [prompt] + seq(|options|, i requires 0 <= i < |options| => OptionLine(i, options[i]))
    case TrueFalse(prompt, _) =>
      [prompt, "1. True", "2. False"]
    case FillInBlank(prompt, _) =>
      [prompt, "Enter your answer:"]
  }

  /** The true/false reading of an answer: "true" in any letter case, or "1". */
  predicate SelectsTrue(answer: string) {
    EqualsIgnoreCase(answer, "true") || EqualsIgnoreCase(answer, "1")
  }

  /** Whether `answer` is accepted. Never fails: an answer that is not a
      number is simply wrong for a multiple-choice question. */
  predicate CheckAnswer(q: Question, answer: string) {
    match q
    case MultipleChoice(_, _, correctOption) => ParseInt(answer) == Some(correctOption)
    case TrueFalse(_, correctAnswer) => SelectsTrue(answer) == correctAnswer
    case FillInBlank(_, correctText) => EqualsIgnoreCase(answer, correctText)
  }

  // ---------------------------------------------------------------------
  // Multiple choice
  // ---------------------------------------------------------------------

  /** The multiple-choice display lists every option, in order, behind its
      1-based number; typing that number back selects exactly that option. */
  lemma DisplayedNumberSelects(q: Question, i: nat)
    requires q.MultipleChoice? && i < |q.options|
    requires i + 1 <= MaxInt32
    ensures |Display(q)| == |q.options| + 1
    ensures Display(q)[i + 1] == OptionLabel(i) + ". " + q.options[i]
    ensures CheckAnswer(q, OptionLabel(i)) <==> i + 1 == q.correctOption as int
  {
    ParseIntRoundTrip(i + 1);
  }

  /** Every answer that parseInt rejects is wrong, whatever the options. */
  lemma MultipleChoiceRejectsNonNumeric(q: Question, answer: string)
    requires q.MultipleChoice? && ParseInt(answer) == None
    ensures !CheckAnswer(q, answer)
  {
  }

  /** An accepted multiple-choice answer is an optional sign followed by at
      least one digit, so a lone sign or an answer with a blank anywhere in
      it is wrong. */
  lemma MultipleChoiceAcceptedShape(q: Question, answer: string)
    requires q.MultipleChoice? && CheckAnswer(q, answer)
    ensures |answer| > 0
    ensures answer[0] == '-' || answer[0] == '+' || IsDigit(answer[0])
    ensures forall i :: 1 <= i < |answer| ==> IsDigit(answer[i])
    ensures IsDigit(answer[|answer| - 1])
  {
    ParseIntAcceptsOnlyIntegerSyntax(answer);
  }

  /** The decimal form of the stored option number is accepted, and any two
      accepted answers denote the same number. The stored number is not
      checked against the number of options. */
  lemma MultipleChoiceAcceptsCorrectNumber(q: Question, a1: string, a2: string)
    requires q.MultipleChoice?
    ensures CheckAnswer(q, IntToDecimal(q.correctOption as int))
    ensures CheckAnswer(q, a1) && CheckAnswer(q, a2) ==> ParseInt(a1) == ParseInt(a2)
  {
    ParseIntRoundTrip(q.correctOption as int);
  }

  // ---------------------------------------------------------------------
  // True / false
  // ---------------------------------------------------------------------

  /** An answer selects "true" exactly when it is "1" or spells "true" in
      any mix of letter cases. */
  lemma SelectsTrueCharacterized(answer: string)
    ensures SelectsTrue(answer) <==> answer == "1" || Lower(answer) == "true"
  {
    EqualsIgnoreCaseIffLowerEqual(answer, "true");
    assert Lower("true") == "true";
    if EqualsIgnoreCase(answer, "1") {
      CharEqualsIgnoreCaseFolds(answer[0], '1');
      assert answer == "1";
    }
  }

  /** A true/false question accepts exactly the answers whose reading agrees
      with the stored value; when that value is false, every answer that
      does not select "true" is right. */
  lemma TrueFalseVerdict(q: Question, answer: string)
    requires q.TrueFalse?
    ensures CheckAnswer(q, answer) <==> (answer == "1" || Lower(answer) == "true") == q.correctAnswer
  {
    SelectsTrueCharacterized(answer);
  }

  /** The numbers shown by the true/false display agree with the check:
      "1" answers True and "2" answers False. */
  lemma TrueFalseDisplayedNumbers(q: Question)
    requires q.TrueFalse?
    ensures Display(q)[1] == "1. True" && Display(q)[2] == "2. False"
    ensures CheckAnswer(q, "1") <==> q.correctAnswer
    ensures CheckAnswer(q, "2") <==> !q.correctAnswer
  {
    SelectsTrueCharacterized("2");
  }

  /** "true", "True", "TRUE" and "1" select true; "false", "2" and the
      empty answer do not. */
  lemma SelectsTrueExamples()
    ensures SelectsTrue("true") && SelectsTrue("True") && SelectsTrue("TRUE") && SelectsTrue("1")
    ensures !SelectsTrue("false") && !SelectsTrue("2") && !SelectsTrue("")
  {
    SelectsTrueCharacterized("true");
    SelectsTrueCharacterized("True");
    SelectsTrueCharacterized("TRUE");
    SelectsTrueCharacterized("2");
  }

  // ---------------------------------------------------------------------
  // Fill in the blank
  // ---------------------------------------------------------------------

  /** A fill-in-the-blank answer is right exactly when it equals the stored
      text after folding case, so it must have the same length: nothing is
      trimmed, and a right answer with a blank added on either side is wrong. */
  lemma FillInBlankVerdict(q: Question, answer: string)
    requires q.FillInBlank?
    ensures CheckAnswer(q, answer) <==> Lower(answer) == Lower(q.correctText)
    ensures CheckAnswer(q, answer) ==> |answer| == |q.correctText|
    ensures CheckAnswer(q, answer) ==> !CheckAnswer(q, " " + answer) && !CheckAnswer(q, answer + " ")
  {
    EqualsIgnoreCaseIffLowerEqual(answer, q.correctText);
  }

  /** The first question of the quiz's own data: "2" is right, while the
      option's text and a padded number are not numbers at all. */
  lemma MultipleChoiceExample()
    ensures var france := MultipleChoice("What is the capital of France?",
                                         ["London", "Paris", "Berlin", "Rome"], 2);
            CheckAnswer(france, "2") && !CheckAnswer(france, "Paris") && !CheckAnswer(france, " 2")
  {
    ParseIntRoundTrip(2);
    assert !IsDigit("Paris"[0]);
    ParseIntRejectsBlank(" 2", 0);
  }

  /** A true/false question whose stored value is true. */
  lemma TrueFalseExample()
    ensures var java := TrueFalse("Java is a programming language.", true);
            !CheckAnswer(java, "false") && CheckAnswer(java, "1") && CheckAnswer(java, "TRUE")
  {
    SelectsTrueExamples();
  }

  /** A fill-in-the-blank question: letter case is ignored, blanks are not. */
  lemma FillInBlankExample()
    ensures var planet := FillInBlank("The largest planet in our solar system is ______.", "Jupiter");
            CheckAnswer(planet, "jupiter") && !CheckAnswer(planet, " Jupiter ")
  {
    EqualsIgnoreCaseIffLowerEqual("jupiter", "Jupiter");
  }
}
