/**
 The quiz session: an ordered list of questions that is asked once, in
 order, with one answer line read per question. The console is replaced by
 a sequence of answer lines going in and a sequence of output lines coming
 out.
 */
module QuizSession {
  import opened JavaLang
  import opened Questions

  /** Printed (without a line break) before each answer is read. */
  const AnswerPrompt: string := "Your answer: "

  function Feedback(correct: bool): string {
    if correct then "Correct!" else "Incorrect."
  }

  /** The final line, with the score and the number of questions. */
  function Summary(score: nat, total: nat): string {
    "Quiz completed. Your score: " + NatToDecimal(score) + "/" + NatToDecimal(total)
  }

  /** The output for one question answered with `answer`: the question's
      display, the answer prompt followed by the feedback on the same line,
      and an empty line. */
  function Exchange(q: Question, answer: string): seq<string> {
    Display(q) + [AnswerPrompt + Feedback(CheckAnswer(q, answer)), ""]
  }

  /** Number of the questions in `qs` whose answer at the same position is
      accepted. */
  function Score(qs: seq<Question>, answers: seq<string>): (score: nat)
    requires |qs| <= |answers|
    ensures score <= |qs|
    decreases |qs|
  {
    if qs == [] then 0
    else
      var last := |qs| - 1;
      Score(qs[..last], answers) + if CheckAnswer(qs[last], answers[last]) then 1 else 0
  }

  /** Consecutive blocks of lines, one after the other. */
  function Join<T>(blocks: seq<seq<T>>): seq<T>
    decreases |blocks|
  {
    if blocks == [] then [] else Join(blocks[..|blocks| - 1]) + blocks[|blocks| - 1]
  }

  /** The output block of each question, answered in turn. */
  function Exchanges(qs: seq<Question>, answers: seq<string>): seq<seq<string>>
    requires |qs| <= |answers|
  {
    seq(|qs|, i requires 0 <= i < |qs| => Exchange(qs[i], answers[i]))
  }

  /** The output for asking every question of `qs` in order. */
  function Transcript(qs: seq<Question>, answers: seq<string>): seq<string>
    requires |qs| <= |answers|
  {
    Join(Exchanges(qs, answers))
  }

  /** Positions of the questions answered correctly. */
  function CorrectPositions(qs: seq<Question>, answers: seq<string>): set<nat>
    requires |qs| <= |answers|
  {
    set i: nat | i < |qs| && CheckAnswer(qs[i], answers[i])
  }

  class Quiz {
    var questions: seq<Question>

    constructor ()
      ensures questions == []
    {
      questions := [];
    }

    /** Appends a question; the earlier ones keep their order. */
    method AddQuestion(question: Question)
      modifies this
      ensures questions == old(questions) + [question]
    {
      questions := questions + [question];
    }

    /** Asks every question in order, reading answers[i] as the answer to
        question i. The score starts at 0 on every call. When the answer
        lines run out before the questions do, reading fails: the output
        stops after the unanswered question's display and answer prompt,
        and no summary is printed. */
    method Conduct(answers: seq<string>) returns (completed: bool, score: nat, output: seq<string>)
      ensures completed <==> |questions| <= |answers|
      ensures completed ==> score == Score(questions, answers)
      ensures completed ==> output == Transcript(questions, answers) + [Summary(score, |questions|)]
      ensures !completed ==>
        score == Score(questions[..|answers|], answers) &&
        output == Transcript(questions[..|answers|], answers) + Display(questions[|answers|]) + [AnswerPrompt]
    {
      score := 0;
      output := [];
      var i := 0;
      while i < |questions| && i < |answers|
        invariant i <= |questions| && i <= |answers|
        invariant score == Score(questions[..i], answers)
        invariant output == Transcript(questions[..i], answers)
      {
        var question, answer := questions[i], answers[i];
        ghost var before := output;
        output := output + Display(question);
        var correct := CheckAnswer(question, answer);
        var feedback;
        if correct {
          feedback := "Correct!";
          score := score + 1;
        } else {
          feedback := "Incorrect.";
        }
        output := output + [AnswerPrompt + feedback, ""];
        assert feedback == Feedback(correct);
        assert output == before + (Display(question) + [AnswerPrompt + feedback, ""]);
        TranscriptStep(questions, answers, i);
        ScoreStep(questions, answers, i);
        i := i + 1;
      }
      if i < |questions| {
        // The answer lines ran out: the next question is shown, and reading
        // its answer fails.
        output := output + Display(questions[i]) + [AnswerPrompt];
        return false, score, output;
      }
      assert questions[..i] == questions;
      output := output + [Summary(score, |questions|)];
      completed := true;
    }
  }

  // ---------------------------------------------------------------------
  // Properties of the score
  // ---------------------------------------------------------------------

  /** Answering one more question adds one to the score exactly when that
      answer is accepted. */
  lemma ScoreStep(qs: seq<Question>, answers: seq<string>, i: nat)
    requires i < |qs| && i < |answers|
    ensures Score(qs[..i + 1], answers) == Score(qs[..i], answers) + if CheckAnswer(qs[i], answers[i]) then 1 else 0
  {
    assert qs[..i + 1][..i] == qs[..i];
  }

  /** The correct positions among the first |qs| questions are those among
      the first |qs| - 1, plus the last one when its answer is accepted. */
  lemma CorrectPositionsStep(qs: seq<Question>, answers: seq<string>)
    requires 0 < |qs| <= |answers|
    ensures var last := |qs| - 1;
            var correct := CheckAnswer(qs[last], answers[last]);
            CorrectPositions(qs, answers) ==
              CorrectPositions(qs[..last], answers) + if correct then {last} else {}
  {
    var last := |qs| - 1;
    var correct := CheckAnswer(qs[last], answers[last]);
    var before, now := CorrectPositions(qs[..last], answers), CorrectPositions(qs, answers);
    forall j: nat ensures j in now <==> j in before || (correct && j == last) {
      if j < last {
        assert qs[..last][j] == qs[j];
      }
    }
  }

  /** Reference definition: the score is the number of positions whose
      answer is accepted. */
  lemma {:induction false} ScoreCountsCorrectPositions(qs: seq<Question>, answers: seq<string>)
    requires |qs| <= |answers|
    ensures Score(qs, answers) == |CorrectPositions(qs, answers)|
    decreases |qs|
  {
    if qs != [] {
      var last := |qs| - 1;
      ScoreCountsCorrectPositions(qs[..last], answers);
      CorrectPositionsStep(qs, answers);
      assert last !in CorrectPositions(qs[..last], answers);
    }
  }

  /** Scores of consecutive groups of questions add up. */
  lemma {:induction false} ScoreAppend(qs: seq<Question>, rest: seq<Question>, answers: seq<string>)
    requires |qs| + |rest| <= |answers|
    ensures Score(qs + rest, answers) ==
            Score(qs, answers) + Score(rest, answers[|qs|..])
    decreases |rest|
  {
    if rest == [] {
      assert qs + rest == qs;
    } else {
      var last := |rest| - 1;
      ScoreAppend(qs, rest[..last], answers);
      assert (qs + rest)[..|qs| + last] == qs + rest[..last];
    }
  }

  /** The score is full exactly when every answer is accepted. */
  lemma {:induction false} FullScoreIffAllCorrect(qs: seq<Question>, answers: seq<string>)
    requires |qs| <= |answers|
    ensures Score(qs, answers) == |qs| <==> forall i :: 0 <= i < |qs| ==> CheckAnswer(qs[i], answers[i])
    decreases |qs|
  {
    if qs != [] {
      var last := |qs| - 1;
      FullScoreIffAllCorrect(qs[..last], answers);
      if Score(qs, answers) == |qs| {
        forall i | 0 <= i < |qs| ensures CheckAnswer(qs[i], answers[i]) {
          if i < last { assert qs[..last][i] == qs[i]; }
        }
      }
    }
  }

  /** The score is zero exactly when no answer is accepted. */
  lemma {:induction false} ZeroScoreIffNoneCorrect(qs: seq<Question>, answers: seq<string>)
    requires |qs| <= |answers|
    ensures Score(qs, answers) == 0 <==> forall i :: 0 <= i < |qs| ==> !CheckAnswer(qs[i], answers[i])
    decreases |qs|
  {
    if qs != [] {
      var last := |qs| - 1;
      ZeroScoreIffNoneCorrect(qs[..last], answers);
      if Score(qs, answers) == 0 {
        forall i | 0 <= i < |qs| ensures !CheckAnswer(qs[i], answers[i]) {
          if i < last { assert qs[..last][i] == qs[i]; }
        }
      }
    }
  }

  // ---------------------------------------------------------------------
  // Properties of the output
  // ---------------------------------------------------------------------

  /** Joining two runs of blocks joins their outputs. */
  lemma {:induction false} JoinAppend<T>(a: seq<seq<T>>, b: seq<seq<T>>)
    ensures Join(a + b) == Join(a) + Join(b)
    decreases |b|
  {
    if b == [] {
      assert a + b == a;
    } else {
      var last := |b| - 1;
      JoinAppend(a, b[..last]);
      assert (a + b)[..|a| + last] == a + b[..last];
    }
  }

  /** Block i of a join starts right after the blocks before it. */
  lemma JoinBlockAt<T>(blocks: seq<seq<T>>, i: nat)
    requires i < |blocks|
    ensures var start := |Join(blocks[..i])|;
            start + |blocks[i]| <= |Join(blocks)| &&
            Join(blocks)[start..start + |blocks[i]|] == blocks[i]
  {
    var before, after := blocks[..i], blocks[i + 1..];
    assert blocks == before + [blocks[i]] + after;
    JoinAppend(before + [blocks[i]], after);
    assert (before + [blocks[i]])[..i] == before;
    var whole := Join(before) + blocks[i] + Join(after);
    assert whole[|Join(before)|..|Join(before)| + |blocks[i]|] == blocks[i];
  }

  /** The blocks for a prefix of the questions are a prefix of the blocks. */
  lemma ExchangesPrefix(qs: seq<Question>, answers: seq<string>, k: nat)
    requires k <= |qs| <= |answers|
    ensures Exchanges(qs[..k], answers) == Exchanges(qs, answers)[..k]
  {
  }

  /** Answering one more question appends that question's block. */
  lemma TranscriptStep(qs: seq<Question>, answers: seq<string>, i: nat)
    requires i < |qs| && i < |answers|
    ensures Transcript(qs[..i + 1], answers) == Transcript(qs[..i], answers) + Exchange(qs[i], answers[i])
  {
    var blocks := Exchanges(qs[..i + 1], answers);
    ExchangesPrefix(qs[..i + 1], answers, i);
    assert qs[..i + 1][..i] == qs[..i];
    assert blocks[..i] == Exchanges(qs[..i], answers);
    assert blocks[i] == Exchange(qs[i], answers[i]);
  }

  /** The output for question i sits right after the output for the
      questions before it. */
  lemma ExchangeInTranscript(qs: seq<Question>, answers: seq<string>, i: nat)
    requires i < |qs| <= |answers|
    ensures var start := |Transcript(qs[..i], answers)|;
            var exchange := Exchange(qs[i], answers[i]);
            start + |exchange| <= |Transcript(qs, answers)| &&
            Transcript(qs, answers)[start..start + |exchange|] == exchange
  {
    ExchangesPrefix(qs, answers, i);
    JoinBlockAt(Exchanges(qs, answers), i);
  }

  /** A slice that equals a + b splits into a slice equal to a followed by
      the first element of b. */
  lemma SliceSplit<T>(whole: seq<T>, start: nat, a: seq<T>, b: seq<T>)
    requires |b| > 0 && start + |a| + |b| <= |whole|
    requires whole[start..start + |a| + |b|] == a + b
    ensures whole[start..start + |a|] == a
    ensures whole[start + |a|] == b[0]
  {
    assert whole[start..start + |a|] == whole[start..start + |a| + |b|][..|a|];
    assert whole[start + |a|] == whole[start..start + |a| + |b|][|a|];
  }

  /** Question i's display starts right after the output for the questions
      before it, and the line after the display is the answer prompt with
      the verdict on answers[i]. */
  lemma FeedbackLine(qs: seq<Question>, answers: seq<string>, i: nat)
    requires i < |qs| <= |answers|
    ensures var start := |Transcript(qs[..i], answers)|;
            var k := start + |Display(qs[i])|;
            k < |Transcript(qs, answers)| &&
            Transcript(qs, answers)[start..k] == Display(qs[i]) &&
            Transcript(qs, answers)[k] == AnswerPrompt + Feedback(CheckAnswer(qs[i], answers[i]))
  {
    ExchangeInTranscript(qs, answers, i);
    var whole, start := Transcript(qs, answers), |Transcript(qs[..i], answers)|;
    var display, line := Display(qs[i]), AnswerPrompt + Feedback(CheckAnswer(qs[i], answers[i]));
    var exchange := Exchange(qs[i], answers[i]);
    assert exchange == display + [line, ""];
    assert whole[start..start + |display| + 2] == exchange;
    SliceSplit(whole, start, display, [line, ""]);
  }

  // ---------------------------------------------------------------------
  // The ten-question quiz set up at start-up
  // ---------------------------------------------------------------------

  function SampleQuestions(): seq<Question> {
    [ MultipleChoice("What is the capital of France?", ["London", "Paris", "Berlin", "Rome"], 2),
      TrueFalse("Java is a programming language.", true),
      FillInBlank("The largest planet in our solar system is ______.", "Jupiter"),
      MultipleChoice("What is the capital of Japan?", ["Beijing", "Tokyo", "Seoul", "Bangkok"], 2),
      TrueFalse("Python is a statically typed language.", false),
      FillInBlank("The force of gravity depends on the ________ of the masses involved.", "product"),
      MultipleChoice("What is the largest mammal?", ["Elephant", "Whale", "Giraffe", "Horse"], 2),
      TrueFalse("Mount Everest is the highest mountain on Earth.", true),
      FillInBlank("The chemical symbol for water is _____.", "H2O"),
      MultipleChoice("Who wrote 'To Kill a Mockingbird'?",
                     ["Mark Twain", "Harper Lee", "Ernest Hemingway", "J.K. Rowling"], 2) ]
  }

  function RightAnswers(): seq<string> {
    ["2", "true", "jupiter", "2", "false", "Product", "2", "1", "h2o", "+2"]
  }

  /** Each answer in RightAnswers is accepted by its question. */
  lemma SampleRightAnswerAccepted(i: nat)
    requires i < 10
    ensures CheckAnswer(SampleQuestions()[i], RightAnswers()[i])
  {
    var q, answer := SampleQuestions()[i], RightAnswers()[i];
    match q
    case MultipleChoice(_, _, _) =>
      assert q.correctOption == 2;
      assert answer == "2" || answer == "+2";
      ParseIntRoundTrip(2);
      ParseIntIgnoresPlusAndLeadingZero("2");
    case TrueFalse(_, _) =>
      assert answer == "true" || answer == "false" || answer == "1";
      SelectsTrueExamples();
    case FillInBlank(_, correctText) =>
      EqualsIgnoreCaseIffLowerEqual(answer, correctText);
  }

  /** Every right answer gives 10/10. */
  lemma SampleAllCorrect()
    ensures Score(SampleQuestions(), RightAnswers()) == 10
    ensures Summary(Score(SampleQuestions(), RightAnswers()), 10) == "Quiz completed. Your score: 10/10"
  {
    var qs, answers := SampleQuestions(), RightAnswers();
    forall i | 0 <= i < |qs| ensures CheckAnswer(qs[i], answers[i]) {
      SampleRightAnswerAccepted(i);
    }
    FullScoreIffAllCorrect(qs, answers);
    assert NatToDecimal(10) == "10";
  }

  /** A wrong first answer and nine right ones give 9/10, and only the first
      question's verdict is "Incorrect.". */
  lemma SampleFirstWrong()
    ensures var answers := ["Paris"] + RightAnswers()[1..];
            Score(SampleQuestions(), answers) == 9 &&
            Summary(Score(SampleQuestions(), answers), 10) == "Quiz completed. Your score: 9/10" &&
            forall i :: 0 <= i < 10 ==> (CheckAnswer(SampleQuestions()[i], answers[i]) <==> i != 0)
  {
    var qs, right := SampleQuestions(), RightAnswers();
    var answers := ["Paris"] + right[1..];
    assert !CheckAnswer(qs[0], answers[0]) by {
      ParseIntRejectedExamples();
    }
    forall i | 1 <= i < 10 ensures CheckAnswer(qs[i], answers[i]) {
      SampleRightAnswerAccepted(i);
    }
    FullScoreIffAllCorrect(qs[1..], answers[1..]);
    ScoreAppend(qs[..1], qs[1..], answers);
    assert qs[..1] + qs[1..] == qs;
    assert Score(qs[..1], answers) == 0 by {
      assert qs[..1][..0] == [];
    }
    assert NatToDecimal(9) == "9" && NatToDecimal(10) == "10";
  }

  /** The start-up scenario run through the session object: ten questions
      added in order, all answered right. */
  method SampleSession() returns (completed: bool, score: nat, summary: string)
    ensures completed && score == 10
    ensures summary == "Quiz completed. Your score: 10/10"
  {
    var quiz := new Quiz();
    var qs := SampleQuestions();
    var i := 0;
    while i < |qs|
      invariant i <= |qs|
      invariant quiz.questions == qs[..i]
    {
      quiz.AddQuestion(qs[i]);
      assert qs[..i + 1] == qs[..i] + [qs[i]];
      i := i + 1;
    }
    assert qs[..i] == qs;
    var output;
    completed, score, output := quiz.Conduct(RightAnswers());
    SampleAllCorrect();
    summary := output[|output| - 1];
  }
}
