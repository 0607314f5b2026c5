# Console quiz: answer checking and scoring

A Dafny model of the core of a small console quiz program. There are three
kinds of question: multiple choice, true/false and fill in the blank. Each
question prints itself and decides whether a typed answer is right. A `Quiz`
holds the questions in order, asks them one after the other, counts the right
answers and prints a closing score line.

The model has three modules:

- `JavaLang` (`javalang.dfy`) holds the pieces of `java.lang` the quiz relies
  on, restricted to ASCII:
  - `String.equalsIgnoreCase`, written with Java's own three-way character
    test;
  - `Integer.parseInt` in radix 10, which returns `None` where Java throws
    `NumberFormatException`;
  - the decimal rendering that string concatenation applies to an `int`;
  - Java's 32-bit `int`, as the newtype `Int32`.
- `Questions` (`questions.dfy`) holds the three question classes as one
  closed datatype `Question`:
  - `Display` is the list of lines a question prints.
  - `CheckAnswer` is the predicate that decides an answer. It is a function
    of the stored fields and the answer alone, so checking an answer changes
    nothing, and the same answer always gets the same verdict.
- `QuizSession` (`quiz.dfy`) holds the `Quiz` class:
  - Its `questions` field is a `seq<Question>`.
  - `AddQuestion` appends to it.
  - `Conduct` asks the questions in a `while` loop. Its input is the sequence
    of answer lines. It returns whether the session finished, the score, and
    every line printed.
  - The functions `Score` and `Transcript` specify `Conduct`.
  - `CorrectPositions` is an independent definition of which answers were
    right.
  - The ten questions set up at start-up appear as a concrete scenario.

The model follows the code where it leaves values unchecked:

- The constructor (`QuizPlatform.java:23-27`) does not check that
  `correctOption` lies between 1 and the number of options, so the model
  allows any `int`. A question whose stored option is outside that range
  accepts no displayed number (see `Questions.DisplayedNumberSelects`).
- The constructors do not require a non-empty option list or a non-empty
  fill-in text, and the model does not require them either.

## Model

| member | source | states |
|---|---|---|
| JavaLang.CharEqualsIgnoreCaseFolds | QuizPlatform.java:89 | The per-character test of `equalsIgnoreCase` (equal, equal upper case, or equal lower case of the upper case) holds exactly when the two characters fold to the same lower-case character |
| JavaLang.EqualsIgnoreCaseIffLowerEqual | QuizPlatform.java:89 | Two strings are equal ignoring case exactly when their lower-case forms are equal, in both directions |
| JavaLang.CharEqualsIgnoreCase | QuizPlatform.java:89 | Definition: the per-character test of `equalsIgnoreCase` as the JDK writes it (equal chars, equal upper-case forms, or equal lower-case forms of those), on ASCII. `CharEqualsIgnoreCaseFolds` characterises it |
| JavaLang.EqualsIgnoreCase | QuizPlatform.java:89 | Definition: `equalsIgnoreCase` as equal length plus `CharEqualsIgnoreCase` at every position, used at `:67` and `:89`. `EqualsIgnoreCaseIffLowerEqual` and `EqualsIgnoreCaseIsEquivalence` characterise it |
| JavaLang.EqualsIgnoreCaseIsEquivalence | QuizPlatform.java:89 | `equalsIgnoreCase` is reflexive, symmetric and transitive |
| JavaLang.NatToDecimal | QuizPlatform.java:33 | The number printed before an option is a non-empty string of digits, with no leading zero unless it is 0 |
| JavaLang.IntToDecimal | QuizPlatform.java:122 | Definition: `Integer.toString` as applied by string concatenation, an optional minus sign and the decimal magnitude, never empty. `ParseIntRoundTrip` characterises it |
| JavaLang.DecimalRoundTrip | QuizPlatform.java:33 | Reading back the decimal rendering of a natural number gives that number |
| JavaLang.ParseInt | QuizPlatform.java:41-43 | Definition: `Integer.parseInt` in radix 10, giving `None` where it throws `NumberFormatException`. It accepts an optional single sign, one or more ASCII digits, and a value in the 32-bit range. `ParseIntAcceptsOnlyIntegerSyntax`, `ParseIntRejectsBlank`, `ParseIntRoundTrip` and `ParseIntIgnoresPlusAndLeadingZero` characterise it |
| JavaLang.ParseIntAcceptsOnlyIntegerSyntax | QuizPlatform.java:40-44 | Every string `parseInt` accepts is non-empty: an optional sign, then digits only, ending in a digit. So a lone sign is rejected |
| JavaLang.ParseIntRejectsBlank | QuizPlatform.java:40-44 | A string holding a blank anywhere, leading, trailing or inside, is rejected |
| JavaLang.ParseIntRoundTrip | QuizPlatform.java:41 | On the whole 32-bit range, `parseInt` of the decimal rendering of n gives n |
| JavaLang.ParseIntIgnoresPlusAndLeadingZero | QuizPlatform.java:41 | A leading `+` or a leading zero before digits does not change what `parseInt` returns |
| JavaLang.ParseIntAcceptedExamples | QuizPlatform.java:41 | "2" and "+02" parse to 2, and "-2147483648" parses to the least `int` |
| JavaLang.ParseIntRejectedExamples | QuizPlatform.java:42-43 | "Paris", "", " 2", "2 ", a lone sign and 2147483648 (one past the largest `int`) are all rejected |
| Questions.Question | QuizPlatform.java:19-91 | Definition: the three question classes as one closed datatype. Each constructor has the fields its Java class stores, with the correct option as a 32-bit `int` |
| Questions.Display | QuizPlatform.java:29-35 | Every question prints its prompt first. A multiple-choice question prints one more line per option. The true/false and fill-in lines are the fixed texts of `QuizPlatform.java:59-63` and `82-85` |
| Questions.CheckAnswer | QuizPlatform.java:38-46 | Definition: the three `checkAnswer` methods (`:38-46`, `:66-69`, `:88-90`) as one predicate that matches on the variant. Multiple choice compares the parsed answer with the stored option, true/false compares `SelectsTrue` with the stored value, and fill in the blank uses `equalsIgnoreCase`. It reads only the stored fields and the answer. `MultipleChoiceRejectsNonNumeric`, `DisplayedNumberSelects`, `TrueFalseVerdict` and `FillInBlankVerdict` characterise it |
| Questions.SelectsTrue | QuizPlatform.java:67 | Definition: the true/false reading, `equalsIgnoreCase("true")` or `equalsIgnoreCase("1")`. `SelectsTrueCharacterized` characterises it |
| Questions.DisplayedNumberSelects | QuizPlatform.java:30-46 | The multiple-choice line for option i is its 1-based number, ". " and the option text. Typing that number back is accepted exactly when it equals the stored correct option |
| Questions.MultipleChoiceRejectsNonNumeric | QuizPlatform.java:38-44 | An answer that `parseInt` rejects is wrong and does not fail, whatever the options and the correct option |
| Questions.MultipleChoiceAcceptedShape | QuizPlatform.java:38-46 | An accepted multiple-choice answer is an optional sign followed by at least one digit, and nothing else |
| Questions.MultipleChoiceAcceptsCorrectNumber | QuizPlatform.java:23-45 | The decimal form of the stored option number is accepted even when that number is outside 1..size. Any two accepted answers parse to the same number |
| Questions.SelectsTrueCharacterized | QuizPlatform.java:67 | An answer selects true exactly when it is "1" or spells "true" in any letter case |
| Questions.TrueFalseVerdict | QuizPlatform.java:66-69 | A true/false answer is right exactly when its reading, "1" or "true" in any case, agrees with the stored value |
| Questions.TrueFalseDisplayedNumbers | QuizPlatform.java:59-69 | The display lists "1. True" and "2. False". Answer "1" is right exactly when the stored value is true, and "2" exactly when it is false |
| Questions.SelectsTrueExamples | QuizPlatform.java:67 | "true", "True", "TRUE" and "1" select true; "false", "2" and "" do not |
| Questions.FillInBlankVerdict | QuizPlatform.java:88-90 | A fill-in answer is right exactly when it equals the stored text after case folding. So it has the same length, and a right answer padded with a blank on either side is wrong |
| Questions.MultipleChoiceExample | QuizPlatform.java:154-155 | For the France question with correct option 2, "2" is right and "Paris" and " 2" are wrong |
| Questions.TrueFalseExample | QuizPlatform.java:156 | For a question whose stored value is true, "1" and "TRUE" are right and "false" is wrong |
| Questions.FillInBlankExample | QuizPlatform.java:157-158 | With "Jupiter" stored, "jupiter" is right and " Jupiter " is wrong |
| QuizSession.Score | QuizPlatform.java:106-118 | The score for a list of questions is at most the number of questions |
| QuizSession.Summary | QuizPlatform.java:122 | Definition: the closing line, with score and question count in decimal. `SampleAllCorrect` and `SampleFirstWrong` give its concrete text |
| QuizSession.Exchange | QuizPlatform.java:110-119 | Definition: the lines printed for one question. These are its display, then the answer prompt and the verdict on one line, then an empty line. `FeedbackLine` characterises it inside the full output |
| QuizSession.Transcript | QuizPlatform.java:109-120 | Definition: the blocks of all questions, in list order. `TranscriptStep`, `ExchangeInTranscript` and `FeedbackLine` characterise it, and `Conduct`'s ensures ties the method's output to it |
| QuizSession.Quiz.constructor | QuizPlatform.java:97-99 | A new quiz has no questions |
| QuizSession.Quiz.AddQuestion | QuizPlatform.java:101-103 | The question is appended at the end, and the earlier questions keep their order |
| QuizSession.Quiz.Conduct | QuizPlatform.java:105-123 | The score starts at 0 on every call. The session completes exactly when there is an answer line for every question, and then the score is the number of accepted answers. The output is each question's display, the answer prompt with "Correct!" or "Incorrect.", and an empty line, followed by the summary line. When the answers run out, the output stops after the next question's display and prompt, with no summary |
| QuizSession.ScoreStep | QuizPlatform.java:113-116 | Answering one more question adds 1 to the score exactly when its answer is accepted, and 0 otherwise |
| QuizSession.CorrectPositionsStep | QuizPlatform.java:109-118 | The set of correctly answered positions grows by the new position exactly when its answer is accepted |
| QuizSession.ScoreCountsCorrectPositions | QuizPlatform.java:106-122 | The score equals the number of positions whose answer is accepted |
| QuizSession.ScoreAppend | QuizPlatform.java:109-118 | The score of two consecutive groups of questions is the sum of their scores |
| QuizSession.FullScoreIffAllCorrect | QuizPlatform.java:113-122 | The score equals the number of questions exactly when every answer is accepted |
| QuizSession.ZeroScoreIffNoneCorrect | QuizPlatform.java:113-122 | The score is 0 exactly when no answer is accepted |
| QuizSession.TranscriptStep | QuizPlatform.java:109-120 | Answering one more question appends exactly that question's block of output |
| QuizSession.ExchangeInTranscript | QuizPlatform.java:109-120 | The block for question i sits in the full output right after the blocks of the questions before it |
| QuizSession.FeedbackLine | QuizPlatform.java:110-118 | In the full output, question i's display is followed by the answer prompt and the verdict on answer i |
| QuizSession.SampleRightAnswerAccepted | QuizPlatform.java:154-170 | Each of the ten start-up questions accepts its listed right answer, for example "jupiter", "Product", "h2o" and "+2" |
| QuizSession.SampleAllCorrect | QuizPlatform.java:153-171 | Right answers to the ten start-up questions score 10 and print "Quiz completed. Your score: 10/10" |
| QuizSession.SampleFirstWrong | QuizPlatform.java:153-171 | Answering "Paris" to the first question and right to the rest scores 9 and prints "9/10". Only the first verdict is wrong |
| QuizSession.SampleSession | QuizPlatform.java:153-171 | Building the start-up quiz with `AddQuestion` and conducting it with the right answers completes with score 10 and the 10/10 summary |

## Left out

- Console I/O is not modelled. What is printed to `System.out` becomes the `output` result of `Conduct`, one string per line. The `answers` parameter is the sequence of lines that `conduct`'s own `Scanner` (`QuizPlatform.java:107`) obtains.
  - `main` creates a separate `Scanner` on the same `System.in` (`QuizPlatform.java:138`). With piped input it may buffer the answer lines, so `conduct`'s `nextLine` fails on the first question. The model does not capture this buffering.
  - The answer prompt is printed without a line break, so it shares a line with the verdict printed after it.
  - The typed answer's echo is not part of the output.
  - `scanner.close()` is not modelled.
- QuizSession.Quiz.Conduct: running out of input makes `nextLine` throw `NoSuchElementException`, ending the program. The model represents this as `completed == false`, with the output printed up to that point. The exception itself is not modelled.
- `Login.authenticate` and the login dialogue in `main` are not modelled. They are a fixed credential comparison outside the quiz logic. `main`'s ten questions appear only as the concrete scenario `SampleQuestions`.
- Unicode is not modelled.
  - `equalsIgnoreCase` folds only ASCII letters. Java also folds other letters, such as accented ones.
  - Java also matches some non-ASCII characters against ASCII letters: dotless `ı` (U+0131) upper-cases to `I`, `İ` (U+0130) lower-cases to `i`, and the Kelvin sign (U+212A) lower-cases to `k`. So Java accepts "Jupıter" and "JupİTER" against the stored "Jupiter", and the model rejects both.
  - This does not change the true/false reading, because no non-ASCII character folds to `t`, `r`, `u` or `e`.
  - `parseInt` accepts only ASCII digits. Java's `Character.digit` also accepts other Unicode decimal digits.
- JavaLang.ParseInt: defined by the accepted syntax and the exact value with a range check, rather than by the JDK's digit-by-digit accumulation loop. Both accept the same strings with the same values.
- Questions.DisplayedNumberSelects: stated only for option numbers up to the largest `int`. A list with more options than that cannot be built in Java.
- `int` overflow of `score` and of `i + 1` is not modelled. Neither can exceed the number of questions or options, which a Java list keeps within the `int` range.
- Java `null` is not modelled: the prompt, options, stored text and answers are always strings. `nextLine` never returns `null`.
- The sharing of the options list between the caller and the question is not modelled. Options are stored as a value, which matches the immutable `List.of` lists the program passes.
