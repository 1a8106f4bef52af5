# TutorAI math tools in Dafny

The TutorAI backend has two tools that its tutoring agent can call, both in
`backend/tools.py`:

- `generate_math_problem(topic, difficulty)` lower-cases both arguments. It
  then picks operand ranges for the difficulty. "easy" and "hard" have their
  own ranges, and every other level gets the medium ones. From random draws
  in those ranges it builds one of six problems: addition, subtraction,
  multiplication, exact division, a sum of two fractions reduced by the gcd,
  or a linear equation `a·x + b = c`. It returns a success record with the
  problem, the solution, the derivation steps, the topic and the difficulty.
  For fractions the record also holds typeset (LaTeX) forms of the problem
  and solution. An unknown topic gives an error record whose message lists
  the six valid topics.
- `get_weather(city)` returns a fixed report for New York, compared without
  regard to case, and an error record naming the city otherwise.

The model states each operation as a pure function. The values that
`random.randint` returns become an explicit input, `draws`. The problem and
solution texts are produced exactly as the source formats them. Each one is
paired with a parser, and the parser is proved to read the text back. The
problem each record poses is checked against an independent definition of
what solves it (`Problems.Solves`), and that solution is proved unique.

The record echoes the lower-cased level (`backend/tools.py:39`, 161), and the
error message names the lower-cased topic (line 38).

Modules, one per file:

| file | module | contents |
|---|---|---|
| wrappers.dfy | Wrappers | `Option` |
| text.dfy | Text | ASCII lower-casing, prefix stripping, containment, joining |
| decimal.dfy | Decimal | `str(int)` and its inverse |
| templates.dfy | Templates | format strings with integer holes: `Fill` and its inverse `Match` |
| divisibility.dfy | Divisibility | divisibility, Euclid's gcd, lowest terms |
| problems.dfy | Problems | topics, problems, answers, what solves a problem, derivation steps |
| rendering.dfy | Rendering | the problem and solution texts, plain and typeset, with their parsers |
| generator.dfy | Generator | draw ranges, the six topic branches, `generate_math_problem` |
| generator_properties.dfy | GeneratorProperties | what the generator's records promise |
| weather.dfy | Weather | `get_weather` |

## Model

| member | source | states |
|---|---|---|
| Generator.GenerateMathProblem | backend/tools.py:38-162 | The result is a success exactly when the lower-cased topic is one of the six names. A success echoes the lower-cased topic and difficulty. It carries typeset fields exactly when the topic is "fraction". An error carries the message for the lower-cased topic. |
| Generator.Build | backend/tools.py:41-146 | Every topic branch, for every admissible draw, gives a well-formed problem of that topic. The answer solves the problem. Every derivation line is true and the last one reaches the answer. Only fractions get a typeset form, and it shows the same problem and answer. |
| Generator.DrawRanges | backend/tools.py:42-139 | The randint ranges of every topic and level, in call order. Every range is non-empty and starts at 1 or above, so no divisor, denominator or coefficient can be zero. |
| Generator.DivisionProblem | backend/tools.py:77-90 | The dividend is divisor × quotient, so the division is exact and the answer is the drawn quotient. |
| Generator.FractionProblem | backend/tools.py:92-126 | The fraction branch yields the problem it was drawn for. Its answer is the sum in lowest terms, its four steps are true, and its typeset form matches. |
| Generator.FractionArithmetic | backend/tools.py:104-106 | The common denominator den1·den2 is positive, and expanding each fraction by the other denominator keeps its value. |
| Generator.EquationProblem | backend/tools.py:128-146 | With constant = coeff·x + term, the drawn x is the answer and the three steps are true. |
| Generator.TopicNames | backend/tools.py:150 | The valid topic names are exactly "addition", "subtraction", "multiplication", "division", "fraction" and "equation", in the order the error message lists them, and the i-th is the name of the i-th topic. |
| Generator.AvailableTopicsText | backend/tools.py:150 | The joined list is the text the error message prints: "addition, subtraction, multiplication, division, fraction, equation". |
| Generator.ErrorMessage | backend/tools.py:150 | The error text is "Unbekanntes Thema '", the topic, "'. Verfügbare Themen: " and then the six names separated by ", ". |
| Generator.ParseDifficulty | backend/tools.py:42-47 | "easy" selects the easy ranges and "hard" the hard ones. Every other level, the empty one included, selects the medium ranges. |
| Generator.AdditionProblem | backend/tools.py:41-51 | The addition branch poses a + b, answers a + b, and its two steps are true and end at that answer. |
| Generator.SubtractionProblem | backend/tools.py:53-63 | The subtraction branch poses a - b, answers a - b, and its two steps are true and end at that answer. |
| Generator.MultiplicationProblem | backend/tools.py:65-75 | The multiplication branch poses a × b, answers a × b, and its two steps are true and end at that answer. |
| Generator.FractionSteps | backend/tools.py:103-126 | The four fraction steps (common denominator, expanding, adding, reducing) are true and end at the sum in lowest terms. |
| GeneratorProperties.GeneratedRecordIsSolved | backend/tools.py:153-162 | Read back from a success record: the problem text gives a well-formed problem of the record's topic, and the solution text gives its solution. The derivation ends at that solution. Typeset fields are present exactly for fractions and read back to the same problem and solution. |
| GeneratorProperties.RecordSolutionIsUnique | backend/tools.py:153-162 | Any answer that solves the problem of a solved record is the one its solution text states. |
| GeneratorProperties.SolutionOfDraws | backend/tools.py:50-143 | The solution is the topic's operation on the drawn operands. That is a+b, a-b, a×b, the drawn quotient, the reduced fraction sum, or the drawn x. |
| GeneratorProperties.UnknownTopicIsError | backend/tools.py:147-151 | An error comes back exactly for a topic that is not one of the six. Its status is "error", and its message contains the lower-cased topic and all six names. |
| GeneratorProperties.ErrorMessageNamesTopics | backend/tools.py:150 | The error message contains the topic it was given and every valid topic name. |
| GeneratorProperties.AvailableTopicsListed | backend/tools.py:150 | Every topic name occurs in the comma-separated list. |
| GeneratorProperties.InputCaseDoesNotMatter | backend/tools.py:38-39 | Lower-casing the topic and the level before the call gives the same result. |
| GeneratorProperties.EveryTopicNameSucceeds | backend/tools.py:41-146 | Each of the six topic names gives a success record of that topic, at every level. |
| GeneratorProperties.UnknownDifficultyIsMedium | backend/tools.py:38-47 | A level other than "easy" or "hard" gives the same result as "medium", except that the record echoes the lower-cased level as passed. |
| GeneratorProperties.AnswerWithinRange | backend/tools.py:41-143 | Every whole-number solution lies in the range its drawn operands allow. For example, easy addition gives 2..40 and easy subtraction gives 0..29. |
| GeneratorProperties.SubtractionMayBeNegative | backend/tools.py:58-62 | Medium subtraction can give a negative answer (30 - 50 = -20). |
| GeneratorProperties.DivisionIsExact | backend/tools.py:78-88 | The divisor is at least 2, the dividend is divisible by it, and the quotient is the returned solution. |
| GeneratorProperties.EquationRootIsExact | backend/tools.py:129-143 | The coefficient lies in 2..10. (constant - term) is divisible by it, and the quotient is the drawn x, which is the returned solution. |
| GeneratorProperties.FractionSolutionForm | backend/tools.py:104-118 | The reduced denominator is at least 1 and coprime to the reduced numerator. The reduced fraction equals the cross-multiplied sum over den1·den2. The solution is "p/q" unless the reduced denominator is 1, in which case it is the bare numerator, and the typeset solution follows the same rule. |
| GeneratorProperties.KnownTopicRecord | backend/tools.py:153-162 | For a known topic, the record holds the problem text, solution text and typeset form of the problem built from the draws. |
| GeneratorProperties.DivisionExample | backend/tools.py:77-90 | "division", "easy" with divisor 4 and quotient 7 gives "28 ÷ 4 = ?" with solution "7". |
| GeneratorProperties.FractionExample | backend/tools.py:92-118 | "fraction", "easy" with 1/2 + 1/2 gives "1/2 + 1/2 = ?" with solution "1" and typeset solution "$$1$$". |
| Problems.ParseTopic | backend/tools.py:41-147 | Recognises exactly the six topic names and gives back the topic named. |
| Problems.SolvesUnique | backend/tools.py:50-143 | A well-formed problem has at most one solution, for fractions among answers in lowest terms. |
| Problems.Lowest | backend/tools.py:109-118 | Dividing by the gcd gives an answer in lowest terms with the same value. |
| Problems.LowestWholeIffDivides | backend/tools.py:117-118 | The reduced fraction is a whole number exactly when the denominator divides the numerator. |
| Divisibility.Gcd | backend/tools.py:109-110 | math.gcd: zero only for gcd(0, 0). |
| Divisibility.GcdDividesBoth | backend/tools.py:110-112 | The gcd divides both arguments. |
| Divisibility.GcdGreatest | backend/tools.py:110-112 | Every common divisor divides the gcd. |
| Divisibility.ReducedIsCoprime | backend/tools.py:110-112 | After both parts are divided by their gcd, they are coprime. |
| Divisibility.LowestTermsUnique | backend/tools.py:110-112 | Two fractions in lowest terms with the same value are equal. |
| Rendering.ProblemTextFormat | backend/tools.py:49-142 | Each problem line is the source's f-string for its topic, with the numbers printed in: "a + b = ?", "a - b = ?", "a × b = ?", "a ÷ b = ?", "n1/d1 + n2/d2 = ?" and "ax + b = c, löse nach x auf". |
| Rendering.TypesetProblemFormat | backend/tools.py:115 | The typeset fraction problem is "$$\\frac{n1}{d1} + \\frac{n2}{d2} = ?$$" with the four numbers printed in. |
| Rendering.ProblemText | backend/tools.py:49-142 | Every problem text reads back, with the reader of its topic, as the problem it shows. |
| Rendering.TypesetProblem | backend/tools.py:115 | The typeset fraction problem reads back as the problem it shows. |
| Rendering.AnswerText | backend/tools.py:118-157 | Every solution text reads back as the answer it shows. It contains "/" exactly when the answer is not a whole number (a `Ratio`). |
| Rendering.AnswerTypeset | backend/tools.py:117 | The typeset fraction solution reads back as the answer it shows. |
| Decimal.IntToString | backend/tools.py:49-157 | str(int): non-empty, and starts with '-' exactly for negative numbers. |
| Decimal.IntPrefixRoundTrip | backend/tools.py:49-157 | An integer's text followed by a non-digit reads back as the integer. |
| Templates.MatchFill | backend/tools.py:49-142 | Filling a format whose holes are separated by literal text and matching the result gives back the values. |
| Text.Lower | backend/tools.py:12 | str.lower on ASCII: same length, and each capital is replaced by its lower-case letter. |
| Text.LowerEqualsIffIgnoringCase | backend/tools.py:12 | Comparing the lowered input with a lower-case word is a case-insensitive comparison. |
| Text.JoinContainsItems | backend/tools.py:150 | A joined list contains each of its items. |
| Weather.GetWeather | backend/tools.py:3-24 | The report comes back exactly when the city spells "new york" in any mix of capitals, and it is the fixed New York report. Any other city gets an error message from which the city reads back as passed. |
| Weather.UnavailableMessage | backend/tools.py:23 | The error message gives back the city it names. |
| Weather.CityOfMessage | backend/tools.py:23 | When the city is read back from a message, that message is "Weather information for '", the city and "' is not available." |
| Weather.UnavailableMessageInjective | backend/tools.py:20-23 | Different cities get different error messages. |
| Weather.CaseDoesNotMatterForReport | backend/tools.py:12 | Two spellings of a city that differ only in capitals both get the report or both do not. |
| Weather.NewYorkSpellings | backend/tools.py:12-19 | "New York", "NEW YORK" and "new york" all get the report. |

## Left out

- The pseudo-random number generator is not modelled. The values `random.randint` returns are the `draws` input, and `Generator.ValidDraws` requires each draw to lie in its call's range.
- Steps are not modelled as German text. Each "Schritt" line is modelled as the equation or action it states (`Problems.Step`), and `Problems.Holds` says that equation is true.
- Equation step 2 is not modelled as Python prints it. It prints `(c - b) / a` with float division, for example `7.0`. The model states the integer fact instead: the division is exact and its quotient is x.
- Text.Lower: lower-cases ASCII capitals only, not all of Unicode as `str.lower` does. For matching a name this differs only at KELVIN SIGN (U+212A), which Python lowers to "k": `get_weather("NEW YOR\u212A")` succeeds in Python but not in the model.
- Text.Lower: echoed text keeps its non-ASCII capitals. Difficulty "ÉASY" is echoed as "éasy" by Python and as "Éasy" by the model. The unknown topic "GÉOMÉTRIE" appears as 'géométrie' in Python's error message and as 'gÉomÉtrie' in the model's.
- Text.Lower: keeps the length of its input, while Python lowers "İ" (U+0130) to two characters, "i" followed by a combining dot.
- Generator.GenerateMathProblem: the default value "medium" of `difficulty` is not modelled; callers pass the level explicitly. `GeneratorProperties.UnknownDifficultyIsMedium` shows that every level other than "easy" and "hard" behaves as "medium" does.
- The error message's list of topics is built as the six names joined with ", ", not written as one literal string. `Generator.AvailableTopicsText` proves that the list equals the literal, stated piece by piece ("addition, " + "subtraction, " + …).
- The Python dictionary keys are not modelled. Records are datatypes: `problem_latex` and `solution_latex` form the optional `Typeset` part, and `status` is `Status()`.
- The agent (`backend/agent.py`, a call to a remote model), the FastAPI routes and the React front end are not part of this model. They are I/O and a foreign client.
