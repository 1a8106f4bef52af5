/**
 * generate_math_problem: lower-case the topic and difficulty, pick the
 * operand ranges for the difficulty (anything but "easy" and "hard" is
 * medium), build one of six problems from the drawn numbers, and return a
 * success record, or an error record for an unknown topic.
 *
 * The random numbers are an input: `draws` holds the values returned by the
 * random.randint calls, in the order the source makes them, and DrawRanges
 * lists the range of each call.
 */
module Generator {
  import opened Wrappers
  import opened Text
  import opened Decimal
  import opened Divisibility
  import opened Problems
  import opened Rendering

  datatype Difficulty = Easy | Medium | Hard

  /** Only "easy" and "hard" are recognised; every other level gets the medium ranges. */
  function ParseDifficulty(s: string): (d: Difficulty)
    ensures d == Easy <==> s == "easy"
    ensures d == Hard <==> s == "hard"
    ensures d == Medium <==> s != "easy" && s != "hard"
  {
    if s == "easy" then Easy else if s == "hard" then Hard else Medium
  }

  /** The closed range of one random.randint(lo, hi) call. */
  datatype Range = Range(lo: int, hi: int) {
    predicate Includes(x: int) {
      lo <= x <= hi
    }
  }

  /** The ranges of the random.randint calls each topic makes, in call order. */
  function DrawRanges(t: Topic, d: Difficulty): (ranges: seq<Range>)
    ensures forall r <- ranges :: 1 <= r.lo <= r.hi
  {
    match t
    case Addition =>                                   // a, b
      (match d
       case Easy => [Range(1, 20), Range(1, 20)]
       case Hard => [Range(100, 500), Range(100, 500)]
       case Medium => [Range(20, 100), Range(20, 100)])
    case Subtraction =>                                // a, b
      (match d
       case Easy => [Range(10, 30), Range(1, 10)]
       case Hard => [Range(200, 600), Range(50, 200)]
       case Medium => [Range(30, 150), Range(10, 50)])
    case Multiplication =>                             // a, b
      (match d
       case Easy => [Range(2, 10), Range(2, 10)]
       case Hard => [Range(15, 50), Range(15, 50)]
       case Medium => [Range(10, 25), Range(10, 25)])
    case Division =>                                   // divisor, quotient
      (match d
       case Easy => [Range(2, 10), Range(2, 10)]
       case Hard => [Range(10, 30), Range(10, 30)]
       case Medium => [Range(5, 15), Range(5, 20)])
    case Fraction =>                                   // num1, den1, num2, den2
      (match d
       case Easy => [Range(1, 5), Range(2, 8), Range(1, 5), Range(2, 8)]
       case Hard => [Range(5, 20), Range(6, 30), Range(5, 20), Range(6, 30)]
       case Medium => [Range(1, 10), Range(2, 12), Range(1, 10), Range(2, 12)])
    case Equation =>                                   // x, term, then the coefficient
      (match d
       case Easy => [Range(1, 10), Range(1, 20), Range(2, 10)]
       case Hard => [Range(10, 50), Range(20, 100), Range(2, 10)]
       case Medium => [Range(5, 25), Range(10, 50), Range(2, 10)])
  }

  /** draws are values random.randint can return for topic t at level d. */
  predicate ValidDraws(t: Topic, d: Difficulty, draws: seq<int>) {
    var ranges := DrawRanges(t, d);
    |draws| == |ranges| && forall i :: 0 <= i < |draws| ==> ranges[i].Includes(draws[i])
  }

  datatype Typeset = Typeset(problem: string, solution: string)

  /** What one topic branch computes before the record is assembled. */
  datatype Generated = Generated(instance: Instance, answer: Answer, steps: seq<Step>, typeset: Option<Typeset>)

  /**
   * The problem is well formed, the answer solves it, the derivation is
   * true and ends at the answer, and only a fraction problem has a typeset
   * form, which shows the same problem and answer.
   */
  predicate Sound(g: Generated) {
    && WellFormed(g.instance)
    && Solves(g.instance, g.answer)
    && Derives(g.steps, g.answer)
    && (g.typeset.Some? <==> g.instance.FractionSum?)
    && (g.instance.FractionSum? ==>
          g.typeset == Some(Typeset(TypesetProblem(g.instance), AnswerTypeset(g.answer))))
  }

  function AdditionProblem(a: int, b: int): (g: Generated)
    ensures Sound(g) && g.instance == Sum(a, b)
  {
    var solution := a + b;
    Generated(Sum(a, b), Whole(solution), [Announce(Plus, a, b), Evaluate(Plus, a, b, solution)], None)
  }

  function SubtractionProblem(a: int, b: int): (g: Generated)
    ensures Sound(g) && g.instance == Difference(a, b)
  {
    var solution := a - b;
    Generated(Difference(a, b), Whole(solution), [Announce(Minus, a, b), Evaluate(Minus, a, b, solution)], None)
  }

  function MultiplicationProblem(a: int, b: int): (g: Generated)
    ensures Sound(g) && g.instance == Product(a, b)
  {
    var solution := a * b;
    Generated(Product(a, b), Whole(solution), [Announce(Times, a, b), Evaluate(Times, a, b, solution)], None)
  }

  /** The divisor and quotient are drawn first and the dividend is their product, so the division is exact. */
  function DivisionProblem(divisor: int, quotient: int): (g: Generated)
    requires divisor != 0
    ensures Sound(g) && g.instance == Quotient(divisor * quotient, divisor) && g.answer == Whole(quotient)
  {
    var dividend := divisor * quotient;
    Generated(
      Quotient(dividend, divisor), Whole(quotient),
      [Announce(Over, dividend, divisor), Evaluate(Over, dividend, divisor, quotient)], None)
  }

  /** Adds the two drawn fractions; the typeset form shows the same problem and answer. */
  function FractionProblem(num1: nat, den1: nat, num2: nat, den2: nat): (g: Generated)
    requires den1 > 0 && den2 > 0
    ensures Sound(g) && g.instance == FractionSum(num1, den1, num2, den2)
  {
    var inst := FractionSum(num1, den1, num2, den2);
    FractionArithmetic(num1, den1, num2, den2);
    var result := Lowest(num1 * den2 + num2 * den1, den1 * den2);
    Generated(inst, result, FractionSteps(num1, den1, num2, den2), Some(Typeset(TypesetProblem(inst), AnswerTypeset(result))))
  }

  /** Adds over the product of the denominators, then reduces by the gcd. */
  function FractionSteps(num1: nat, den1: nat, num2: nat, den2: nat): (steps: seq<Step>)
    requires den1 > 0 && den2 > 0
    ensures den1 * den2 > 0 && Derives(steps, Lowest(num1 * den2 + num2 * den1, den1 * den2))
  {
    var common := den1 * den2;
    var newNum1 := num1 * den2;
    var newNum2 := num2 * den1;
    var resultNum := newNum1 + newNum2;
    var result := Lowest(resultNum, common);
    FractionArithmetic(num1, den1, num2, den2);
    var steps :=
      [ CommonDenominator(den1, den2, common),
        Expand(num1, den1, num2, den2, newNum1, newNum2, common),
        AddOver(newNum1, newNum2, common, resultNum),
        Reduce(resultNum, common, result) ];
    assert Derives(steps, result);
    steps
  }

  /** The product of the denominators is positive, and expanding each fraction keeps its value. */
  lemma FractionArithmetic(num1: nat, den1: nat, num2: nat, den2: nat)
    requires den1 > 0 && den2 > 0
    ensures den1 * den2 > 0
    ensures num1 * (den1 * den2) == (num1 * den2) * den1
    ensures num2 * (den1 * den2) == (num2 * den1) * den2
  {
    MulAtLeast(den1, den2);
  }

  /** x, the term and the coefficient are drawn and the constant is coeff·x + term, so x is the root. */
  function EquationProblem(x: int, term: int, coeff: int): (g: Generated)
    requires coeff > 0
    ensures Sound(g) && g.instance == LinearEquation(coeff, term, coeff * x + term) && g.answer == Whole(x)
  {
    var constant := coeff * x + term;
    var rest := constant - term;
    DivModUnique(rest, coeff, x, 0);
    Generated(
      LinearEquation(coeff, term, constant), Whole(x),
      [Isolate(coeff, term, constant, rest), DivideBy(coeff, rest, rest / coeff), Conclude(x)], None)
  }

  /** The topic branch of the source, fed with the drawn numbers. */
  function Build(t: Topic, d: Difficulty, draws: seq<int>): (g: Generated)
    requires ValidDraws(t, d, draws)
    ensures Sound(g) && TopicOf(g.instance) == t
  {
    var ranges := DrawRanges(t, d);
    assert forall i :: 0 <= i < |draws| ==> draws[i] >= ranges[i].lo >= 1;
    match t
    case Addition => AdditionProblem(draws[0], draws[1])
    case Subtraction => SubtractionProblem(draws[0], draws[1])
    case Multiplication => MultiplicationProblem(draws[0], draws[1])
    case Division => DivisionProblem(draws[0], draws[1])
    case Fraction => FractionProblem(draws[0], draws[1], draws[2], draws[3])
    case Equation => EquationProblem(draws[0], draws[1], draws[2])
  }

  /** The success record; the error record carries only its message. */
  datatype MathProblem = MathProblem(
    problem: string,
    typeset: Option<Typeset>,   // problem_latex and solution_latex
    solution: string,
    steps: seq<Step>,
    topic: string,
    difficulty: string)

  datatype ProblemResult = Success(record: MathProblem) | Failure(errorMessage: string) {
    function Status(): string {
      if Success? then "success" else "error"
    }
  }

  /** The valid topic names, comma separated: "addition, subtraction, ..., equation". */
  const AvailableTopics: string := Join(TopicNames(), ", ")

  /** The six topic names, in the order the generator tests them. */
  function TopicNames(): (names: seq<string>)
    ensures names == ["addition", "subtraction", "multiplication", "division", "fraction", "equation"]
    ensures |names| == |Topics|
    ensures forall i :: 0 <= i < |Topics| ==> names[i] == TopicName(Topics[i])
  {
    seq(|Topics|, i requires 0 <= i < |Topics| => TopicName(Topics[i]))
  }

  /**
   * The joined list is the one the error message prints:
   * "addition, subtraction, multiplication, division, fraction, equation".
   */
  lemma AvailableTopicsText()
    ensures AvailableTopics
         == "addition, " + "subtraction, " + "multiplication, " + "division, " + "fraction, " + "equation"
  {
    var sep := ", ";
    var l5 := ["equation"];
    var l4 := ["fraction"] + l5;
    var l3 := ["division"] + l4;
    var l2 := ["multiplication"] + l3;
    var l1 := ["subtraction"] + l2;
    var l0 := ["addition"] + l1;
    assert l0 == TopicNames();
    JoinCons("fraction", l5, sep);
    JoinCons("division", l4, sep);
    JoinCons("multiplication", l3, sep);
    JoinCons("subtraction", l2, sep);
    JoinCons("addition", l1, sep);
  }

  /** The error message of an unknown topic, as the source prints it. */
  function ErrorMessage(topic: string): (message: string)
    ensures message
         == "Unbekanntes Thema '" + topic + "'. Verfügbare Themen: "
            + ("addition, " + "subtraction, " + "multiplication, " + "division, " + "fraction, " + "equation")
  {
    AvailableTopicsText();
    "Unbekanntes Thema '" + topic + "'. Verfügbare Themen: " + AvailableTopics
  }

  /** The draws fit the ranges of the branch the inputs select; an unknown topic draws nothing. */
  predicate DrawsFit(topic: string, difficulty: string, draws: seq<int>) {
    match ParseTopic(Lower(topic))
    case None => true
    case Some(t) => ValidDraws(t, ParseDifficulty(Lower(difficulty)), draws)
  }

  function GenerateMathProblem(topic: string, difficulty: string, draws: seq<int>): (r: ProblemResult)
    requires DrawsFit(topic, difficulty, draws)
    ensures r.Success? <==> exists t: Topic :: TopicName(t) == Lower(topic)
    ensures r.Success? ==> r.record.topic == Lower(topic) && r.record.difficulty == Lower(difficulty)
    ensures r.Success? ==> (r.record.typeset.Some? <==> Lower(topic) == "fraction")
    ensures r.Failure? ==> r.errorMessage == ErrorMessage(Lower(topic))
  {
    var name := Lower(topic);
    var level := Lower(difficulty);
    match ParseTopic(name)
    case None => Failure(ErrorMessage(name))
    case Some(t) =>
      var g := Build(t, ParseDifficulty(level), draws);
      Success(MathProblem(
        problem := ProblemText(g.instance),
        typeset := if name == "fraction" then g.typeset else None,
        solution := AnswerText(g.answer),
        steps := g.steps,
        topic := name,
        difficulty := level))
  }
}
