/**
 * What generate_math_problem promises its callers, stated on the record it
 * returns and proved for every input and every admissible draw.
 */
module GeneratorProperties {
  import opened Wrappers
  import opened Text
  import opened Decimal
  import opened Divisibility
  import opened Problems
  import opened Rendering
  import opened Generator

  /**
   * The record read as a whole: its problem text reads back as a
   * well-formed problem of its topic, its solution text reads back as the
   * solution of that problem, every derivation line holds and the last one
   * arrives at that solution, and the typeset fields are present exactly
   * for fractions and show the same problem and solution.
   */
  predicate RecordSolved(rec: MathProblem) {
    match ParseTopic(rec.topic)
    case None => false
    case Some(t) =>
      match ParseProblem(t, rec.problem)
      case None => false
      case Some(inst) =>
        match ParseAnswer(rec.solution)
        case None => false
        case Some(ans) =>
          && WellFormed(inst)
          && Solves(inst, ans)
          && Derives(rec.steps, ans)
          && (rec.typeset.Some? <==> t == Fraction)
          && (rec.typeset.Some? ==>
                && ParseTypesetProblem(rec.typeset.value.problem) == Some(inst)
                && ParseAnswerTypeset(rec.typeset.value.solution) == Some(ans))
  }

  /** Every success record poses a solvable problem and states its solution. */
  lemma GeneratedRecordIsSolved(topic: string, difficulty: string, draws: seq<int>)
    requires DrawsFit(topic, difficulty, draws)
    ensures GenerateMathProblem(topic, difficulty, draws).Success? ==>
              RecordSolved(GenerateMathProblem(topic, difficulty, draws).record)
  {
    var name := Lower(topic);
    match ParseTopic(name)
    case None =>
    case Some(t) =>
      var g := Build(t, ParseDifficulty(Lower(difficulty)), draws);
      var problem, solution := ProblemText(g.instance), AnswerText(g.answer);
      assert ParseProblem(t, problem) == Some(g.instance);
      assert ParseAnswer(solution) == Some(g.answer);
  }

  /** The solution a solved record states is the only solution of its problem. */
  lemma RecordSolutionIsUnique(rec: MathProblem, other: Answer)
    requires RecordSolved(rec)
    requires Solves(ParseProblem(ParseTopic(rec.topic).value, rec.problem).value, other)
    ensures ParseAnswer(rec.solution) == Some(other)
  {
    var inst := ParseProblem(ParseTopic(rec.topic).value, rec.problem).value;
    SolvesUnique(inst, ParseAnswer(rec.solution).value, other);
  }

  lemma AvailableTopicsListed(t: Topic)
    ensures Contains(AvailableTopics, TopicName(t))
  {
    TopicsListed(t);
    var i :| 0 <= i < |Topics| && Topics[i] == t;
    JoinContainsItems(TopicNames(), ", ", i);
  }

  /** The error message names the offending topic and lists all six valid ones. */
  lemma ErrorMessageNamesTopics(name: string)
    ensures Contains(ErrorMessage(name), name)
    ensures forall t: Topic :: Contains(ErrorMessage(name), TopicName(t))
  {
    var head, middle := "Unbekanntes Thema '", "'. Verfügbare Themen: ";
    assert ErrorMessage(name) == head + name + (middle + AvailableTopics);
    ContainsSelf(name);
    ContainsInConcat(head, name, middle + AvailableTopics, name);
    forall t: Topic
      ensures Contains(ErrorMessage(name), TopicName(t))
    {
      AvailableTopicsListed(t);
      assert ErrorMessage(name) == (head + name + middle) + AvailableTopics + "";
      ContainsInConcat(head + name + middle, AvailableTopics, "", TopicName(t));
    }
  }

  /** An unknown topic, and only an unknown topic, gives the error record. */
  lemma UnknownTopicIsError(topic: string, difficulty: string, draws: seq<int>)
    requires DrawsFit(topic, difficulty, draws)
    ensures var r := GenerateMathProblem(topic, difficulty, draws);
            r.Failure? <==> ParseTopic(Lower(topic)).None?
    ensures var r := GenerateMathProblem(topic, difficulty, draws);
            r.Failure? ==>
              && r.Status() == "error"
              && Contains(r.errorMessage, Lower(topic))
              && forall t: Topic :: Contains(r.errorMessage, TopicName(t))
  {
    ErrorMessageNamesTopics(Lower(topic));
  }

  /**
   * A level other than "easy" and "hard" gives what "medium" gives, except
   * that the record echoes the level as it was passed (lower-cased).
   */
  lemma UnknownDifficultyIsMedium(topic: string, difficulty: string, draws: seq<int>)
    requires Lower(difficulty) != "easy" && Lower(difficulty) != "hard"
    requires DrawsFit(topic, difficulty, draws)
    ensures DrawsFit(topic, "medium", draws)
    ensures var r := GenerateMathProblem(topic, difficulty, draws);
            var m := GenerateMathProblem(topic, "medium", draws);
            && r.Success? == m.Success?
            && (r.Success? ==> r.record == m.record.(difficulty := Lower(difficulty)))
            && (r.Failure? ==> r == m)
  {
    MediumIsMedium();
    assert ParseDifficulty(Lower(difficulty)) == Medium;
    match ParseTopic(Lower(topic))
    case None =>
    case Some(t) =>
      KnownTopicRecord(topic, difficulty, draws, t);
      KnownTopicRecord(topic, "medium", draws, t);
  }

  /** Lower-casing the inputs first changes nothing: the tool ignores capitals. */
  lemma InputCaseDoesNotMatter(topic: string, difficulty: string, draws: seq<int>)
    requires DrawsFit(topic, difficulty, draws)
    ensures DrawsFit(Lower(topic), Lower(difficulty), draws)
    ensures GenerateMathProblem(Lower(topic), Lower(difficulty), draws) == GenerateMathProblem(topic, difficulty, draws)
  {
    LowerIdempotent(topic);
    LowerIdempotent(difficulty);
  }

  /** Every topic name, in any level, gives a success record of that topic. */
  lemma EveryTopicNameSucceeds(t: Topic, difficulty: string, draws: seq<int>)
    requires ValidDraws(t, ParseDifficulty(Lower(difficulty)), draws)
    ensures DrawsFit(TopicName(t), difficulty, draws)
    ensures var r := GenerateMathProblem(TopicName(t), difficulty, draws);
            r.Success? && r.record.topic == TopicName(t)
  {
    var name := TopicName(t);
    NameIsLowerCase(t);
    ParseTopicName(t);
    KnownTopicRecord(name, difficulty, draws, t);
  }

  lemma NameIsLowerCase(t: Topic)
    ensures Lower(TopicName(t)) == TopicName(t)
  {
    match t
    case Addition => LowerOfLowerCase("addition");
    case Subtraction => LowerOfLowerCase("subtraction");
    case Multiplication => LowerOfLowerCase("multiplication");
    case Division => LowerOfLowerCase("division");
    case Fraction => LowerOfLowerCase("fraction");
    case Equation => LowerOfLowerCase("equation");
  }

  lemma MediumIsMedium()
    ensures Lower("medium") == "medium" && ParseDifficulty("medium") == Medium
  {
    LowerOfLowerCase("medium");
  }

  /**
   * The solution is the topic's operation applied to the drawn operands:
   * a + b, a - b, a × b, the drawn quotient, the reduced sum of the two
   * drawn fractions, or the drawn root x.
   */
  lemma SolutionOfDraws(t: Topic, d: Difficulty, draws: seq<int>)
    requires ValidDraws(t, d, draws)
    ensures var ans := Build(t, d, draws).answer;
            match t
            case Addition => ans == Whole(draws[0] + draws[1])
            case Subtraction => ans == Whole(draws[0] - draws[1])
            case Multiplication => ans == Whole(draws[0] * draws[1])
            case Division => ans == Whole(draws[1])
            case Fraction =>
              && InLowestTerms(ans)
              && Denotes(ans, draws[0] * draws[3] + draws[2] * draws[1], draws[1] * draws[3])
            case Equation => ans == Whole(draws[0])
  {
    var ranges := DrawRanges(t, d);
    assert |draws| == |ranges|;
    if t == Division {
      DivisionIsExact(d, draws);
    } else if t == Equation {
      EquationRootIsExact(d, draws);
    }
  }

  /** The solution range of each whole-number topic at each level. */
  function AnswerRange(t: Topic, d: Difficulty): Range
    requires t != Fraction
  {
    match t
    case Addition =>
      (match d case Easy => Range(2, 40) case Hard => Range(200, 1000) case Medium => Range(40, 200))
    case Subtraction =>
      (match d case Easy => Range(0, 29) case Hard => Range(0, 550) case Medium => Range(-20, 140))
    case Multiplication =>
      (match d case Easy => Range(4, 100) case Hard => Range(225, 2500) case Medium => Range(100, 625))
    case Division =>
      (match d case Easy => Range(2, 10) case Hard => Range(10, 30) case Medium => Range(5, 20))
    case Equation =>
      (match d case Easy => Range(1, 10) case Hard => Range(10, 50) case Medium => Range(5, 25))
  }

  lemma MulLe(x: int, y: int, c: int)
    requires 0 <= c && x <= y
    ensures x * c <= y * c
  {
    assert y * c - x * c == (y - x) * c;
  }

  lemma MulWithin(a: int, b: int, lo: int, hi: int)
    requires 0 <= lo <= a <= hi && lo <= b <= hi
    ensures lo * lo <= a * b <= hi * hi
  {
    MulLe(lo, a, lo);
    MulLe(lo, b, a);
    MulLe(a, hi, b);
    MulLe(b, hi, hi);
    assert a * b == b * a;
  }

  /** Whole-number solutions stay within the range the drawn operands allow. */
  lemma AnswerWithinRange(t: Topic, d: Difficulty, draws: seq<int>)
    requires ValidDraws(t, d, draws) && t != Fraction
    ensures Build(t, d, draws).answer.Whole?
    ensures AnswerRange(t, d).Includes(Build(t, d, draws).answer.n)
  {
    var ranges := DrawRanges(t, d);
    assert ranges[0].Includes(draws[0]) && ranges[1].Includes(draws[1]);
    if t == Multiplication {
      MulWithin(draws[0], draws[1], ranges[0].lo, ranges[0].hi);
    }
  }

  /** Medium subtraction can go below zero: 30 - 50. */
  lemma SubtractionMayBeNegative()
    ensures ValidDraws(Subtraction, Medium, [30, 50])
    ensures Build(Subtraction, Medium, [30, 50]).answer == Whole(-20)
  {
  }

  /** The dividend is divisor × quotient, so the division is exact and the divisor is never below 2. */
  lemma DivisionIsExact(d: Difficulty, draws: seq<int>)
    requires ValidDraws(Division, d, draws)
    ensures var g := Build(Division, d, draws);
            && g.instance.Quotient?
            && g.instance.divisor >= 2
            && g.instance.dividend % g.instance.divisor == 0
            && g.answer == Whole(g.instance.dividend / g.instance.divisor)
            && g.answer == Whole(draws[1])
  {
    var ranges := DrawRanges(Division, d);
    assert ranges[0].Includes(draws[0]);
    DivModUnique(draws[0] * draws[1], draws[0], draws[1], 0);
  }

  /** The constant is coeff·x + term, so (constant - term) is divisible by coeff with quotient x. */
  lemma EquationRootIsExact(d: Difficulty, draws: seq<int>)
    requires ValidDraws(Equation, d, draws)
    ensures var g := Build(Equation, d, draws);
            && g.instance.LinearEquation?
            && 2 <= g.instance.coeff <= 10
            && (g.instance.constant - g.instance.term) % g.instance.coeff == 0
            && g.answer == Whole((g.instance.constant - g.instance.term) / g.instance.coeff)
            && g.answer == Whole(draws[0])
  {
    var ranges := DrawRanges(Equation, d);
    assert ranges[2].Includes(draws[2]);
    DivModUnique(draws[2] * draws[0], draws[2], draws[0], 0);
  }

  /**
   * The fraction solution: the cross-multiplied sum over den1·den2, divided
   * by the gcd; "p/q" unless the reduced denominator is 1, then the bare
   * numerator. The typeset solution follows the same rule.
   */
  lemma FractionSolutionForm(num1: nat, den1: nat, num2: nat, den2: nat)
    requires den1 > 0 && den2 > 0
    ensures
      var common := den1 * den2;
      var resultNum := num1 * den2 + num2 * den1;
      var g := Gcd(resultNum, common);
      g > 0 &&
      var finalNum, finalDen := resultNum / g, common / g;
      var ans := FractionProblem(num1, den1, num2, den2).answer;
      && finalDen >= 1
      && Gcd(finalNum, finalDen) == 1
      && finalNum * common == resultNum * finalDen
      && AnswerText(ans) ==
           (if finalDen != 1 then IntToString(finalNum) + "/" + IntToString(finalDen) else IntToString(finalNum))
      && AnswerTypeset(ans) ==
           (if finalDen != 1 then "$$\\frac{" + IntToString(finalNum) + "}{" + IntToString(finalDen) + "}$$"
            else "$$" + IntToString(finalNum) + "$$")
  {
    var common := den1 * den2;
    var resultNum := num1 * den2 + num2 * den1;
    var g := Gcd(resultNum, common);
    GcdDividesBoth(resultNum, common);
    ReducedIsCoprime(resultNum, common);
    DividesWitness(g, resultNum);
    DividesWitness(g, common);
    var finalNum, finalDen := resultNum / g, common / g;
    assert finalNum * common == resultNum * finalDen by {
      assert finalNum * (g * finalDen) == (g * finalNum) * finalDen;
    }
  }

  /** A known topic yields the record built from that topic's draws. */
  lemma KnownTopicRecord(topic: string, difficulty: string, draws: seq<int>, t: Topic)
    requires ParseTopic(Lower(topic)) == Some(t)
    requires ValidDraws(t, ParseDifficulty(Lower(difficulty)), draws)
    ensures DrawsFit(topic, difficulty, draws)
    ensures var g := Build(t, ParseDifficulty(Lower(difficulty)), draws);
            var r := GenerateMathProblem(topic, difficulty, draws);
            && r.Success?
            && r.record.problem == ProblemText(g.instance)
            && r.record.solution == AnswerText(g.answer)
            && r.record.typeset == (if t == Fraction then g.typeset else None)
  {
  }

  lemma DivisionTexts(dividend: int, divisor: int, quotient: int)
    requires dividend == 28 && divisor == 4 && quotient == 7
    ensures ProblemText(Quotient(dividend, divisor)) == "28 ÷ 4 = ?"
    ensures AnswerText(Whole(quotient)) == "7"
  {
    var inst := Quotient(dividend, divisor);
    ProblemTextFormat(inst);
    assert ProblemText(inst) == IntToString(dividend) + (" ÷ " + (IntToString(divisor) + " = ?"));
    DivisionNumbers(dividend, divisor, quotient);
    DivisionLiterals();
  }

  lemma DivisionLiterals()
    ensures "28" + (" ÷ " + ("4" + " = ?")) == "28 ÷ 4 = ?"
  {
  }

  lemma DivisionNumbers(dividend: int, divisor: int, quotient: int)
    requires dividend == 28 && divisor == 4 && quotient == 7
    ensures IntToString(dividend) == "28" && IntToString(divisor) == "4" && IntToString(quotient) == "7"
  {
  }

  lemma DivisionBuild(draws: seq<int>)
    requires draws == [4, 7]
    ensures ValidDraws(Division, Easy, draws)
    ensures var g := Build(Division, Easy, draws);
            ProblemText(g.instance) == "28 ÷ 4 = ?" && AnswerText(g.answer) == "7"
  {
    var g := Build(Division, Easy, draws);
    assert g == DivisionProblem(draws[0], draws[1]);
    assert g.instance == Quotient(4 * 7, 4) && g.answer == Whole(7);
    DivisionTexts(4 * 7, 4, 7);
  }

  /** Division, easy, divisor 4 and quotient 7: "28 ÷ 4 = ?" with solution "7". */
  lemma DivisionExample(topic: string, difficulty: string, draws: seq<int>)
    requires topic == "division" && difficulty == "easy" && draws == [4, 7]
    ensures DrawsFit(topic, difficulty, draws)
    ensures var r := GenerateMathProblem(topic, difficulty, draws);
            r.Success? && r.record.problem == "28 ÷ 4 = ?" && r.record.solution == "7"
  {
    LowerOfLowerCase(topic);
    LowerOfLowerCase(difficulty);
    assert ParseTopic(topic) == Some(Division);
    assert ParseDifficulty(difficulty) == Easy;
    DivisionBuild(draws);
    KnownTopicRecord(topic, difficulty, draws, Division);
  }

  lemma HalvesLiterals()
    ensures "1" + ("/" + ("2" + (" + " + ("1" + ("/" + ("2" + " = ?")))))) == "1/2 + 1/2 = ?"
    ensures "$$\\frac{" + ("1" + ("}{" + ("2" + ("} + \\frac{" + ("1" + ("}{" + ("2" + "} = ?$$")))))))
         == "$$\\frac{1}{2} + \\frac{1}{2} = ?$$"
  {
  }

  lemma HalvesAnswer(one: nat, two: nat)
    requires one == 1 && two == 2
    ensures FractionProblem(one, two, one, two).answer == Whole(1)
  {
    assert Gcd(4, 4) == 4;
    assert Lowest(4, 4) == Whole(1);
  }

  lemma HalvesTexts(inst: Instance)
    requires inst == FractionSum(1, 2, 1, 2)
    ensures ProblemText(inst) == "1/2 + 1/2 = ?"
    ensures TypesetProblem(inst) == "$$\\frac{1}{2} + \\frac{1}{2} = ?$$"
  {
    assert IntToString(1) == "1" && IntToString(2) == "2";
    ProblemTextFormat(inst);
    TypesetProblemFormat(1, 2, 1, 2);
    HalvesLiterals();
  }

  lemma HalvesSum(one: nat, two: nat)
    requires one == 1 && two == 2
    ensures var g := FractionProblem(one, two, one, two);
            && ProblemText(g.instance) == "1/2 + 1/2 = ?"
            && AnswerText(g.answer) == "1"
            && g.typeset == Some(Typeset("$$\\frac{1}{2} + \\frac{1}{2} = ?$$", "$$1$$"))
  {
    var g := FractionProblem(one, two, one, two);
    HalvesAnswer(one, two);
    HalvesTexts(g.instance);
    HalvesAnswerTexts(g.answer);
  }

  lemma HalvesAnswerTexts(ans: Answer)
    requires ans == Whole(1)
    ensures AnswerText(ans) == "1" && AnswerTypeset(ans) == "$$1$$"
  {
    assert IntToString(ans.n) == "1";
    assert AnswerTypeset(ans) == "$$" + IntToString(ans.n) + "$$";
  }

  lemma FractionBuild(draws: seq<int>)
    requires draws == [1, 2, 1, 2]
    ensures ValidDraws(Fraction, Easy, draws)
    ensures var g := Build(Fraction, Easy, draws);
            && ProblemText(g.instance) == "1/2 + 1/2 = ?"
            && AnswerText(g.answer) == "1"
            && g.typeset == Some(Typeset("$$\\frac{1}{2} + \\frac{1}{2} = ?$$", "$$1$$"))
  {
    assert Build(Fraction, Easy, draws) == FractionProblem(1, 2, 1, 2);
    HalvesSum(1, 2);
  }

  /** Fraction, easy, 1/2 + 1/2: 4/4 reduces to 1/1 and is shown as the bare "1". */
  lemma FractionExample(topic: string, difficulty: string, draws: seq<int>)
    requires topic == "fraction" && difficulty == "easy" && draws == [1, 2, 1, 2]
    ensures DrawsFit(topic, difficulty, draws)
    ensures var r := GenerateMathProblem(topic, difficulty, draws);
            && r.Success?
            && r.record.problem == "1/2 + 1/2 = ?"
            && r.record.solution == "1"
            && r.record.typeset == Some(Typeset("$$\\frac{1}{2} + \\frac{1}{2} = ?$$", "$$1$$"))
  {
    LowerOfLowerCase(topic);
    LowerOfLowerCase(difficulty);
    assert ParseTopic(topic) == Some(Fraction);
    assert ParseDifficulty(difficulty) == Easy;
    FractionBuild(draws);
    KnownTopicRecord(topic, difficulty, draws, Fraction);
  }
}
