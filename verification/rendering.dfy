/**
 * The texts the generator prints: the problem line of each topic, the
 * solution string, and the LaTeX variants of the fraction problem and its
 * solution. Each rendering has a reader that recovers the numbers from it.
 */
module Rendering {
  import opened Wrappers
  import opened Text
  import opened Decimal
  import opened Templates
  import opened Problems

  /** The problem line of each topic, as an f-string of literal text and numbers. */
  function ProblemTemplate(t: Topic): (template: Template)
    ensures Separated(template)
  {
    match t
    case Addition => Number(Lit(" + ", Number(Lit(" = ?", Done))))
    case Subtraction => Number(Lit(" - ", Number(Lit(" = ?", Done))))
    case Multiplication => Number(Lit(" × ", Number(Lit(" = ?", Done))))
    case Division => Number(Lit(" ÷ ", Number(Lit(" = ?", Done))))
    case Fraction =>
      Number(Lit("/", Number(Lit(" + ", Number(Lit("/", Number(Lit(" = ?", Done))))))))
    case Equation =>
      Number(Lit("x + ", Number(Lit(" = ", Number(Lit(", löse nach x auf", Done))))))
  }

  /** The numbers of a problem in the order its text prints them. */
  function Operands(inst: Instance): (values: seq<int>)
    ensures |values| == HoleCount(ProblemTemplate(TopicOf(inst)))
  {
    match inst
    case Sum(a, b) => [a, b]
    case Difference(a, b) => [a, b]
    case Product(a, b) => [a, b]
    case Quotient(a, b) => [a, b]
    case FractionSum(n1, d1, n2, d2) => [n1, d1, n2, d2]
    case LinearEquation(a, b, c) => [a, b, c]
  }

  function FromOperands(t: Topic, values: seq<int>): (inst: Instance)
    requires |values| == HoleCount(ProblemTemplate(t))
    ensures TopicOf(inst) == t && Operands(inst) == values
  {
    match t
    case Addition => Sum(values[0], values[1])
    case Subtraction => Difference(values[0], values[1])
    case Multiplication => Product(values[0], values[1])
    case Division => Quotient(values[0], values[1])
    case Fraction => FractionSum(values[0], values[1], values[2], values[3])
    case Equation => LinearEquation(values[0], values[1], values[2])
  }

  /**
   * The "problem" field: "a + b = ?", "3x + 4 = 19, löse nach x auf", ...
   * Reading the line back gives every number of the problem.
   */
  function ProblemText(inst: Instance): (s: string)
    ensures ParseProblem(TopicOf(inst), s) == Some(inst)
  {
    FilledProblemReadsBack(inst);
    Fill(ProblemTemplate(TopicOf(inst)), Operands(inst))
  }

  lemma FilledProblemReadsBack(inst: Instance)
    ensures ParseProblem(TopicOf(inst), Fill(ProblemTemplate(TopicOf(inst)), Operands(inst))) == Some(inst)
  {
    MatchFill(ProblemTemplate(TopicOf(inst)), Operands(inst));
  }

  /** Reads the numbers back out of the problem line of topic t. */
  function ParseProblem(t: Topic, s: string): Option<Instance> {
    var values :- Match(ProblemTemplate(t), s);
    Some(FromOperands(t, values))
  }

  /** A line "a<mid>b<tail>" with two numbers. */
  lemma FillTwoNumbers(template: Template, mid: string, tail: string, a: int, b: int)
    requires template == Number(Lit(mid, Number(Lit(tail, Done))))
    ensures HoleCount(template) == 2
    ensures Fill(template, [a, b]) == IntToString(a) + (mid + (IntToString(b) + tail))
  {
    assert HoleCount(Lit(tail, Done)) == 0;
    assert HoleCount(Number(Lit(tail, Done))) == 1;
    assert HoleCount(Lit(mid, Number(Lit(tail, Done)))) == 1;
    assert [a, b][1..] == [b] && [b][1..] == [];
    calc {
      Fill(template, [a, b]);
      IntToString(a) + Fill(Lit(mid, Number(Lit(tail, Done))), [b]);
      IntToString(a) + (mid + Fill(Number(Lit(tail, Done)), [b]));
      IntToString(a) + (mid + (IntToString(b) + Fill(Lit(tail, Done), [])));
      IntToString(a) + (mid + (IntToString(b) + (tail + Fill(Done, []))));
    }
  }

  /** Each problem line is the source's f-string with the numbers printed in. */
  lemma ProblemTextFormat(inst: Instance)
    ensures ProblemText(inst) ==
      match inst
      case Sum(a, b) => IntToString(a) + (" + " + (IntToString(b) + " = ?"))
      case Difference(a, b) => IntToString(a) + (" - " + (IntToString(b) + " = ?"))
      case Product(a, b) => IntToString(a) + (" × " + (IntToString(b) + " = ?"))
      case Quotient(a, b) => IntToString(a) + (" ÷ " + (IntToString(b) + " = ?"))
      case FractionSum(n1, d1, n2, d2) =>
        IntToString(n1) + ("/" + (IntToString(d1) + (" + " + (IntToString(n2) + ("/" + (IntToString(d2) + " = ?"))))))
      case LinearEquation(a, b, c) =>
        IntToString(a) + ("x + " + (IntToString(b) + (" = " + (IntToString(c) + ", löse nach x auf"))))
  {
    var template := ProblemTemplate(TopicOf(inst));
    match inst
    case Sum(a, b) => FillTwoNumbers(template, " + ", " = ?", a, b);
    case Difference(a, b) => FillTwoNumbers(template, " - ", " = ?", a, b);
    case Product(a, b) => FillTwoNumbers(template, " × ", " = ?", a, b);
    case Quotient(a, b) => FillTwoNumbers(template, " ÷ ", " = ?", a, b);
    case FractionSum(n1, d1, n2, d2) =>
      var tail := Number(Lit("/", Number(Lit(" = ?", Done))));
      assert [n1, d1, n2, d2][1..] == [d1, n2, d2] && [d1, n2, d2][1..] == [n2, d2];
      FillTwoNumbers(tail, "/", " = ?", n2, d2);
      calc {
        Fill(template, [n1, d1, n2, d2]);
        IntToString(n1) + Fill(Lit("/", Number(Lit(" + ", tail))), [d1, n2, d2]);
        IntToString(n1) + ("/" + Fill(Number(Lit(" + ", tail)), [d1, n2, d2]));
        IntToString(n1) + ("/" + (IntToString(d1) + Fill(Lit(" + ", tail), [n2, d2])));
        IntToString(n1) + ("/" + (IntToString(d1) + (" + " + Fill(tail, [n2, d2]))));
      }
    case LinearEquation(a, b, c) =>
      var tail := Number(Lit(" = ", Number(Lit(", löse nach x auf", Done))));
      assert [a, b, c][1..] == [b, c];
      FillTwoNumbers(tail, " = ", ", löse nach x auf", b, c);
      calc {
        Fill(template, [a, b, c]);
        IntToString(a) + Fill(Lit("x + ", tail), [b, c]);
        IntToString(a) + ("x + " + Fill(tail, [b, c]));
      }
  }

  /** The "problem_latex" field of a fraction problem. */
  const TypesetProblemTemplate: Template :=
    Lit("$$\\frac{", Number(Lit("}{", Number(Lit("} + \\frac{", Number(Lit("}{", Number(Lit("} = ?$$", Done)))))))))

  /** Reading the typeset problem back gives the same four numbers as the plain one. */
  function TypesetProblem(inst: Instance): (s: string)
    requires inst.FractionSum?
    ensures ParseTypesetProblem(s) == Some(inst)
  {
    assert HoleCount(TypesetProblemTemplate) == 4;
    assert Separated(TypesetProblemTemplate);
    MatchFill(TypesetProblemTemplate, Operands(inst));
    Fill(TypesetProblemTemplate, Operands(inst))
  }

  function ParseTypesetProblem(s: string): Option<Instance> {
    var values :- Match(TypesetProblemTemplate, s);
    assert HoleCount(TypesetProblemTemplate) == 4;
    Some(FromOperands(Fraction, values))
  }

  /** The typeset fraction problem is the source's f-string with the four numbers printed in. */
  lemma TypesetProblemFormat(n1: int, d1: int, n2: int, d2: int)
    ensures TypesetProblem(FractionSum(n1, d1, n2, d2)) ==
      "$$\\frac{" + (IntToString(n1) + ("}{" + (IntToString(d1) + ("} + \\frac{"
        + (IntToString(n2) + ("}{" + (IntToString(d2) + "} = ?$$")))))))
  {
    var tail := Number(Lit("}{", Number(Lit("} = ?$$", Done))));
    assert [n1, d1, n2, d2][1..] == [d1, n2, d2] && [d1, n2, d2][1..] == [n2, d2];
    FillTwoNumbers(tail, "}{", "} = ?$$", n2, d2);
    calc {
      Fill(TypesetProblemTemplate, [n1, d1, n2, d2]);
      "$$\\frac{" + Fill(Number(Lit("}{", Number(Lit("} + \\frac{", tail)))), [n1, d1, n2, d2]);
      "$$\\frac{" + (IntToString(n1) + Fill(Lit("}{", Number(Lit("} + \\frac{", tail))), [d1, n2, d2]));
      "$$\\frac{" + (IntToString(n1) + ("}{" + Fill(Number(Lit("} + \\frac{", tail)), [d1, n2, d2])));
      "$$\\frac{" + (IntToString(n1) + ("}{" + (IntToString(d1) + Fill(Lit("} + \\frac{", tail), [n2, d2]))));
      "$$\\frac{" + (IntToString(n1) + ("}{" + (IntToString(d1) + ("} + \\frac{" + Fill(tail, [n2, d2])))));
    }
  }

  const WholeTemplate: Template := Number(Done)
  const RatioTemplate: Template := Number(Lit("/", Number(Done)))
  const WholeTypesetTemplate: Template := Lit("$$", Number(Lit("$$", Done)))
  const RatioTypesetTemplate: Template := Lit("$$\\frac{", Number(Lit("}{", Number(Lit("}$$", Done)))))

  /**
   * The "solution" field: str(n), or "p/q" for a fraction. The text
   * determines the answer, and it contains '/' exactly for a fraction.
   */
  function AnswerText(ans: Answer): (s: string)
    ensures ParseAnswer(s) == Some(ans)
    ensures '/' in s <==> ans.Ratio?
  {
    match ans
    case Whole(n) =>
      WholeTextRoundTrip(n);
      NoSlashInInteger(n);
      IntToString(n)
    case Ratio(p, q) =>
      RatioTextRoundTrip(p, q);
      RatioTextHasSlash(p, q);
      IntToString(p) + "/" + IntToString(q)
  }

  /**
   * The "solution_latex" field: "$$n$$", or "$$\frac{p}{q}$$" for a
   * fraction. The text determines the answer.
   */
  function AnswerTypeset(ans: Answer): (s: string)
    ensures ParseAnswerTypeset(s) == Some(ans)
  {
    match ans
    case Whole(n) =>
      WholeTypesetIsNotRatio(n);
      FillWholeTypeset(n);
      MatchFill(WholeTypesetTemplate, [n]);
      "$$" + IntToString(n) + "$$"
    case Ratio(p, q) =>
      FillRatioTypeset(p, q);
      MatchFill(RatioTypesetTemplate, [p, q]);
      "$$\\frac{" + IntToString(p) + "}{" + IntToString(q) + "}$$"
  }

  function ParseAnswer(s: string): Option<Answer> {
    match Match(RatioTemplate, s)
    case Some(values) =>
      assert HoleCount(RatioTemplate) == 2;
      Some(Ratio(values[0], values[1]))
    case None =>
      var values :- Match(WholeTemplate, s);
      assert HoleCount(WholeTemplate) == 1;
      Some(Whole(values[0]))
  }

  function ParseAnswerTypeset(s: string): Option<Answer> {
    match Match(RatioTypesetTemplate, s)
    case Some(values) =>
      assert HoleCount(RatioTypesetTemplate) == 2;
      Some(Ratio(values[0], values[1]))
    case None =>
      var values :- Match(WholeTypesetTemplate, s);
      assert HoleCount(WholeTypesetTemplate) == 1;
      Some(Whole(values[0]))
  }

  lemma WholeTextRoundTrip(n: int)
    ensures ParseAnswer(IntToString(n)) == Some(Whole(n))
  {
    var s := IntToString(n);
    assert s == IntToString(n) + "";
    IntPrefixRoundTrip(n, "");
    assert Match(Lit("/", Number(Done)), "") == None;
    assert Match(RatioTemplate, s) == None;
    assert Fill(WholeTemplate, [n]) == s by {
      assert [n][1..] == [];
      assert Fill(Done, []) == "";
    }
    MatchFill(WholeTemplate, [n]);
  }

  lemma RatioTextRoundTrip(p: int, q: int)
    ensures ParseAnswer(IntToString(p) + "/" + IntToString(q)) == Some(Ratio(p, q))
  {
    assert Fill(RatioTemplate, [p, q]) == IntToString(p) + "/" + IntToString(q) by {
      assert [p, q][1..] == [q] && [q][1..] == [];
      calc {
        Fill(RatioTemplate, [p, q]);
        IntToString(p) + Fill(Lit("/", Number(Done)), [q]);
        IntToString(p) + ("/" + Fill(Number(Done), [q]));
        IntToString(p) + ("/" + (IntToString(q) + Fill(Done, [])));
      }
    }
    MatchFill(RatioTemplate, [p, q]);
  }

  lemma FillWholeTypeset(n: int)
    ensures Fill(WholeTypesetTemplate, [n]) == "$$" + IntToString(n) + "$$"
  {
    assert [n][1..] == [];
    calc {
      Fill(WholeTypesetTemplate, [n]);
      "$$" + Fill(Number(Lit("$$", Done)), [n]);
      "$$" + (IntToString(n) + Fill(Lit("$$", Done), []));
      "$$" + (IntToString(n) + ("$$" + Fill(Done, [])));
    }
  }

  lemma FillRatioTypeset(p: int, q: int)
    ensures Fill(RatioTypesetTemplate, [p, q]) == "$$\\frac{" + IntToString(p) + "}{" + IntToString(q) + "}$$"
  {
    assert [p, q][1..] == [q] && [q][1..] == [];
    calc {
      Fill(RatioTypesetTemplate, [p, q]);
      "$$\\frac{" + Fill(Number(Lit("}{", Number(Lit("}$$", Done)))), [p, q]);
      "$$\\frac{" + (IntToString(p) + Fill(Lit("}{", Number(Lit("}$$", Done))), [q]));
      "$$\\frac{" + (IntToString(p) + ("}{" + Fill(Number(Lit("}$$", Done)), [q])));
      "$$\\frac{" + (IntToString(p) + ("}{" + (IntToString(q) + Fill(Lit("}$$", Done), []))));
      "$$\\frac{" + (IntToString(p) + ("}{" + (IntToString(q) + ("}$$" + Fill(Done, [])))));
    }
  }

  /** A typeset whole number does not start like a typeset fraction. */
  lemma WholeTypesetIsNotRatio(n: int)
    ensures Match(RatioTypesetTemplate, "$$" + IntToString(n) + "$$") == None
  {
    var s := "$$" + IntToString(n) + "$$";
    assert s[2] == IntToString(n)[0];
    assert !("$$\\frac{" <= s);
  }

  /** A printed integer has no '/' in it. */
  lemma NoSlashInInteger(n: int)
    ensures '/' !in IntToString(n)
  {
    var s := IntToString(n);
    forall i | 0 <= i < |s|
      ensures s[i] != '/'
    {
      if n < 0 && i > 0 {
        assert s[i] == s[1..][i - 1];
      }
    }
  }

  /** "p/q" has its '/' right after the numerator. */
  lemma RatioTextHasSlash(p: int, q: int)
    ensures '/' in IntToString(p) + "/" + IntToString(q)
  {
    var s := IntToString(p) + "/" + IntToString(q);
    assert s[|IntToString(p)|] == '/';
  }
}
