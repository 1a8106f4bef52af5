/**
 * The problems the generator poses: the six topics, the numbers each
 * problem shows, what counts as its solution, and the derivation steps
 * printed with it. Nothing here draws numbers; see module Generator.
 */
module Problems {
  import opened Wrappers
  import opened Divisibility

  datatype Topic = Addition | Subtraction | Multiplication | Division | Fraction | Equation

  /** The topics in the order the generator tests them and the error message lists them. */
  const Topics: seq<Topic> := [Addition, Subtraction, Multiplication, Division, Fraction, Equation]

  function TopicName(t: Topic): string {
    match t
    case Addition => "addition"
    case Subtraction => "subtraction"
    case Multiplication => "multiplication"
    case Division => "division"
    case Fraction => "fraction"
    case Equation => "equation"
  }

  /** The topic named exactly s (already lower-cased), if any. */
  function ParseTopic(s: string): (r: Option<Topic>)
    ensures r.Some? ==> TopicName(r.value) == s
    ensures r.None? ==> forall t: Topic :: TopicName(t) != s
  {
    if s == "addition" then Some(Addition)
    else if s == "subtraction" then Some(Subtraction)
    else if s == "multiplication" then Some(Multiplication)
    else if s == "division" then Some(Division)
    else if s == "fraction" then Some(Fraction)
    else if s == "equation" then Some(Equation)
    else None
  }

  lemma ParseTopicName(t: Topic)
    ensures ParseTopic(TopicName(t)) == Some(t)
  {
  }

  lemma TopicsListed(t: Topic)
    ensures t in Topics
  {
  }

  /** The numbers a generated problem shows, one shape per topic. */
  datatype Instance =
    | Sum(augend: int, addend: int)                              // augend + addend = ?
    | Difference(minuend: int, subtrahend: int)                  // minuend - subtrahend = ?
    | Product(multiplicand: int, multiplier: int)                // multiplicand × multiplier = ?
    | Quotient(dividend: int, divisor: int)                      // dividend ÷ divisor = ?
    | FractionSum(num1: int, den1: int, num2: int, den2: int)    // num1/den1 + num2/den2 = ?
    | LinearEquation(coeff: int, term: int, constant: int)       // coeff·x + term = constant

  function TopicOf(inst: Instance): Topic {
    match inst
    case Sum(_, _) => Addition
    case Difference(_, _) => Subtraction
    case Product(_, _) => Multiplication
    case Quotient(_, _) => Division
    case FractionSum(_, _, _, _) => Fraction
    case LinearEquation(_, _, _) => Equation
  }

  /** The problem is meaningful: no zero divisor, coefficient or denominator. */
  predicate WellFormed(inst: Instance) {
    match inst
    case Quotient(_, divisor) => divisor != 0
    case FractionSum(n1, d1, n2, d2) => n1 >= 0 && n2 >= 0 && d1 > 0 && d2 > 0
    case LinearEquation(coeff, _, _) => coeff != 0
    case _ => true
  }

  /** A solution: a whole number, or a fraction whose denominator is not 1. */
  datatype Answer = Whole(n: int) | Ratio(num: int, den: int)

  /** The answer as a numerator-denominator pair. */
  function AsFraction(ans: Answer): (int, int) {
    match ans
    case Whole(n) => (n, 1)
    case Ratio(p, q) => (p, q)
  }

  /** A fraction answer is non-negative, coprime and has a denominator above 1. */
  predicate InLowestTerms(ans: Answer) {
    match ans
    case Whole(_) => true
    case Ratio(p, q) => p >= 0 && q > 1 && Gcd(p, q) == 1
  }

  /** The answer has the value n / d. */
  predicate Denotes(ans: Answer, n: int, d: int) {
    AsFraction(ans).0 * d == n * AsFraction(ans).1
  }

  /**
   * ans is the solution of inst, defined from the problem alone: the value
   * of the expression, or the number that makes the equation true.
   */
  predicate Solves(inst: Instance, ans: Answer) {
    match inst
    case Sum(a, b) => ans == Whole(a + b)
    case Difference(a, b) => ans == Whole(a - b)
    case Product(a, b) => ans == Whole(a * b)
    case Quotient(a, b) => ans.Whole? && b * ans.n == a
    case FractionSum(n1, d1, n2, d2) => InLowestTerms(ans) && Denotes(ans, n1 * d2 + n2 * d1, d1 * d2)
    case LinearEquation(a, b, c) => ans.Whole? && a * ans.n + b == c
  }

  /** A well-formed problem has at most one solution. */
  lemma SolvesUnique(inst: Instance, x: Answer, y: Answer)
    requires WellFormed(inst)
    requires Solves(inst, x) && Solves(inst, y)
    ensures x == y
  {
    match inst
    case Quotient(a, b) =>
      SignedMulCancel(b, x.n, y.n);
    case LinearEquation(a, b, c) =>
      SignedMulCancel(a, x.n, y.n);
    case FractionSum(n1, d1, n2, d2) =>
      var n, d := n1 * d2 + n2 * d1, d1 * d2;
      assert d > 0;
      LowestTermsUnique2(x, y, n, d);
    case _ =>
  }

  lemma SignedMulCancel(d: int, x: int, y: int)
    requires d != 0 && d * x == d * y
    ensures x == y
  {
    if d > 0 {
      MulCancel(d, x, y);
    } else {
      assert (-d) * x == (-d) * y;
      MulCancel(-d, x, y);
    }
  }

  /** Two answers in lowest terms with the same value n / d are the same answer. */
  lemma LowestTermsUnique2(x: Answer, y: Answer, n: int, d: int)
    requires d > 0 && n >= 0
    requires InLowestTerms(x) && InLowestTerms(y)
    requires Denotes(x, n, d) && Denotes(y, n, d)
    ensures x == y
  {
    var p, q := AsFraction(x).0, AsFraction(x).1;
    var r, s := AsFraction(y).0, AsFraction(y).1;
    CrossMultiply(p, q, r, s, n, d);
    NonNegativeNumerator(x, n, d);
    NonNegativeNumerator(y, n, d);
    LowestTermsUnique(p, q, r, s);
  }

  /** p/q and r/s both equal n/d, so p/q equals r/s. */
  lemma CrossMultiply(p: int, q: int, r: int, s: int, n: int, d: int)
    requires d > 0
    requires p * d == n * q && r * d == n * s
    ensures p * s == r * q
  {
    assert (p * s) * d == (n * q) * s by {
      assert (p * s) * d == (p * d) * s;
    }
    assert (r * q) * d == (n * s) * q by {
      assert (r * q) * d == (r * d) * q;
    }
    assert (n * q) * s == (n * s) * q;
    MulCancel(d, p * s, r * q);
  }

  lemma NonNegativeNumerator(x: Answer, n: int, d: int)
    requires d > 0 && n >= 0 && InLowestTerms(x) && Denotes(x, n, d)
    ensures AsFraction(x).0 >= 0
  {
    if x.Whole? {
      DivModUnique(n, d, x.n, 0);
    }
  }

  /**
   * n / d reduced by gcd(n, d), shown as a whole number when the reduced
   * denominator is 1 and as a fraction otherwise.
   */
  function Lowest(n: nat, d: nat): (r: Answer)
    requires d > 0
    ensures InLowestTerms(r)
    ensures Denotes(r, n, d)
  {
    var g := Gcd(n, d);
    GcdDividesBoth(n, d);
    ReducedIsCoprime(n, d);
    DividesWitness(g, n);
    DividesWitness(g, d);
    var num, den := n / g, d / g;
    assert num * d == n * den by {
      calc {
        num * d;
        == num * (g * den);
        == (g * num) * den;
        == n * den;
      }
    }
    if den == 1 then Whole(num) else Ratio(num, den)
  }

  lemma LowestWholeIffDivides(n: nat, d: nat)
    requires d > 0
    ensures Lowest(n, d).Whole? <==> Divides(d, n)
  {
    var g := Gcd(n, d);
    GcdDividesBoth(n, d);
    DividesWitness(g, d);
    assert d == g * (d / g);
    if Divides(d, n) {
      DividesByWitness(d, 1);
      GcdGreatest(n, d, d);
      DividesLe(d, g);
      DividesLe(g, d);
      DivModUnique(d, g, 1, 0);
    }
  }

  datatype Op = Plus | Minus | Times | Over

  /** a op b = v, read as the source prints it (Over is exact division). */
  predicate Evaluates(op: Op, a: int, b: int, v: int) {
    match op
    case Plus => a + b == v
    case Minus => a - b == v
    case Times => a * b == v
    case Over => b != 0 && b * v == a
  }

  /**
   * One numbered line of the derivation text, reduced to the equation or
   * action it states.
   */
  datatype Step =
    | Announce(op: Op, left: int, right: int)                 // "Addiere a und b", "Dividiere a durch b", ...
    | Evaluate(op: Op, left: int, right: int, value: int)     // a op b = value
    | CommonDenominator(den1: int, den2: int, common: int)    // den1 × den2 = common
    | Expand(num1: int, den1: int, num2: int, den2: int,
             newNum1: int, newNum2: int, common: int)          // num1/den1 = newNum1/common, num2/den2 = newNum2/common
    | AddOver(newNum1: int, newNum2: int, common: int, sum: int) // newNum1/common + newNum2/common = sum/common
    | Reduce(sum: int, common: int, result: Answer)            // sum/common = result
    | Isolate(coeff: int, term: int, constant: int, rest: int) // subtract term from both sides: coeff·x = rest
    | DivideBy(coeff: int, rest: int, value: int)             // divide by coeff: x = rest / coeff
    | Conclude(value: int)                                     // x = value

  /** The line states something true. */
  predicate Holds(step: Step) {
    match step
    case Announce(op, _, right) => op != Over || right != 0
    case Evaluate(op, a, b, v) => Evaluates(op, a, b, v)
    case CommonDenominator(d1, d2, c) => d1 > 0 && d2 > 0 && c == d1 * d2
    case Expand(n1, d1, n2, d2, m1, m2, c) =>
      d1 > 0 && d2 > 0 && c > 0 && n1 * c == m1 * d1 && n2 * c == m2 * d2
    case AddOver(m1, m2, c, s) => c > 0 && s == m1 + m2
    case Reduce(s, c, r) => c > 0 && InLowestTerms(r) && Denotes(r, s, c)
    case Isolate(_, term, constant, rest) => rest == constant - term
    case DivideBy(coeff, rest, v) => coeff != 0 && coeff * v == rest
    case Conclude(_) => true
  }

  /** The value a line arrives at, if it arrives at one. */
  function Conclusion(step: Step): Option<Answer> {
    match step
    case Evaluate(_, _, _, v) => Some(Whole(v))
    case Reduce(_, _, r) => Some(r)
    case Conclude(v) => Some(Whole(v))
    case _ => None
  }

  /** Every line of the derivation is true and the last line arrives at ans. */
  predicate Derives(steps: seq<Step>, ans: Answer) {
    && |steps| > 0
    && (forall s <- steps :: Holds(s))
    && Conclusion(steps[|steps| - 1]) == Some(ans)
  }
}
