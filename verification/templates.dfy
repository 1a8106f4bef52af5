/**
 * Text made of literal pieces and integer holes, the shape of every
 * f-string the generator prints ("{a} + {b} = ?"). Fill renders a template;
 * Match reads one back.
 */
module Templates {
  import opened Wrappers
  import opened Text
  import opened Decimal

  /** A template: literal text and integer holes, in reading order. */
  datatype Template = Done | Lit(text: string, rest: Template) | Number(rest: Template)

  function HoleCount(t: Template): nat {
    match t
    case Done => 0
    case Lit(_, rest) => HoleCount(rest)
    case Number(rest) => 1 + HoleCount(rest)
  }

  /** Renders the template, printing the values into the holes in order. */
  function Fill(t: Template, values: seq<int>): string
    requires HoleCount(t) == |values|
  {
    match t
    case Done => ""
    case Lit(s, rest) => s + Fill(rest, values)
    case Number(rest) => IntToString(values[0]) + Fill(rest, values[1..])
  }

  /** Reads s against the template, returning the integers found in the holes. */
  function Match(t: Template, s: string): (r: Option<seq<int>>)
    ensures r.Some? ==> |r.value| == HoleCount(t)
  {
    match t
    case Done => if s == [] then Some([]) else None
    case Lit(lit, rest) =>
      var after :- StripPrefix(lit, s);
      Match(rest, after)
    case Number(rest) =>
      var p :- ParseIntPrefix(s);
      var values :- Match(rest, p.1);
      Some([p.0] + values)
  }

  /**
   * Every hole is last or followed by non-empty literal text that does not
   * start with a digit, so a printed number has a visible end.
   */
  predicate Separated(t: Template) {
    match t
    case Done => true
    case Lit(_, rest) => Separated(rest)
    case Number(rest) =>
      && (rest.Done? || (rest.Lit? && |rest.text| > 0 && !IsDigit(rest.text[0])))
      && Separated(rest)
  }

  /** A separated template reads back exactly the values it was filled with. */
  lemma {:induction false} MatchFill(t: Template, values: seq<int>)
    requires Separated(t)
    requires HoleCount(t) == |values|
    ensures Match(t, Fill(t, values)) == Some(values)
  {
    match t
    case Done =>
    case Lit(lit, rest) =>
      MatchFill(rest, values);
      StripPrefixOfConcat(lit, Fill(rest, values));
    case Number(rest) =>
      var tail := Fill(rest, values[1..]);
      IntPrefixRoundTrip(values[0], tail);
      MatchFill(rest, values[1..]);
      assert [values[0]] + values[1..] == values;
  }
}
