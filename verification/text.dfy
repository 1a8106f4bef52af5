/**
 * Character and string helpers: ASCII lower-casing (the part of Python's
 * str.lower the tool inputs rely on), prefix stripping, substring
 * containment and joining with a separator.
 */
module Text {
  import opened Wrappers

  predicate IsUpper(c: char) {
    'A' <= c <= 'Z'
  }

  /** Lower-cases an ASCII capital and keeps every other character. */
  function LowerChar(c: char): (r: char)
    ensures !IsUpper(r)
    ensures !IsUpper(c) ==> r == c
  {
    if IsUpper(c) then (c as int + 32) as char else c
  }

  /** Lower-cases every character of s. */
  function Lower(s: string): (r: string)
    ensures |r| == |s|
    ensures forall i :: 0 <= i < |s| ==> r[i] == LowerChar(s[i])
  {
    if s == [] then [] else [LowerChar(s[0])] + Lower(s[1..])
  }

  predicate IsLowerCase(s: string) {
    forall i :: 0 <= i < |s| ==> !IsUpper(s[i])
  }

  /** s and t spell the same word when capitals are ignored. */
  predicate EqualsIgnoringCase(s: string, t: string) {
    |s| == |t| && forall i :: 0 <= i < |s| ==> LowerChar(s[i]) == LowerChar(t[i])
  }

  lemma LowerOfLowerCase(s: string)
    requires IsLowerCase(s)
    ensures Lower(s) == s
  {
  }

  lemma LowerIdempotent(s: string)
    ensures Lower(Lower(s)) == Lower(s)
  {
  }

  /** Comparing the lowered input with a lower-case word is a case-insensitive comparison. */
  lemma LowerEqualsIffIgnoringCase(s: string, t: string)
    requires IsLowerCase(t)
    ensures Lower(s) == t <==> EqualsIgnoringCase(s, t)
  {
    if EqualsIgnoringCase(s, t) {
      assert forall i :: 0 <= i < |s| ==> Lower(s)[i] == t[i];
    }
  }

  function StripPrefix(prefix: string, s: string): (r: Option<string>)
    ensures r.Some? <==> prefix <= s
    ensures r.Some? ==> prefix + r.value == s
  {
    if prefix <= s then Some(s[|prefix|..]) else None
  }

  lemma StripPrefixOfConcat(prefix: string, rest: string)
    ensures StripPrefix(prefix, prefix + rest) == Some(rest)
  {
    assert (prefix + rest)[|prefix|..] == rest;
  }

  /** part occurs in s starting at index i. */
  predicate OccursAt(s: string, part: string, i: int) {
    0 <= i <= |s| - |part| && s[i..i + |part|] == part
  }

  /** part occurs somewhere inside s. */
  predicate Contains(s: string, part: string) {
    exists i | 0 <= i <= |s| :: OccursAt(s, part, i)
  }

  lemma ContainsSelf(s: string)
    ensures Contains(s, s)
  {
    assert OccursAt(s, s, 0);
  }

  lemma ContainsInConcat(a: string, b: string, c: string, part: string)
    requires Contains(b, part)
    ensures Contains(a + b + c, part)
  {
    var i :| 0 <= i <= |b| && OccursAt(b, part, i);
    assert i + |part| <= |b| && b[i..i + |part|] == part;
    var j := |a| + i;
    assert (a + b + c)[j..j + |part|] == b[i..i + |part|];
    assert OccursAt(a + b + c, part, j);
  }

  /** The items separated by sep, as Python's sep.join(items). */
  function Join(items: seq<string>, sep: string): string {
    if |items| == 0 then ""
    else if |items| == 1 then items[0]
    else items[0] + sep + Join(items[1..], sep)
  }

  lemma JoinCons(item: string, items: seq<string>, sep: string)
    requires |items| > 0
    ensures Join([item] + items, sep) == item + sep + Join(items, sep)
  {
    assert ([item] + items)[1..] == items;
  }

  lemma {:induction false} JoinContainsItems(items: seq<string>, sep: string, k: int)
    requires 0 <= k < |items|
    ensures Contains(Join(items, sep), items[k])
  {
    if |items| == 1 {
      ContainsSelf(items[0]);
      assert Join(items, sep) == [] + items[0] + [];
      ContainsInConcat([], items[0], [], items[0]);
    } else if k == 0 {
      ContainsSelf(items[0]);
      ContainsInConcat([], items[0], sep + Join(items[1..], sep), items[0]);
      assert [] + items[0] + (sep + Join(items[1..], sep)) == Join(items, sep);
    } else {
      JoinContainsItems(items[1..], sep, k - 1);
      ContainsInConcat(items[0] + sep, Join(items[1..], sep), [], items[k]);
      assert items[0] + sep + Join(items[1..], sep) + [] == Join(items, sep);
    }
  }
}
