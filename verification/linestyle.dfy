/** How a console view picks the style of a history line when it renders:
    a priority-ordered cascade of `startsWith` / `includes` tests in which
    the first test that holds decides, and a line no test accepts is shown
    plain. Styles only colour the line; they never steer the engine. */
module LineStyle {
  import opened Text

  datatype Style =
    | Plain
    | PromptEcho  // an echoed prompt line
    | Success     // a completion banner
    | Heading     // a section heading in a pipeline summary
    | Trace       // a pipeline progress line

  datatype Test =
    | Prefix(prefix: string)          // `line.startsWith(prefix)`
    | AnyOf(needles: seq<string>)     // `line.includes(n0) || line.includes(n1) || ...`

  datatype Rule = Rule(test: Test, style: Style)

  predicate Holds(t: Test, line: string) {
    match t
    case Prefix(p) => StartsWith(line, p)
    case AnyOf(ns) => exists k :: 0 <= k < |ns| && Includes(line, ns[k])
  }

  /** A test on one needle is `includes`. */
  lemma HoldsOneNeedle(a: string, line: string)
    ensures Holds(AnyOf([a]), line) <==> Includes(line, a)
  {
    if Includes(line, a) {
      assert Includes(line, [a][0]);
    }
  }

  /** A test on two needles is the disjunction of two `includes`. */
  lemma HoldsTwoNeedles(a: string, b: string, line: string)
    ensures Holds(AnyOf([a, b]), line) <==> Includes(line, a) || Includes(line, b)
  {
    if Includes(line, a) {
      assert Includes(line, [a, b][0]);
    } else if Includes(line, b) {
      assert Includes(line, [a, b][1]);
    }
  }

  /** Rule `k` is the first rule whose test holds of `line`. */
  predicate FirstHolding(rules: seq<Rule>, line: string, k: int) {
    && 0 <= k < |rules|
    && Holds(rules[k].test, line)
    && forall j :: 0 <= j < k ==> !Holds(rules[j].test, line)
  }

  /** The style the cascade gives `line`: the style of the first rule whose
      test holds, or `Plain` when none does. */
  function Classify(rules: seq<Rule>, line: string): (r: Style)
    ensures forall k :: FirstHolding(rules, line, k) ==> r == rules[k].style
    ensures (forall k :: 0 <= k < |rules| ==> !Holds(rules[k].test, line)) ==> r == Plain
  {
    if rules == [] then Plain
    else if Holds(rules[0].test, line) then rules[0].style
    else
      var r := Classify(rules[1..], line);
      assert forall k :: FirstHolding(rules, line, k) ==> k > 0 && FirstHolding(rules[1..], line, k - 1);
      r
  }

  /** Earlier rules win: whenever rule `i` holds, no rule after it is
      consulted, so the line cannot get a later rule's style through it. */
  lemma EarlierRuleWins(rules: seq<Rule>, line: string, i: int)
    requires 0 <= i < |rules| && Holds(rules[i].test, line)
    ensures exists k :: 0 <= k <= i && FirstHolding(rules, line, k) && Classify(rules, line) == rules[k].style
  {
    var k := FirstIndex(rules, line, i);
  }

  /** The first holding rule, which exists once some rule `i` holds. */
  function FirstIndex(rules: seq<Rule>, line: string, i: int): (k: int)
    requires 0 <= i < |rules| && Holds(rules[i].test, line)
    ensures 0 <= k <= i && FirstHolding(rules, line, k)
    decreases i
  {
    if forall j :: 0 <= j < i ==> !Holds(rules[j].test, line) then i
    else
      var j :| 0 <= j < i && Holds(rules[j].test, line);
      FirstIndex(rules, line, j)
  }
}
