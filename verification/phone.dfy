/** The phone pattern `^\+?[\d\s\-()]+$` used by the Phone rule, as a small
    automaton (the way a regular-expression engine decides it) together with
    a declarative reading of the same pattern. */
module Phone {
  import opened Text

  /** One character of the class `[\d\s\-()]`. `\d` is read as the ASCII
      digits; `\s` is .NET's white-space class. */
  predicate InClass(c: char) {
    IsDigit(c) || IsWhiteSpace(c) || c == '-' || c == '(' || c == ')'
  }

  /** The pattern read declaratively: an optional leading '+', then one or
      more class characters and nothing else. Since '+' is not in the class,
      a leading '+' can only be taken by `\+?`. (`$` may also match before a
      final line feed, but a line feed is in the class, so that adds no
      strings.) */
  predicate PatternHolds(s: string) {
    |Body(s)| > 0 && forall i | 0 <= i < |Body(s)| :: InClass(Body(s)[i])
  }

  /** What is left for the class characters once `\+?` has taken its part. */
  function Body(s: string): string {
    if |s| > 0 && s[0] == '+' then s[1..] else s
  }

  datatype State = Start | AfterPlus | InBody | Dead

  function Step(q: State, c: char): State {
    match q
    case Start => if c == '+' then AfterPlus else if InClass(c) then InBody else Dead
    case AfterPlus => if InClass(c) then InBody else Dead
    case InBody => if InClass(c) then InBody else Dead
    case Dead => Dead
  }

  function Run(q: State, s: string): State
    decreases |s|
  {
    if s == [] then q else Run(Step(q, s[0]), s[1..])
  }

  /** `Regex.IsMatch(s, @"^\+?[\d\s\-()]+$")`. */
  predicate Matches(s: string) {
    Run(Start, s) == InBody
  }

  lemma {:induction false} DeadStaysDead(s: string)
    ensures Run(Dead, s) == Dead
    decreases |s|
  {
    if s != [] {
      DeadStaysDead(s[1..]);
    }
  }

  lemma {:induction false} BodyAccepts(s: string)
    ensures Run(InBody, s) == InBody <==> forall i | 0 <= i < |s| :: InClass(s[i])
    decreases |s|
  {
    if s != [] {
      if InClass(s[0]) {
        BodyAccepts(s[1..]);
        assert forall i | 1 <= i < |s| :: s[i] == s[1..][i - 1];
      } else {
        DeadStaysDead(s[1..]);
      }
    }
  }

  lemma AfterPlusAccepts(s: string)
    ensures Run(AfterPlus, s) == InBody <==> |s| > 0 && forall i | 0 <= i < |s| :: InClass(s[i])
  {
    if s != [] {
      if InClass(s[0]) {
        BodyAccepts(s[1..]);
        assert forall i | 1 <= i < |s| :: s[i] == s[1..][i - 1];
      } else {
        DeadStaysDead(s[1..]);
      }
    }
  }

  /** The automaton accepts exactly the strings of the pattern. */
  lemma MatchesIffPattern(s: string)
    ensures Matches(s) <==> PatternHolds(s)
  {
    if s != [] {
      assert Run(Start, s) == Run(Step(Start, s[0]), s[1..]);
      if s[0] == '+' {
        AfterPlusAccepts(s[1..]);
      } else if InClass(s[0]) {
        BodyAccepts(s[1..]);
        assert forall i | 1 <= i < |s| :: s[i] == s[1..][i - 1];
      } else {
        DeadStaysDead(s[1..]);
        assert Body(s)[0] == s[0];
      }
    }
  }

  /** A matching phone number is never empty, has at most one '+', and only
      in front; a lone "+" does not match. */
  lemma MatchShape(s: string)
    requires Matches(s)
    ensures |s| > 0
    ensures forall i | 0 < i < |s| :: s[i] != '+'
    ensures s != "+"
  {
    MatchesIffPattern(s);
    assert !InClass('+');
    if s[0] == '+' {
      assert forall i | 0 < i < |s| :: s[i] == Body(s)[i - 1];
    } else {
      assert Body(s) == s;
    }
  }
}
