/** The part of FluentValidation the contact validators rely on: a rule
    (`RuleFor(x => x.Property)`) selects one property and runs a chain of
    components (`.NotEmpty().WithMessage(...)`, ...) over it. No cascade mode
    is set anywhere, so the default applies: every component of a chain runs
    and every one that fails is reported. Rules run in declaration order and
    their failures are appended in that order. */
module Rules {
  import opened Text
  import Phone

  /** A property value as the components see it. */
  datatype Value =
    | Str(s: string)
    | Day(dayNumber: int)
    | Money(amount: real)
    | Number(n: int)

  /** What `NotEmpty` rejects: a blank string, or the type's default value
      (day 0 for a `DateOnly`, zero for a number). */
  predicate IsEmpty(v: Value) {
    match v
    case Str(s) => IsBlank(s)
    case Day(d) => d == 0
    case Money(m) => m == 0.0
    case Number(n) => n == 0
  }

  /** The comparison `LessThan`/`GreaterThan` use. Both sides always have the
      property's own type (the C# compiler enforces it); a mixed pair is
      never built and is treated as failing. */
  predicate Below(a: Value, b: Value) {
    match (a, b)
    case (Day(x), Day(y)) => x < y
    case (Money(x), Money(y)) => x < y
    case (Number(x), Number(y)) => x < y
    case _ => false
  }

  /** The built-in validators used by the contact rules. The length and
      pattern validators only apply to strings. */
  datatype Check =
    | NotEmpty
    | MinimumLength(min: nat)
    | MaximumLength(max: nat)
    | MatchesPhonePattern
    | LessThan(bound: Value)
    | GreaterThan(bound: Value)

  predicate Holds(check: Check, v: Value) {
    match check
    case NotEmpty => !IsEmpty(v)
    case MinimumLength(min) => v.Str? ==> Utf16Length(v.s) >= min
    case MaximumLength(max) => v.Str? ==> Utf16Length(v.s) <= max
    case MatchesPhonePattern => v.Str? ==> Phone.Matches(v.s)
    case LessThan(bound) => Below(v, bound)
    case GreaterThan(bound) => Below(bound, v)
  }

  /** One link of a chain: a validator and its `WithMessage` text. */
  datatype Component = Component(check: Check, message: string)

  /** `RuleFor(select)` named after the selected property, with its chain. */
  datatype Rule<!T> = Rule(property: string, select: T -> Value, chain: seq<Component>)

  /** A `ValidationFailure`: its `PropertyName` and `ErrorMessage`. */
  datatype Failure = Failure(property: string, message: string)

  /** Runs a chain with the default cascade: a failing link does not stop
      the links after it. */
  function RunChain(property: string, v: Value, chain: seq<Component>): (r: seq<Failure>)
    ensures |r| <= |chain|
    ensures forall f | f in r :: f.property == property
    ensures r == [] <==> forall i | 0 <= i < |chain| :: Holds(chain[i].check, v)
    decreases |chain|
  {
    if chain == [] then [] else Link(property, v, chain[0]) + RunChain(property, v, chain[1..])
  }

  /** What one link contributes: its message when its check fails. */
  function Link(property: string, v: Value, link: Component): seq<Failure> {
    if Holds(link.check, v) then [] else [Failure(property, link.message)]
  }

  /** Every failing link is reported, and every report comes from a failing
      link. */
  lemma {:induction false} RunChainReports(property: string, v: Value, chain: seq<Component>)
    ensures forall i | 0 <= i < |chain| && !Holds(chain[i].check, v) ::
              Failure(property, chain[i].message) in RunChain(property, v, chain)
    ensures forall f | f in RunChain(property, v, chain) ::
              exists i | 0 <= i < |chain| :: f.message == chain[i].message && !Holds(chain[i].check, v)
    decreases |chain|
  {
    if chain != [] {
      RunChainReports(property, v, chain[1..]);
      var r := RunChain(property, v, chain);
      assert r == Link(property, v, chain[0]) + RunChain(property, v, chain[1..]);
      forall i | 0 < i < |chain| && !Holds(chain[i].check, v)
        ensures Failure(property, chain[i].message) in r
      {
        assert chain[i] == chain[1..][i - 1];
      }
      forall f | f in r
        ensures exists i | 0 <= i < |chain| :: f.message == chain[i].message && !Holds(chain[i].check, v)
      {
        if f !in Link(property, v, chain[0]) {
          var j :| 0 <= j < |chain[1..]| && f.message == chain[1..][j].message && !Holds(chain[1..][j].check, v);
          assert chain[j + 1] == chain[1..][j];
        }
      }
    }
  }

  /** A chain of three links reports each failing link in order. */
  lemma RunChain3(property: string, v: Value, a: Component, b: Component, c: Component)
    ensures RunChain(property, v, [a, b, c])
         == Link(property, v, a) + Link(property, v, b) + Link(property, v, c)
  {
    assert [a, b, c][1..] == [b, c];
    assert [b, c][1..] == [c];
    assert [c][1..] == [];
    assert RunChain(property, v, [c]) == Link(property, v, c) + [];
    assert RunChain(property, v, [b, c]) == Link(property, v, b) + RunChain(property, v, [c]);
    assert RunChain(property, v, [a, b, c]) == Link(property, v, a) + RunChain(property, v, [b, c]);
  }

  /** A chain of four links reports each failing link in order. */
  lemma RunChain4(property: string, v: Value, a: Component, b: Component, c: Component, d: Component)
    ensures RunChain(property, v, [a, b, c, d])
         == Link(property, v, a) + Link(property, v, b) + Link(property, v, c) + Link(property, v, d)
  {
    assert [a, b, c, d][1..] == [b, c, d];
    RunChain3(property, v, b, c, d);
  }

  /** A rule passes when every link of its chain holds. */
  predicate Passes<T>(rule: Rule<T>, x: T) {
    forall i | 0 <= i < |rule.chain| :: Holds(rule.chain[i].check, rule.select(x))
  }

  /** `validator.Validate(x).Errors`: the failures of every rule, rule by
      rule. */
  function Validate<T>(rules: seq<Rule<T>>, x: T): seq<Failure>
    decreases |rules|
  {
    if rules == [] then []
    else RuleFailures(rules[0], x) + Validate(rules[1..], x)
  }

  /** An instance is valid (no failures) exactly when every rule passes, and
      each failure is named after one of the rules' properties. */
  lemma {:induction false} ValidateMeaning<T>(rules: seq<Rule<T>>, x: T)
    ensures Validate(rules, x) == [] <==> forall k | 0 <= k < |rules| :: Passes(rules[k], x)
    ensures forall f | f in Validate(rules, x) :: exists k | 0 <= k < |rules| :: f.property == rules[k].property
    decreases |rules|
  {
    if rules != [] {
      ValidateMeaning(rules[1..], x);
      var r := Validate(rules, x);
      assert r == RuleFailures(rules[0], x) + Validate(rules[1..], x);
      assert forall k | 1 <= k < |rules| :: rules[k] == rules[1..][k - 1];
      forall f | f in r
        ensures exists k | 0 <= k < |rules| :: f.property == rules[k].property
      {
        if f !in RuleFailures(rules[0], x) {
          var j :| 0 <= j < |rules[1..]| && f.property == rules[1..][j].property;
          assert rules[j + 1] == rules[1..][j];
        }
      }
    }
  }

  /** The failures of a rule, as `Validate` collects them. */
  function RuleFailures<T>(rule: Rule<T>, x: T): seq<Failure> {
    RunChain(rule.property, rule.select(x), rule.chain)
  }

  /** A validator of four rules reports the first rule's failures, then the
      second's, the third's and the fourth's. */
  lemma Validate4<T>(a: Rule<T>, b: Rule<T>, c: Rule<T>, d: Rule<T>, x: T)
    ensures Validate([a, b, c, d], x)
         == RuleFailures(a, x) + RuleFailures(b, x) + RuleFailures(c, x) + RuleFailures(d, x)
  {
    assert [a, b, c, d][1..] == [b, c, d];
    assert [b, c, d][1..] == [c, d];
    assert [c, d][1..] == [d];
    assert [d][1..] == [];
    assert Validate([d], x) == RuleFailures(d, x) + [];
    assert Validate([c, d], x) == RuleFailures(c, x) + Validate([d], x);
    assert Validate([b, c, d], x) == RuleFailures(b, x) + Validate([c, d], x);
    assert Validate([a, b, c, d], x) == RuleFailures(a, x) + Validate([b, c, d], x);
  }

  /** Adding rules to a validator appends their failures after the existing
      ones and leaves those unchanged. */
  lemma {:induction false} ValidateAppend<T>(a: seq<Rule<T>>, b: seq<Rule<T>>, x: T)
    ensures Validate(a + b, x) == Validate(a, x) + Validate(b, x)
    decreases |a|
  {
    if a == [] {
      assert a + b == b;
    } else {
      assert (a + b)[1..] == a[1..] + b;
      ValidateAppend(a[1..], b, x);
    }
  }

  /** Two instances whose selected properties agree get the same failures:
      a property no rule selects cannot influence validation. */
  lemma {:induction false} ValidateSeesOnlySelected<T>(rules: seq<Rule<T>>, x: T, y: T)
    requires forall k | 0 <= k < |rules| :: rules[k].select(x) == rules[k].select(y)
    ensures Validate(rules, x) == Validate(rules, y)
    decreases |rules|
  {
    if rules != [] {
      ValidateSeesOnlySelected(rules[1..], x, y);
    }
  }
}
