/** The contact validators: the common rules of `BaseContactValidator`
    (Name, DateOfBirth, Phone, Salary, in that order), the create validator
    that uses exactly those rules, and the edit validator that adds the Id
    rule after them. */
module ContactValidators {
  import opened Text
  import Phone
  import opened Rules
  import opened Contacts

  /** The two dates the DateOfBirth rule compares against, as day numbers:
      `today` is the date of `DateTime.Now` and `limit` the date of
      `DateTime.Now.AddYears(-150)`. Both are read once, when a validator is
      constructed. */
  datatype Clock = Clock(today: int, limit: int) {
    /** `limit` is a real date (AddYears cannot go before year 1) and lies
        before today. */
    predicate Valid() {
      0 <= limit < today
    }
  }

  const NameRequired := "Name is required"
  const NameTooShort := "Name must be at least 2 characters"
  const NameTooLong := "Name cannot exceed 255 characters"
  const DateOfBirthRequired := "Date of birth is required"
  const DateOfBirthInFuture := "Date of birth cannot be in the future"
  const DateOfBirthTooOld := "Date of birth must be valid (not older than 150 years)"
  const PhoneRequired := "Phone is required"
  const PhoneBadCharacters := "Phone must contain only digits, spaces, hyphens, parentheses, or plus sign"
  const PhoneTooShort := "Phone must be at least 7 characters"
  const PhoneTooLong := "Phone cannot exceed 20 characters"
  const SalaryRequired := "Salary is required"
  const SalaryNotPositive := "Salary must be greater than 0"
  const SalaryTooHigh := "Salary is too high (maximum 9,999,999.99)"
  const IdInvalid := "Contact ID must be valid"

  const MaxSalary: real := 9999999.99

  // The rule chains, link by link, as declared.

  function NameChain(): seq<Component> {
    [ Component(NotEmpty, NameRequired),
      Component(MinimumLength(2), NameTooShort),
      Component(MaximumLength(255), NameTooLong) ]
  }

  function DateOfBirthChain(clock: Clock): seq<Component> {
    [ Component(NotEmpty, DateOfBirthRequired),
      Component(LessThan(Day(clock.today)), DateOfBirthInFuture),
      Component(GreaterThan(Day(clock.limit)), DateOfBirthTooOld) ]
  }

  function PhoneChain(): seq<Component> {
    [ Component(NotEmpty, PhoneRequired),
      Component(MatchesPhonePattern, PhoneBadCharacters),
      Component(MinimumLength(7), PhoneTooShort),
      Component(MaximumLength(20), PhoneTooLong) ]
  }

  function SalaryChain(): seq<Component> {
    [ Component(NotEmpty, SalaryRequired),
      Component(GreaterThan(Money(0.0)), SalaryNotPositive),
      Component(LessThan(Money(MaxSalary)), SalaryTooHigh) ]
  }

  /** `AddCommonRules` for a model type `T` whose contact fields `view`
      exposes. */
  function CommonRules<T>(view: T -> Contact, clock: Clock): seq<Rule<T>> {
    [ Rule("Name", x => Str(view(x).name), NameChain()),
      Rule("DateOfBirth", x => Day(view(x).dateOfBirth), DateOfBirthChain(clock)),
      Rule("Phone", x => Str(view(x).phone), PhoneChain()),
      Rule("Salary", x => Money(view(x).salary), SalaryChain()) ]
  }

  /** The contact fields of a create model: the model itself. */
  function CreateView(c: Contact): Contact { c }

  /** The contact fields of an edit model. */
  function EditView(e: ContactEdit): Contact { e.contact }

  /** `ContactCreateViewModelValidator`: the common rules and nothing else. */
  function CreateRules(clock: Clock): seq<Rule<Contact>> {
    CommonRules(CreateView, clock)
  }

  /** The rule `ContactEditViewModelValidator` adds: `Id > 0`. */
  function IdRule(): Rule<ContactEdit> {
    Rule("Id", (e: ContactEdit) => Number(e.id), [Component(GreaterThan(Number(0)), IdInvalid)])
  }

  /** `ContactEditViewModelValidator`: the common rules, then the Id rule. */
  function EditRules(clock: Clock): seq<Rule<ContactEdit>> {
    CommonRules(EditView, clock) + [IdRule()]
  }

  // What each field's rule reports, written out per field, independently of
  // the rule engine: every failing link is reported, in declaration order.

  function NameFailures(name: string): (r: seq<Failure>)
    ensures forall f | f in r :: f.property == "Name"
  {
    (if IsBlank(name) then [Failure("Name", NameRequired)] else [])
    + (if Utf16Length(name) < 2 then [Failure("Name", NameTooShort)] else [])
    + (if Utf16Length(name) > 255 then [Failure("Name", NameTooLong)] else [])
  }

  function DateOfBirthFailures(dob: nat, clock: Clock): (r: seq<Failure>)
    ensures forall f | f in r :: f.property == "DateOfBirth"
  {
    (if dob == 0 then [Failure("DateOfBirth", DateOfBirthRequired)] else [])
    + (if dob >= clock.today then [Failure("DateOfBirth", DateOfBirthInFuture)] else [])
    + (if dob <= clock.limit then [Failure("DateOfBirth", DateOfBirthTooOld)] else [])
  }

  function PhoneFailures(phone: string): (r: seq<Failure>)
    ensures forall f | f in r :: f.property == "Phone"
  {
    (if IsBlank(phone) then [Failure("Phone", PhoneRequired)] else [])
    + (if !Phone.PatternHolds(phone) then [Failure("Phone", PhoneBadCharacters)] else [])
    + (if Utf16Length(phone) < 7 then [Failure("Phone", PhoneTooShort)] else [])
    + (if Utf16Length(phone) > 20 then [Failure("Phone", PhoneTooLong)] else [])
  }

  function SalaryFailures(salary: real): (r: seq<Failure>)
    ensures forall f | f in r :: f.property == "Salary"
  {
    (if salary == 0.0 then [Failure("Salary", SalaryRequired)] else [])
    + (if salary <= 0.0 then [Failure("Salary", SalaryNotPositive)] else [])
    + (if salary >= MaxSalary then [Failure("Salary", SalaryTooHigh)] else [])
  }

  // When each field is acceptable, stated as plain conditions.

  predicate NameOk(name: string) {
    !IsBlank(name) && 2 <= Utf16Length(name) <= 255
  }

  predicate DateOfBirthOk(dob: nat, clock: Clock) {
    clock.limit < dob < clock.today
  }

  /** White space is in the phone pattern's class, so a blank phone of the
      right length passes the pattern and is caught only by `NotEmpty`. */
  predicate PhoneOk(phone: string) {
    !IsBlank(phone) && Phone.PatternHolds(phone) && 7 <= Utf16Length(phone) <= 20
  }

  predicate SalaryOk(salary: real) {
    0.0 < salary < MaxSalary
  }

  lemma NameRule(name: string)
    ensures RunChain("Name", Str(name), NameChain()) == NameFailures(name)
  {
    var ch := NameChain();
    RunChain3("Name", Str(name), ch[0], ch[1], ch[2]);
  }

  lemma DateOfBirthRule(dob: nat, clock: Clock)
    ensures RunChain("DateOfBirth", Day(dob), DateOfBirthChain(clock)) == DateOfBirthFailures(dob, clock)
  {
    var ch := DateOfBirthChain(clock);
    RunChain3("DateOfBirth", Day(dob), ch[0], ch[1], ch[2]);
  }

  lemma PhoneRule(phone: string)
    ensures RunChain("Phone", Str(phone), PhoneChain()) == PhoneFailures(phone)
  {
    var ch := PhoneChain();
    RunChain4("Phone", Str(phone), ch[0], ch[1], ch[2], ch[3]);
    Phone.MatchesIffPattern(phone);
  }

  lemma SalaryRule(salary: real)
    ensures RunChain("Salary", Money(salary), SalaryChain()) == SalaryFailures(salary)
  {
    var ch := SalaryChain();
    RunChain3("Salary", Money(salary), ch[0], ch[1], ch[2]);
  }

  /** The common rules report the Name failures, then the DateOfBirth, Phone
      and Salary failures, each group exactly as its field prescribes. */
  lemma CommonRulesByField<T>(view: T -> Contact, clock: Clock, x: T)
    ensures Validate(CommonRules(view, clock), x)
         == NameFailures(view(x).name)
          + DateOfBirthFailures(view(x).dateOfBirth, clock)
          + PhoneFailures(view(x).phone)
          + SalaryFailures(view(x).salary)
  {
    var c := view(x);
    var rules := CommonRules(view, clock);
    NameRule(c.name);
    DateOfBirthRule(c.dateOfBirth, clock);
    PhoneRule(c.phone);
    SalaryRule(c.salary);
    Validate4(rules[0], rules[1], rules[2], rules[3], x);
    assert rules == [rules[0], rules[1], rules[2], rules[3]];
  }

  /** The create validator's errors for a contact. */
  function CreateErrors(c: Contact, clock: Clock): (r: seq<Failure>)
    ensures r == NameFailures(c.name) + DateOfBirthFailures(c.dateOfBirth, clock)
               + PhoneFailures(c.phone) + SalaryFailures(c.salary)
    ensures forall f | f in r :: f.property in ["Name", "DateOfBirth", "Phone", "Salary"]
  {
    CommonRulesByField(CreateView, clock, c);
    Validate(CreateRules(clock), c)
  }

  /** The edit validator's errors: the create errors for the same fields, then
      one Id failure when the Id is not positive. */
  function EditErrors(e: ContactEdit, clock: Clock): (r: seq<Failure>)
    ensures r == CreateErrors(e.contact, clock)
               + (if e.id > 0 then [] else [Failure("Id", IdInvalid)])
  {
    var id := IdRule();
    var common := CommonRules(EditView, clock);
    var tail := if e.id > 0 then [] else [Failure("Id", IdInvalid)];
    assert Validate([id], e) == tail by {
      assert [id][1..] == [];
      assert id.chain[1..] == [];
      assert Validate([id], e) == RuleFailures(id, e) + Validate([id][1..], e);
      assert RuleFailures(id, e) == Link("Id", Number(e.id), id.chain[0]) + RunChain("Id", Number(e.id), id.chain[1..]);
    }
    assert Validate(EditRules(clock), e) == Validate(common, e) + Validate([id], e) by {
      ValidateAppend(common, [id], e);
    }
    assert Validate(common, e) == CreateErrors(e.contact, clock) by {
      CommonRulesByField(EditView, clock, e);
    }
    Validate(EditRules(clock), e)
  }

  /** A contact passes the create validator exactly when all four field
      conditions hold. */
  lemma CreateValidIff(c: Contact, clock: Clock)
    requires clock.Valid()
    ensures CreateErrors(c, clock) == [] <==>
      NameOk(c.name) && DateOfBirthOk(c.dateOfBirth, clock) && PhoneOk(c.phone) && SalaryOk(c.salary)
  {
  }

  /** The position of each property's rule in the edit validator. */
  function RuleRank(property: string): nat {
    if property == "Name" then 0
    else if property == "DateOfBirth" then 1
    else if property == "Phone" then 2
    else if property == "Salary" then 3
    else 4
  }

  /** Failures listed with their rules' positions never decreasing. */
  predicate InRuleOrder(r: seq<Failure>) {
    forall i, j | 0 <= i < j < |r| :: RuleRank(r[i].property) <= RuleRank(r[j].property)
  }

  lemma OneProperty(r: seq<Failure>, property: string)
    requires forall f | f in r :: f.property == property
    ensures InRuleOrder(r)
  {
    assert forall i | 0 <= i < |r| :: r[i] in r;
  }

  lemma OrderedConcat(a: seq<Failure>, b: seq<Failure>, k: nat)
    requires InRuleOrder(a) && InRuleOrder(b)
    requires forall f | f in a :: RuleRank(f.property) <= k
    requires forall f | f in b :: k <= RuleRank(f.property)
    ensures InRuleOrder(a + b)
  {
    var r := a + b;
    forall i, j | 0 <= i < j < |r|
      ensures RuleRank(r[i].property) <= RuleRank(r[j].property)
    {
      if j < |a| {
        assert r[i] == a[i] && r[j] == a[j];
      } else if |a| <= i {
        assert r[i] == b[i - |a|] && r[j] == b[j - |a|];
      } else {
        assert r[i] == a[i] && a[i] in a;
        assert r[j] == b[j - |a|] && b[j - |a|] in b;
      }
    }
  }

  /** Failures come out grouped by property, in rule order: Name,
      DateOfBirth, Phone, Salary, then Id. */
  lemma EditErrorsInRuleOrder(e: ContactEdit, clock: Clock)
    ensures InRuleOrder(EditErrors(e, clock))
  {
    var c := e.contact;
    var n := NameFailures(c.name);
    var d := DateOfBirthFailures(c.dateOfBirth, clock);
    var p := PhoneFailures(c.phone);
    var s := SalaryFailures(c.salary);
    var t := if e.id > 0 then [] else [Failure("Id", IdInvalid)];
    GroupsInRuleOrder(n, d, p, s, t);
  }

  /** Five groups, each of one property, concatenated in rule order. */
  lemma GroupsInRuleOrder(n: seq<Failure>, d: seq<Failure>, p: seq<Failure>, s: seq<Failure>, t: seq<Failure>)
    requires forall f | f in n :: f.property == "Name"
    requires forall f | f in d :: f.property == "DateOfBirth"
    requires forall f | f in p :: f.property == "Phone"
    requires forall f | f in s :: f.property == "Salary"
    requires forall f | f in t :: f.property == "Id"
    ensures InRuleOrder(n + d + p + s + t)
  {
    OneProperty(n, "Name");
    OneProperty(d, "DateOfBirth");
    OneProperty(p, "Phone");
    OneProperty(s, "Salary");
    OneProperty(t, "Id");
    OrderedConcat(n, d, 0);
    OrderedConcat(n + d, p, 1);
    OrderedConcat(n + d + p, s, 2);
    OrderedConcat(n + d + p + s, t, 3);
  }

  /** With a positive Id the edit validator reports exactly what the create
      validator reports for the same fields; otherwise it adds one Id failure
      after all of them. */
  lemma EditMatchesCreate(e: ContactEdit, clock: Clock)
    ensures e.id > 0 ==> EditErrors(e, clock) == CreateErrors(e.contact, clock)
    ensures e.id <= 0 ==> EditErrors(e, clock)[..|CreateErrors(e.contact, clock)|] == CreateErrors(e.contact, clock)
    ensures e.id <= 0 ==> |EditErrors(e, clock)| == |CreateErrors(e.contact, clock)| + 1
    ensures e.id <= 0 ==> EditErrors(e, clock)[|EditErrors(e, clock)| - 1] == Failure("Id", IdInvalid)
  {
  }

  /** The create validator never reports an Id failure. */
  lemma CreateHasNoIdRule(c: Contact, clock: Clock)
    ensures Failure("Id", IdInvalid) !in CreateErrors(c, clock)
  {
    assert "Id" !in ["Name", "DateOfBirth", "Phone", "Salary"];
  }

  /** Whether the contact is married never affects validation. */
  lemma MarriedNeverChecked(c: Contact, married: bool, clock: Clock)
    ensures CreateErrors(c.(married := married), clock) == CreateErrors(c, clock)
  {
  }

  /** The salary outcomes: zero is reported twice (required, and not
      positive), a negative salary once, and the maximum itself is too high. */
  lemma SalaryMessages(c: Contact, clock: Clock)
    ensures c.salary == 0.0 ==>
      SalaryFailures(c.salary) == [Failure("Salary", SalaryRequired), Failure("Salary", SalaryNotPositive)]
    ensures c.salary < 0.0 ==> SalaryFailures(c.salary) == [Failure("Salary", SalaryNotPositive)]
    ensures c.salary == MaxSalary ==> SalaryFailures(c.salary) == [Failure("Salary", SalaryTooHigh)]
    ensures Failure("Salary", SalaryTooHigh) in CreateErrors(c, clock) <==> c.salary >= MaxSalary
  {
  }

  /** Both ends of the date range are refused: the day of the 150-year limit
      is too old and today is in the future; the default date is reported as
      missing and as too old. */
  lemma DateOfBirthBoundaries(clock: Clock)
    requires clock.Valid()
    ensures clock.limit > 0 ==>
              DateOfBirthFailures(clock.limit, clock) == [Failure("DateOfBirth", DateOfBirthTooOld)]
    ensures clock.limit == 0 ==>
              DateOfBirthFailures(clock.limit, clock)
                == [Failure("DateOfBirth", DateOfBirthRequired), Failure("DateOfBirth", DateOfBirthTooOld)]
    ensures DateOfBirthFailures(clock.today, clock) == [Failure("DateOfBirth", DateOfBirthInFuture)]
    ensures DateOfBirthFailures(0, clock)
         == [Failure("DateOfBirth", DateOfBirthRequired), Failure("DateOfBirth", DateOfBirthTooOld)]
    ensures forall dob: nat :: DateOfBirthFailures(dob, clock) == [] <==> DateOfBirthOk(dob, clock)
  {
  }

  /** A phone of seven spaces fits the pattern and the length limits, and is
      refused only as missing. */
  lemma BlankPhoneOnlyRequired()
    ensures PhoneFailures("       ") == [Failure("Phone", PhoneRequired)]
  {
    var p := "       ";
    assert forall i | 0 <= i < |p| :: p[i] == ' ';
    assert Phone.Body(p) == p;
  }

  /** Making the salary of a valid contact negative gives exactly one
      failure, "Salary must be greater than 0". */
  lemma OnlySalaryNegative(c: Contact, clock: Clock, salary: real)
    requires CreateErrors(c, clock) == []
    requires salary < 0.0
    ensures CreateErrors(c.(salary := salary), clock) == [Failure("Salary", SalaryNotPositive)]
  {
  }

  /** Lengths are `string.Length`, in UTF-16 code units: one character above
      the Basic Multilingual Plane is already long enough for a name, and 128
      of them exceed the 255 limit. */
  lemma NameLengthInCodeUnits()
    ensures NameFailures("\U{20BB7}") == []
    ensures NameFailures(seq(128, _ => '\U{20BB7}')) == [Failure("Name", NameTooLong)]
  {
    var one := "\U{20BB7}";
    assert one[1..] == [];
    assert !IsWhiteSpace(one[0]);
    var many := seq(128, _ => '\U{20BB7}');
    Utf16LengthBounds(many);
    assert !IsWhiteSpace(many[0]);
  }
}
