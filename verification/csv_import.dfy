/** `CsvService.ParseContactsAsync`: the gate checks on the uploaded file and
    the loop that validates the parsed records one by one, stopping at the
    first row that cannot be read or does not validate. Tokenising and type
    conversion (CsvHelper) are not modelled: the upload carries, for each data
    row, what reading that row produced. */
module CsvImport {
  import opened Text
  import opened Contacts
  import opened Rules
  import ContactValidators

  datatype Option<T> = None | Some(value: T)

  /** What pulling the next record out of `GetRecords` gives: a record, a
      `CsvHelperException` raised while the parser stands at `line`, or any
      other exception. */
  datatype RowRead =
    | Parsed(record: Contact)
    | ParseError(line: nat, reason: string)
    | Crash(reason: string)

  /** The uploaded form file: its name, its length in bytes, and the reads
      of its data rows in file order (the header is not among them). */
  datatype Upload = Upload(fileName: string, length: nat, rows: seq<RowRead>)

  /** The service's `Result<List<ContactCreateViewModel>>`: the contacts, or
      one error message. */
  datatype ImportResult = Ok(contacts: seq<Contact>) | Fail(message: string)

  const EmptyFileMessage := "File is empty."
  const NotCsvMessage := "File must be a CSV file."

  /** The header is row 1, so the first data row is row 2. */
  const FirstDataRow: nat := 2

  /** One failure as the row message lists it: "Property: Message". */
  function FailureText(f: Failure): string {
    f.property + ": " + f.message
  }

  function FailureTexts(failures: seq<Failure>): (texts: seq<string>)
    ensures |texts| == |failures|
    ensures forall i | 0 <= i < |failures| :: texts[i] == FailureText(failures[i])
  {
    seq(|failures|, i requires 0 <= i < |failures| => FailureText(failures[i]))
  }

  /** "Row n: " followed by the row's failures joined with " | ". */
  function RowMessage(row: nat, failures: seq<Failure>): string {
    "Row " + NatToString(row) + ": " + Join(" | ", FailureTexts(failures))
  }

  function ParseErrorMessage(line: nat, reason: string): string {
    "CSV parsing error at line " + NatToString(line) + ": " + reason
  }

  function CrashMessage(reason: string): string {
    "Error processing CSV: " + reason
  }

  /** The `foreach` over the records: `rowNumber` is the number of the row
      about to be read and `contacts` the records accepted so far. A row that
      cannot be read ends the loop through the exception handlers; a row with
      validation failures ends it with that row's message. */
  function ReadRows(rows: seq<RowRead>, validate: Contact -> seq<Failure>, rowNumber: nat, contacts: seq<Contact>)
    : ImportResult
    decreases |rows|
  {
    if rows == [] then Ok(contacts)
    else
      match rows[0]
      case ParseError(line, reason) => Fail(ParseErrorMessage(line, reason))
      case Crash(reason) => Fail(CrashMessage(reason))
      case Parsed(record) =>
        var failures := validate(record);
        if failures != [] then Fail(RowMessage(rowNumber, failures))
        else ReadRows(rows[1..], validate, rowNumber + 1, contacts + [record])
  }

  /** `ParseContactsAsync(file)` with the injected validator `validate`; a
      missing file is `None`. */
  function ParseContacts(file: Option<Upload>, validate: Contact -> seq<Failure>): ImportResult {
    if file.None? || file.value.length == 0 then Fail(EmptyFileMessage)
    else if !EndsWithIgnoreCase(file.value.fileName, ".csv") then Fail(NotCsvMessage)
    else ReadRows(file.value.rows, validate, FirstDataRow, [])
  }

  /** The service as the application wires it: the validator is the create
      validator, built with the clock of that moment. */
  function Import(file: Option<Upload>, clock: ContactValidators.Clock): ImportResult {
    ParseContacts(file, CreateValidator(clock))
  }

  /** The registered `IValidator<ContactCreateViewModel>`. */
  function CreateValidator(clock: ContactValidators.Clock): Contact -> seq<Failure> {
    c => ContactValidators.CreateErrors(c, clock)
  }

  // The loop, described without the loop: it runs up to the first row that
  // is not a valid record, and that row alone decides a failure.

  /** A row the loop gets past: a record with no validation failures. */
  predicate Accepted(row: RowRead, validate: Contact -> seq<Failure>) {
    row.Parsed? && validate(row.record) == []
  }

  /** The index of the first row that is not accepted, or the number of rows
      when every row is. */
  function StopIndex(rows: seq<RowRead>, validate: Contact -> seq<Failure>): (k: nat)
    ensures k <= |rows|
    ensures forall i | 0 <= i < k :: Accepted(rows[i], validate)
    ensures k < |rows| ==> !Accepted(rows[k], validate)
    decreases |rows|
  {
    if rows == [] || !Accepted(rows[0], validate) then 0 else 1 + StopIndex(rows[1..], validate)
  }

  /** The records of rows that were all read successfully. */
  function Records(rows: seq<RowRead>): (records: seq<Contact>)
    requires forall i | 0 <= i < |rows| :: rows[i].Parsed?
    ensures |records| == |rows|
    ensures forall i | 0 <= i < |rows| :: rows[i] == Parsed(records[i])
  {
    seq(|rows|, i requires 0 <= i < |rows| => rows[i].record)
  }

  /** The message for the row that stops the import, numbered `rowNumber`. */
  function StopMessage(row: RowRead, rowNumber: nat, validate: Contact -> seq<Failure>): string {
    match row
    case Parsed(record) => RowMessage(rowNumber, validate(record))
    case ParseError(line, reason) => ParseErrorMessage(line, reason)
    case Crash(reason) => CrashMessage(reason)
  }

  /** The outcome of the loop, stated through the first stopping row. */
  function Expected(rows: seq<RowRead>, validate: Contact -> seq<Failure>, rowNumber: nat, contacts: seq<Contact>)
    : ImportResult
  {
    var k := StopIndex(rows, validate);
    if k == |rows| then Ok(contacts + Records(rows))
    else Fail(StopMessage(rows[k], rowNumber + k, validate))
  }

  /** The loop returns the accepted records when no row stops it, and
      otherwise the message of the first row that does, numbered by its
      position. */
  lemma {:induction false} ReadRowsMeetsExpected(
    rows: seq<RowRead>, validate: Contact -> seq<Failure>, rowNumber: nat, contacts: seq<Contact>)
    ensures ReadRows(rows, validate, rowNumber, contacts) == Expected(rows, validate, rowNumber, contacts)
    decreases |rows|
  {
    if rows != [] && Accepted(rows[0], validate) {
      var rest := rows[1..];
      ReadRowsMeetsExpected(rest, validate, rowNumber + 1, contacts + [rows[0].record]);
      var k := StopIndex(rest, validate);
      if k == |rest| {
        assert contacts + [rows[0].record] + Records(rest) == contacts + Records(rows);
      }
    }
  }

  /** For a file that passes the gates, the import yields all records when
      every row is a valid record, and otherwise fails with the message of
      the first row that is not, row numbers starting at 2. */
  lemma ImportOutcome(file: Upload, validate: Contact -> seq<Failure>)
    requires file.length > 0 && EndsWithIgnoreCase(file.fileName, ".csv")
    ensures var k := StopIndex(file.rows, validate);
      ParseContacts(Some(file), validate)
        == if k == |file.rows| then Ok(Records(file.rows))
           else Fail(StopMessage(file.rows[k], k + FirstDataRow, validate))
  {
    ReadRowsMeetsExpected(file.rows, validate, FirstDataRow, []);
    var k := StopIndex(file.rows, validate);
    if k == |file.rows| {
      assert [] + Records(file.rows) == Records(file.rows);
    }
  }

  /** A missing or empty file is refused before anything else is looked at:
      its name, its rows and the validator do not matter. */
  lemma EmptyFileRefused(file: Option<Upload>, validate: Contact -> seq<Failure>)
    requires file.None? || file.value.length == 0
    ensures ParseContacts(file, validate) == Fail(EmptyFileMessage)
    ensures forall other: Contact -> seq<Failure> :: ParseContacts(file, other) == ParseContacts(file, validate)
  {
  }

  /** A non-empty file whose name does not end in ".csv" (in any letter
      case) is refused without reading a row. */
  lemma WrongExtensionRefused(file: Upload, validate: Contact -> seq<Failure>)
    requires file.length > 0
    requires !(|file.fileName| >= 4
               && file.fileName[|file.fileName| - 4] == '.'
               && file.fileName[|file.fileName| - 3] in "cC"
               && file.fileName[|file.fileName| - 2] in "sS"
               && file.fileName[|file.fileName| - 1] in "vV")
    ensures ParseContacts(Some(file), validate) == Fail(NotCsvMessage)
    ensures forall rows :: ParseContacts(Some(file.(rows := rows)), validate) == Fail(NotCsvMessage)
  {
    CsvSuffix(file.fileName);
  }

  /** When every row is a valid record the import returns them all, one per
      data row, in file order; a file with only a header gives no contacts. */
  lemma AllValidRowsImported(file: Upload, validate: Contact -> seq<Failure>)
    requires file.length > 0 && EndsWithIgnoreCase(file.fileName, ".csv")
    requires forall i | 0 <= i < |file.rows| :: Accepted(file.rows[i], validate)
    ensures ParseContacts(Some(file), validate).Ok?
    ensures |ParseContacts(Some(file), validate).contacts| == |file.rows|
    ensures forall i | 0 <= i < |file.rows| ::
              file.rows[i] == Parsed(ParseContacts(Some(file), validate).contacts[i])
    ensures file.rows == [] ==> ParseContacts(Some(file), validate) == Ok([])
  {
    ImportOutcome(file, validate);
  }

  /** A successful import passed both gates, read every row, and every
      returned contact passed validation. */
  lemma OkMeansEveryRowValid(file: Upload, validate: Contact -> seq<Failure>)
    requires ParseContacts(Some(file), validate).Ok?
    ensures file.length > 0 && EndsWithIgnoreCase(file.fileName, ".csv")
    ensures var contacts := ParseContacts(Some(file), validate).contacts;
      && |contacts| == |file.rows|
      && forall i | 0 <= i < |contacts| :: file.rows[i] == Parsed(contacts[i]) && validate(contacts[i]) == []
  {
    ImportOutcome(file, validate);
  }

  /** The data row at index k that is the first not to validate is reported
      as row k + 2, with exactly its own failures. */
  lemma InvalidRowReported(file: Upload, validate: Contact -> seq<Failure>, k: nat)
    requires file.length > 0 && EndsWithIgnoreCase(file.fileName, ".csv")
    requires k < |file.rows| && file.rows[k].Parsed? && validate(file.rows[k].record) != []
    requires forall i | 0 <= i < k :: Accepted(file.rows[i], validate)
    ensures ParseContacts(Some(file), validate) == Fail(RowMessage(k + 2, validate(file.rows[k].record)))
  {
    ImportOutcome(file, validate);
    StopIndexIsFirst(file.rows, validate, k);
  }

  /** A row that cannot be read, met before any invalid row, fails the import
      with the parser's line and reason. */
  lemma ParseErrorReported(file: Upload, validate: Contact -> seq<Failure>, k: nat)
    requires file.length > 0 && EndsWithIgnoreCase(file.fileName, ".csv")
    requires k < |file.rows| && file.rows[k].ParseError?
    requires forall i | 0 <= i < k :: Accepted(file.rows[i], validate)
    ensures ParseContacts(Some(file), validate)
         == Fail(ParseErrorMessage(file.rows[k].line, file.rows[k].reason))
  {
    ImportOutcome(file, validate);
    StopIndexIsFirst(file.rows, validate, k);
  }

  /** The first row that is not accepted is the stopping row. */
  lemma StopIndexIsFirst(rows: seq<RowRead>, validate: Contact -> seq<Failure>, k: nat)
    requires k < |rows| && !Accepted(rows[k], validate)
    requires forall i | 0 <= i < k :: Accepted(rows[i], validate)
    ensures StopIndex(rows, validate) == k
  {
  }

  /** Nothing after the stopping row matters: the rows after it may be
      anything, and they are never validated, so a validator that agrees on
      the rows up to it gives the same result. */
  lemma LaterRowsNeverRead(
    file: Upload, validate: Contact -> seq<Failure>, later: seq<RowRead>, other: Contact -> seq<Failure>)
    requires StopIndex(file.rows, validate) < |file.rows|
    requires forall i | 0 <= i <= StopIndex(file.rows, validate) && file.rows[i].Parsed? ::
               other(file.rows[i].record) == validate(file.rows[i].record)
    ensures var k := StopIndex(file.rows, validate);
      ParseContacts(Some(file.(rows := file.rows[..k + 1] + later)), other) == ParseContacts(Some(file), validate)
  {
    var k := StopIndex(file.rows, validate);
    var rows' := file.rows[..k + 1] + later;
    var file' := file.(rows := rows');
    assert forall i | 0 <= i <= k :: rows'[i] == file.rows[i];
    StopIndexIsFirst(rows', other, k);
    if file.length > 0 && EndsWithIgnoreCase(file.fileName, ".csv") {
      ImportOutcome(file, validate);
      ImportOutcome(file', other);
    }
  }

  /** The row number can be read back from a row failure message: two
      messages about different rows always differ. */
  lemma RowMessageNamesOneRow(m: nat, n: nat, a: seq<Failure>, b: seq<Failure>)
    requires RowMessage(m, a) == RowMessage(n, b)
    ensures m == n
  {
    var dm, dn := NatToString(m), NatToString(n);
    NatToStringRoundTrip(m);
    NatToStringRoundTrip(n);
    var x, y := RowMessage(m, a), RowMessage(n, b);
    assert forall i | 0 <= i < |dm| :: x[4 + i] == dm[i];
    assert forall i | 0 <= i < |dn| :: y[4 + i] == dn[i];
    assert x[4 + |dm|] == ':';
    assert y[4 + |dn|] == ':';
    assert |dm| == |dn|;
    assert dm == dn;
    NatToStringInjective(m, n);
  }

  /** When no property name or message contains '|', a row failure message
      has exactly one '|' between consecutive failures, so the number of
      failures can be read from it. */
  lemma RowMessageCountsFailures(row: nat, failures: seq<Failure>)
    requires |failures| > 0
    requires forall i | 0 <= i < |failures| :: Occurrences('|', FailureText(failures[i])) == 0
    ensures Occurrences('|', RowMessage(row, failures)) == |failures| - 1
  {
    var texts := FailureTexts(failures);
    NatToStringRoundTrip(row);
    assert Occurrences('|', " | ") == 1;
    JoinCountsSeparators('|', " | ", texts);
    var prefix := "Row " + NatToString(row) + ": ";
    DigitsHaveNoBar(NatToString(row));
    OccurrencesAppend('|', "Row " + NatToString(row), ": ");
    OccurrencesAppend('|', "Row ", NatToString(row));
    OccurrencesAppend('|', prefix, Join(" | ", texts));
  }

  lemma {:induction false} DigitsHaveNoBar(s: string)
    requires AllDigits(s)
    ensures Occurrences('|', s) == 0
    decreases |s|
  {
    if s != [] {
      DigitsHaveNoBar(s[1..]);
    }
  }

  /** Two valid data rows are imported as exactly those two contacts, in
      file order. */
  lemma TwoValidRowsImported(file: Upload, validate: Contact -> seq<Failure>, a: Contact, b: Contact)
    requires file.length > 0 && EndsWithIgnoreCase(file.fileName, ".csv")
    requires file.rows == [Parsed(a), Parsed(b)]
    requires validate(a) == [] && validate(b) == []
    ensures ParseContacts(Some(file), validate) == Ok([a, b])
  {
    assert forall i | 0 <= i < |file.rows| :: Accepted(file.rows[i], validate) by {
      assert file.rows[0] == Parsed(a) && file.rows[1] == Parsed(b);
    }
    AllValidRowsImported(file, validate);
    var r := ParseContacts(Some(file), validate);
    assert r.contacts == [a, b] by {
      assert r.contacts[0] == a && r.contacts[1] == b;
    }
  }

  /** A valid row 2 followed by a row 3 whose only fault is a negative salary
      fails the whole import, returning no contacts, with the message
      "Row 3: Salary: Salary must be greater than 0". */
  lemma NegativeSalaryOnRowThree(file: Upload, clock: ContactValidators.Clock, good: Contact, salary: real)
    requires file.length > 0 && EndsWithIgnoreCase(file.fileName, ".csv")
    requires ContactValidators.CreateErrors(good, clock) == []
    requires salary < 0.0
    requires file.rows == [Parsed(good), Parsed(good.(salary := salary))]
    ensures Import(Some(file), clock) == Fail("Row 3: Salary: Salary must be greater than 0")
  {
    NegativeSalaryRowThreeFails(file, clock, good, salary);
    NegativeSalaryRowThreeMessage();
  }

  /** The same import, with the message still in terms of `RowMessage`. */
  lemma NegativeSalaryRowThreeFails(file: Upload, clock: ContactValidators.Clock, good: Contact, salary: real)
    requires file.length > 0 && EndsWithIgnoreCase(file.fileName, ".csv")
    requires ContactValidators.CreateErrors(good, clock) == []
    requires salary < 0.0
    requires file.rows == [Parsed(good), Parsed(good.(salary := salary))]
    ensures Import(Some(file), clock)
         == Fail(RowMessage(3, [Failure("Salary", ContactValidators.SalaryNotPositive)]))
  {
    var validate := CreateValidator(clock);
    ContactValidators.OnlySalaryNegative(good, clock, salary);
    InvalidRowReported(file, validate, 1);
  }

  /** The message for row 3 with only the negative-salary failure, spelled
      out. */
  lemma NegativeSalaryRowThreeMessage()
    ensures RowMessage(3, [Failure("Salary", ContactValidators.SalaryNotPositive)])
         == "Row 3: Salary: Salary must be greater than 0"
  {
    var fs := [Failure("Salary", ContactValidators.SalaryNotPositive)];
    var s1 := "Salary: Salary must be greater than 0";
    SalaryNotPositiveText();
    assert FailureTexts(fs) == [s1];
    assert Join(" | ", [s1]) == s1;
    RowThreeHead();
    RowThreeText();
  }

  /** The negative-salary failure as the row message lists it. */
  lemma SalaryNotPositiveText()
    ensures FailureText(Failure("Salary", ContactValidators.SalaryNotPositive))
         == "Salary: Salary must be greater than 0"
  {
    assert "Salary" + ": " == "Salary: ";
    assert "Salary: " + "Salary must be greater than 0" == "Salary: Salary must be greater than 0";
  }

  /** "Row 3: " as the interpolation writes it. */
  lemma RowThreeHead()
    ensures "Row " + NatToString(3) + ": " == "Row 3: "
  {
    assert NatToString(3) == "3";
    assert "Row " + "3" == "Row 3";
  }

  /** "Row 3: " in front of that failure text. */
  lemma RowThreeText()
    ensures "Row 3: " + "Salary: Salary must be greater than 0"
         == "Row 3: Salary: Salary must be greater than 0"
  {
  }

  /** A row that cannot be read, met first, fails the import with the
      parser's line whatever the validator would have said about any row. */
  lemma ParseErrorFirstNeedsNoValidation(
    file: Upload, validate: Contact -> seq<Failure>, other: Contact -> seq<Failure>, line: nat, reason: string)
    requires file.length > 0 && EndsWithIgnoreCase(file.fileName, ".csv")
    requires |file.rows| > 0 && file.rows[0] == ParseError(line, reason)
    ensures ParseContacts(Some(file), validate) == Fail(ParseErrorMessage(line, reason))
    ensures ParseContacts(Some(file), other) == ParseContacts(Some(file), validate)
  {
    ParseErrorReported(file, validate, 0);
    ParseErrorReported(file, other, 0);
  }
}
