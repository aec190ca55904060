# ContactManager CSV import — Dafny model

This project models the bulk import of contacts in ContactManager. The
modelled code is `CsvService.ParseContactsAsync` plus the FluentValidation
rule sets it relies on. The import first applies two gates to the uploaded
file: the file must not be empty, and its name must end in ".csv". It then
validates the parsed records one at a time with the create validator. It
stops at the first row that cannot be read or does not validate. Only when
every row passes does it return the records.

Files:

- `contacts.dfy`, module `Contacts`: the records. `Contact` models
  `ContactCreateViewModel`. Its date of birth is a `DateOnly` day number and
  its salary is an exact real. `ContactEdit` adds the `Id`.
- `text.dfy`, module `Text`: the string helpers. It defines .NET white
  space, `string.Length` in UTF-16 code units, the ordinal case-insensitive suffix test, decimal rendering of row
  numbers with a read-back lemma, and `string.Join`.
- `phone.dfy`, module `Phone`: the phone pattern `^\+?[\d\s\-()]+$`. It is
  given as an automaton, and a lemma proves the automaton equal to a
  declarative reading of the pattern.
- `rules.dfy`, module `Rules`: the part of FluentValidation that is used. A
  rule selects one property and runs a chain of components over it. No
  cascade mode is set, so every failing link is reported. Rules run in
  declaration order.
- `validators.dfy`, module `ContactValidators`: the common rules
  (`AddCommonRules`) as data, the create validator (exactly the common
  rules) and the edit validator (the common rules, then `Id > 0`). It also
  defines per-field reference definitions, and the lemmas tie the rule
  engine's output to them.
- `csv_import.dfy`, module `CsvImport`: `ParseContacts` (the service) and
  `ReadRows` (its `foreach` loop). It also defines `StopIndex`, the first row
  that is not a valid record, which is used to state the loop's outcome
  without the loop.

`ParseContactsAsync` does not collect failures across rows. It returns at
the first invalid row, with one message that names only that row
(`LaterRowsNeverRead`, `InvalidRowReported`).

A note on the salary rule: its message says the maximum is 9,999,999.99, but
the check is `LessThan(9999999.99m)`, so that exact value is refused. The
model follows the check (`SalaryMessages`).

## Model

| member | source | states |
|---|---|---|
| CsvImport.EmptyFileRefused | ContactManager/ContactManager.BLL/Services/CsvService.cs:22-25 | A missing or zero-length file gives `Fail("File is empty.")`; the name, the rows and the validator play no part. |
| CsvImport.WrongExtensionRefused | ContactManager/ContactManager.BLL/Services/CsvService.cs:27-30 | A non-empty file whose name does not end in '.', 'c'/'C', 's'/'S', 'v'/'V' gives `Fail("File must be a CSV file.")` whatever its rows are. |
| Text.CsvSuffix | ContactManager/ContactManager.BLL/Services/CsvService.cs:27 | The ordinal case-insensitive ".csv" suffix test holds exactly when the last four characters are '.', c or C, s or S, v or V. |
| CsvImport.StopIndex | ContactManager/ContactManager.BLL/Services/CsvService.cs:43-51 | The first row that is not a valid record: every earlier row is a record with no failures, and that row is not (or there is none). |
| CsvImport.ReadRowsMeetsExpected | ContactManager/ContactManager.BLL/Services/CsvService.cs:40-61 | The loop, started at any row number and with any accepted prefix, returns all records when no row stops it, and otherwise the message of the first stopping row, numbered by its position. |
| CsvImport.ImportOutcome | ContactManager/ContactManager.BLL/Services/CsvService.cs:20-66 | For a file that passes both gates, the result is `Ok` of all rows' records when every row validates; otherwise it is the failure of the first row that does not, numbered k + 2. |
| CsvImport.AllValidRowsImported | ContactManager/ContactManager.BLL/Services/CsvService.cs:36-57 | When every row validates, the result is `Ok` with one record per data row, in file order. A header-only file gives `Ok([])`. |
| CsvImport.OkMeansEveryRowValid | ContactManager/ContactManager.BLL/Services/CsvService.cs:45-57 | An `Ok` result means both gates passed, every row was read, and every returned record has no validation failures. |
| CsvImport.InvalidRowReported | ContactManager/ContactManager.BLL/Services/CsvService.cs:41-54 | The first invalid data row, at 0-based index k, is reported as "Row k+2" with exactly its own failures. |
| CsvImport.ParseErrorReported | ContactManager/ContactManager.BLL/Services/CsvService.cs:40-61 | An unreadable row met before any invalid row fails the import with "CSV parsing error at line …" and the parser's line and reason. |
| CsvImport.LaterRowsNeverRead | ContactManager/ContactManager.BLL/Services/CsvService.cs:43-51 | The rows after the stopping row do not matter and are never validated: replacing them, or changing the validator on them, leaves the result unchanged. |
| CsvImport.RowMessageNamesOneRow | ContactManager/ContactManager.BLL/Services/CsvService.cs:49-50 | Failure messages for different row numbers always differ, so the row can be read back from the message. |
| CsvImport.RowMessageCountsFailures | ContactManager/ContactManager.BLL/Services/CsvService.cs:49-50 | When no failure text contains a '|', the row message has exactly one '|' per gap between failures, so it lists the validator's failures one by one. |
| CsvImport.TwoValidRowsImported | ContactManager/ContactManager.BLL/Services/CsvService.cs:36-57 | A header and two rows that the validator accepts import as exactly those two contacts, in order. |
| CsvImport.NegativeSalaryOnRowThree | ContactManager/ContactManager.BLL/Services/CsvService.cs:41-54 | Row 2 valid and row 3 with a negative salary fail the import with the literal message "Row 3: Salary: Salary must be greater than 0" and no contacts. |
| CsvImport.NegativeSalaryRowThreeMessage | ContactManager/ContactManager.BLL/Services/CsvService.cs:49-50 | The row message for row 3 with only the negative-salary failure is exactly "Row 3: Salary: Salary must be greater than 0". |
| CsvImport.ParseErrorFirstNeedsNoValidation | ContactManager/ContactManager.BLL/Services/CsvService.cs:59-61 | An unreadable first row fails the import with the parser's line, whatever the validator is. |
| Text.NatToStringRoundTrip | ContactManager/ContactManager.BLL/Services/CsvService.cs:50 | The rendered row number is non-empty, all digits, and reads back as the number. |
| Text.Utf16LengthBounds | ContactManager/ContactManager.BLL/Validators/BaseContactValidator.cs:12-13 | The length the length validators compare equals the character count exactly when no character is above the Basic Multilingual Plane, and is twice it exactly when every character is. |
| Text.Utf16LengthAppend | ContactManager/ContactManager.BLL/Validators/BaseContactValidator.cs:12-13 | The UTF-16 length of a concatenation is the sum of the parts' lengths. |
| Text.JoinCountsSeparators | ContactManager/ContactManager.BLL/Services/CsvService.cs:49 | `string.Join` puts exactly one separator between consecutive items. |
| Phone.MatchesIffPattern | ContactManager/ContactManager.BLL/Validators/BaseContactValidator.cs:22 | The pattern automaton accepts exactly the strings made of an optional leading '+' and then one or more digits, white space, '-', '(' or ')'. |
| Phone.MatchShape | ContactManager/ContactManager.BLL/Validators/BaseContactValidator.cs:22 | A matching phone is non-empty and has a '+' at most at position 0; a lone "+" does not match. |
| Rules.RunChain | ContactManager/ContactManager.BLL/Validators/BaseContactValidator.cs:10-29 | A chain reports no failure exactly when every link holds. All failures carry the rule's property, and there are at most as many as links. |
| Rules.RunChainReports | ContactManager/ContactManager.BLL/Validators/BaseContactValidator.cs:10-29 | Under the default cascade, every failing link is reported, and every report comes from a failing link. |
| Rules.ValidateMeaning | ContactManager/ContactManager.BLL/Validators/BaseContactValidator.cs:8-30 | A validator reports nothing exactly when every rule passes, and each failure is named after one of its rules' properties. |
| Rules.ValidateAppend | ContactManager/ContactManager.BLL/Validators/ContactEditViewModelValidator.cs:10-13 | Rules added after existing ones append their failures after the existing failures, which stay unchanged. |
| Rules.ValidateSeesOnlySelected | ContactManager/ContactManager.BLL/Validators/BaseContactValidator.cs:8-30 | A property that no rule selects cannot change the failures. |
| ContactValidators.NameRule | ContactManager/ContactManager.BLL/Validators/BaseContactValidator.cs:10-13 | The Name chain reports "required" iff the name is blank, "at least 2" iff its UTF-16 length is below 2, and "cannot exceed 255" iff its UTF-16 length is above 255, in that order. |
| ContactValidators.DateOfBirthRule | ContactManager/ContactManager.BLL/Validators/BaseContactValidator.cs:15-18 | The DateOfBirth chain reports "required" for the default date, "future" from today on, and "older than 150 years" up to and including the limit, in that order. |
| ContactValidators.PhoneRule | ContactManager/ContactManager.BLL/Validators/BaseContactValidator.cs:20-24 | The Phone chain reports "required" for a blank phone, the pattern message when the pattern fails, and the two length messages when the UTF-16 length is outside [7, 20], in that order. |
| ContactValidators.SalaryRule | ContactManager/ContactManager.BLL/Validators/BaseContactValidator.cs:26-29 | The Salary chain reports "required" for 0, "greater than 0" for any salary ≤ 0, and "too high" from 9999999.99 on, in that order. |
| ContactValidators.CommonRulesByField | ContactManager/ContactManager.BLL/Validators/BaseContactValidator.cs:8-30 | For any model type, the common rules report the Name failures, then the DateOfBirth, Phone and Salary failures. |
| ContactValidators.CreateErrors | ContactManager/ContactManager.BLL/Validators/ContactCreateViewModelValidator.cs:7-10 | The create validator's failures are exactly the common rules' failures, field group by field group, and none is about anything but the four fields. |
| ContactValidators.EditErrors | ContactManager/ContactManager.BLL/Validators/ContactEditViewModelValidator.cs:8-14 | The edit validator's failures are the create failures for the same fields, then ("Id", "Contact ID must be valid") when Id ≤ 0. |
| ContactValidators.CreateValidIff | ContactManager/ContactManager.BLL/Validators/ContactCreateViewModelValidator.cs:9 | A contact validates iff the name is non-blank with 2 ≤ UTF-16 length ≤ 255, limit < dob < today, the phone is non-blank, matches and has 7 ≤ UTF-16 length ≤ 20, and 0 < salary < 9999999.99. |
| ContactValidators.NameLengthInCodeUnits | ContactManager/ContactManager.BLL/Validators/BaseContactValidator.cs:12-13 | The name "𠮷" (one character, two code units) has no Name failure, and 128 such characters are refused as longer than 255. |
| ContactValidators.EditErrorsInRuleOrder | ContactManager/ContactManager.BLL/Validators/ContactEditViewModelValidator.cs:10-13 | Failures come out grouped in the order Name, DateOfBirth, Phone, Salary, Id. |
| ContactValidators.EditMatchesCreate | ContactManager/ContactManager.BLL/Validators/ContactEditViewModelValidator.cs:8-14 | With Id > 0 the edit failures equal the create failures. Otherwise they are the create failures followed by exactly one Id failure. |
| ContactValidators.CreateHasNoIdRule | ContactManager/ContactManager.BLL/Validators/ContactCreateViewModelValidator.cs:7-10 | The create validator never reports the Id failure. |
| ContactValidators.MarriedNeverChecked | ContactManager/ContactManager.BLL/Validators/BaseContactValidator.cs:8-30 | Changing Married never changes the failures. |
| ContactValidators.SalaryMessages | ContactManager/ContactManager.BLL/Validators/BaseContactValidator.cs:26-29 | A salary of 0 gives "required" and "greater than 0". A negative salary gives only "greater than 0". Exactly 9999999.99 gives "too high", and "too high" is reported iff the salary is at least that. |
| ContactValidators.DateOfBirthBoundaries | ContactManager/ContactManager.BLL/Validators/BaseContactValidator.cs:15-18 | Both ends of the range are refused: the limit day is too old and today is in the future. The default date is missing and too old. No DateOfBirth failure occurs iff limit < dob < today. |
| ContactValidators.BlankPhoneOnlyRequired | ContactManager/ContactManager.BLL/Validators/BaseContactValidator.cs:20-24 | Seven spaces pass the pattern and the length checks and are refused only as "Phone is required". |
| ContactValidators.OnlySalaryNegative | ContactManager/ContactManager.BLL/Validators/BaseContactValidator.cs:26-29 | A valid contact with a negative salary has exactly one failure, ("Salary", "Salary must be greater than 0"). |

## Left out

- CSV tokenising and type conversion (header mapping; date, bool and decimal parsing) come from the CsvHelper library, whose code is not part of this model. Each data row is an input instead: `Parsed(record)`, `ParseError(line, reason)` for a `CsvHelperException`, or `Crash(reason)` for any other exception. The parser's line number and the exception texts are inputs as well.
- Streams, readers, `using` disposal and `async`/`Task` are I/O plumbing. The service is a synchronous pure function.
- `DateTime.Now` and `AddYears(-150)` read the clock and do calendar arithmetic. Both dates are a `Clock` parameter, given as `DateOnly` day numbers. They are read when the validator is built.
- `\d` in .NET regular expressions matches every Unicode decimal digit. The model accepts only the ASCII digits. White space uses .NET's full list.
- `StringComparison.OrdinalIgnoreCase` is modelled by upper-casing ASCII letters only.
- Null strings are not modelled. The import never validates one, because CsvHelper reads an empty field as "". The edit form binds a blank Name or Phone as null, and FluentValidation then reports only the NotEmpty message, because the length and pattern validators pass on null. Given "", the model also reports the length failures, and for Phone the pattern failure too.
- `decimal` is an exact real, so its 28-digit precision limit is not modelled. The 32-bit range of `Id` is not modelled either; only its sign matters.
- `ContactEditViewModel.cs` is not part of this model. The edit model is taken to be the create model plus an integer `Id`, as the validator's type constraint implies.
- The controller, repository, database context, entity configuration, AutoMapper profile, dependency-injection and application setup, `Program.cs` and the client-side sorting script are outside the import logic. Persisting the accepted list (`CreateRangeAsync`) is the controller's step and is not modelled.
