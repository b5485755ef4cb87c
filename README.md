# Guest-house site: form validation and submission store

This project models two pieces of a small guest-house website and proves
properties of them in Dafny.

**The browser script (`script.js`).**
- The field validators `validatePhone`, `validateEmail` and `validateName`.
- The phone formatter `formatPhone`.
- The two submit handlers, of the review form and of the booking modal, up
  to the moment they send. Each trims its inputs, builds the list of error
  messages with at most one per field and in field order, and builds the
  JSON body only when that list is empty.
- The step of `sendFormData` that reads the server's reply back as success
  or failure.

Each regular expression is given two ways:
- the predicate the script evaluates (`ValidatePhone`, `ValidateEmail`,
  `ValidateName`);
- the language the expression denotes (`MatchesPhonePattern`,
  `MatchesEmailPattern`).

A lemma proves that the two agree. The character classes `\s` and
`[а-яА-ЯёЁa-zA-Z]` are explicit predicates. Dates are the `YYYY-MM-DD`
strings of date inputs, compared lexicographically.

**The Express backend (`server.js`).** The SQLite database is the class
`Server.Store`. It holds:
- the three tables `bookings`, `reviews` and `investments`, as sequences of
  rows;
- one AUTOINCREMENT counter per table;
- a clock read by `CURRENT_TIMESTAMP`;
- a ghost set of every id ever handed out.

The handlers are methods of the class. `POST /api/submit-form` dispatches on
`type`. The three `GET` listings return a table newest first.
`DELETE /api/:type/:id` and `PUT /api/:type/:id` act on one table's row.
What each SQL statement does to a table is a function on sequences, in
module `Tables`: INSERT with its `NOT NULL` constraints, DELETE and UPDATE by
id, and `ORDER BY created_at DESC`.

The invariant `Store.Valid` holds of every table:
- ids are at least 1, strictly increasing in row order, and below the
  table's counter;
- no row is stamped later than the clock;
- every id ever handed out is below the counter, so a deleted id is never
  reused.

Every handler keeps the invariant. Each handler states exactly which table
changes and how, and that nothing else does.

Storage failures and thrown exceptions are parameters:
- `Fault` on the routes that have a `try`/`catch` (submit and PUT);
- a `dbError` flag on the others (GET and DELETE).

Modules:
- `Wrappers`: the `Option` type.
- `Text`: JavaScript whitespace, `trim`, stripping separators, the first
  position of a character, string order.
- `Validators`
- `ClientForms`
- `Records`: tables, rows, request bodies and the reply envelope.
- `Tables`
- `Server`

## Model

| member | source | states |
|---|---|---|
| `Wrappers.OrEmpty` | server.js:135 | the default for an optional message gives the empty string exactly when the message is absent or empty, and otherwise the message itself |
| `Text.StripSeparators` | script.js:129 | the cleaned phone has no whitespace, `-`, `(` or `)`; it is no longer than the input; it is the input itself when there was nothing to strip, and empty for a single separator; with `StripSeparatorsAppend` this fixes it as the input with every separator removed and every other character kept in order |
| `Text.StripSeparatorsAppend` | script.js:149 | stripping is piecewise: stripping `a + b` is stripping `a` followed by stripping `b` |
| `Text.Trim` | script.js:259-261 | the trimmed value is no longer than the input, and it neither starts nor ends with whitespace |
| `Text.TrimCutsOnlySpace` | script.js:487-492 | trimming removes only whitespace: the result is a contiguous slice of the input with only whitespace on either side, and it is empty exactly when the input is blank |
| `Text.TrimIdempotent` | script.js:144 | trimming an already trimmed value changes nothing |
| `Text.LexLessTrichotomy` | script.js:527-531 | the order on dates is irreflexive and trichotomous: a date is never earlier than itself, and of two different dates exactly one is earlier |
| `Validators.ValidatePhone` | script.js:127-133 | `validatePhone`: the separator-free value is ten digits, or `7` or `8` and ten digits, or `+7` and ten digits; an accepted value has 10 to 12 characters once stripped (the full characterisation is `PhoneAccepts`) |
| `Validators.MatchesPhonePattern` | script.js:131 | the language of the phone expression as a reference definition: an optional prefix `+7`, `7` or `8` followed by exactly ten digits; its strings have 10 to 12 characters |
| `Validators.PhoneAccepts` | script.js:127-133 | `validatePhone` accepts exactly the numbers whose separator-free form is an optional `+7`, `7` or `8` followed by exactly ten ASCII digits |
| `Validators.PlusWithoutSevenRejected` | script.js:131 | `+` followed by ten digits, with no `7`, is rejected |
| `Validators.ValidateEmail` | script.js:136-139 | `validateEmail`: no whitespace, a first `@` that is not the first character, no second `@`, and a `.` inside the domain; an accepted address has at least five characters and neither starts nor ends with `@` (the full characterisation is `EmailAccepts`) |
| `Validators.MatchesEmailPattern` | script.js:137 | the language of `^[^\s@]+@[^\s@]+\.[^\s@]+$` as a reference definition; its strings contain `@` and have at least five characters |
| `Validators.EmailAcceptsOnlyPattern` | script.js:136-139 | every address `validateEmail` accepts is in the language of `^[^\s@]+@[^\s@]+\.[^\s@]+$` |
| `Validators.PatternAcceptedByEmail` | script.js:136-139 | every address in that language is accepted by `validateEmail` |
| `Validators.EmailAccepts` | script.js:136-139 | `validateEmail` accepts exactly the language of its expression: no whitespace, a single `@` with something before it, and a `.` in the domain that is neither its first nor its last character |
| `Validators.ValidateName` | script.js:142-145 | `validateName`: the trimmed name has at least two characters, each a letter of `[а-яА-ЯёЁa-zA-Z]` or whitespace; an accepted name, once trimmed, starts and ends with a letter |
| `Validators.ValidateNameOfTrimmed` | script.js:142-145 | validating the already trimmed name, as the forms do, gives the same answer as validating the raw value |
| `Validators.EmptyInputsInvalid` | script.js:127-145 | no validator accepts the empty string, so a field is never both reported missing and accepted |
| `Validators.FormatPhone` | script.js:148-158 | the formatted number always starts with `+` and contains no separators |
| `Validators.FormatPhoneIdempotent` | script.js:148-158 | formatting a formatted number returns it unchanged |
| `Validators.FormatPhoneOfValid` | script.js:127-158 | every valid number with a `+7`, `7` or `8` prefix, and every bare ten-digit number that starts with neither `7` nor `8`, becomes exactly `+7` followed by its ten-digit national number |
| `Validators.FormatPhoneDropsDigit` | script.js:127-158 | a bare ten-digit number starting with `7` or `8` is accepted, but is formatted as `+7` followed by only nine digits, which is no longer a valid number |
| `Validators.NormalizePhone` | script.js:148-158 | the corrected formatter: its output always starts with `+` and has no separators |
| `Validators.NormalizePhoneCanonical` | script.js:127-158 | every valid number is normalised to `+7` followed by its national number; the result is itself valid and normalises to itself |
| `Validators.NormalizeAgreesWithFormat` | script.js:148-158 | the corrected formatter differs from `formatPhone` exactly on bare ten-digit numbers that start with `7` or `8` |
| `ClientForms.FieldErrors` | script.js:268-272 | one field adds at most one message: the "required" one exactly when the value is empty, the "invalid" one exactly when it is non-empty and fails its check |
| `ClientForms.CheckField` | script.js:274-278 | the `if (!v) push(...) else if (!valid(v)) push(...)` step appends exactly that field's messages to the list |
| `ClientForms.ReviewErrors` | script.js:266-284 | the review form's error list for trimmed values: at most three messages, one per field (its meaning is given by `ReviewErrorsReport` and `ReviewErrorsOrdered`) |
| `ClientForms.ReviewErrorsReport` | script.js:266-284 | the review form reports each of its six problems exactly when it is there; a text that is non-empty but under 10 characters is reported too short; the list is empty exactly when the name and e-mail are non-empty and valid and the text has at least 10 characters |
| `ClientForms.ReviewErrorsOrdered` | script.js:266-284 | the review form reports at most one message per field, in the order name, e-mail, text, and only for those three fields |
| `ClientForms.ReviewSubmit` | script.js:259-297 | the errors are exactly those of the trimmed fields; a body is built exactly when there are none, that is exactly when name, e-mail and text pass their checks; the body has `type: 'review'`, the trimmed fields and the clock reading |
| `ClientForms.DateErrors` | script.js:519-533 | the date part of the booking error list: at most two messages (its meaning is given by `DateErrorsReport` and `DateErrorsOrdered`) |
| `ClientForms.CheckDates` | script.js:519-533 | the date step appends "check-in required" and "check-out required" for empty dates, and the order error when both are there and check-out is not later |
| `ClientForms.DateErrorsReport` | script.js:519-533 | each date message appears exactly when its condition holds; no date message appears exactly when both dates are present and check-in is strictly earlier than check-out |
| `ClientForms.DateErrorsOrdered` | script.js:519-533 | the date checks report at most one message per date, check-in first |
| `ClientForms.ContactErrors` | script.js:499-515 | the name, phone and e-mail part of the booking error list: at most three messages (its meaning is given by `ContactErrorsReport`) |
| `ClientForms.BookingErrors` | script.js:499-533 | the booking error list, contact messages then date messages: at most five (its meaning is given by `BookingErrorsEmpty` and `BookingErrorsOrdered`) |
| `ClientForms.ContactErrorsReport` | script.js:499-515 | the name, phone and e-mail checks report each of their six problems exactly when it is there, and nothing about other fields |
| `ClientForms.BookingErrorsEmpty` | script.js:499-533 | the booking modal has no errors exactly when name, phone and e-mail are non-empty and valid and check-out comes strictly after check-in |
| `ClientForms.BookingErrorsOrdered` | script.js:499-533 | the booking modal reports at most one message per field, in the order name, phone, e-mail, check-in, check-out |
| `ClientForms.BookingSubmit` | script.js:487-559 | the errors are exactly those of the trimmed contact fields and the untrimmed dates; a body is built exactly when there are none; the body has `type: 'booking'`, the label text, the trimmed fields, the dates, the bathhouse flag and the phone as `formatPhone` gives it; that phone is `+7` followed by the ten-digit national number except for the bare ten-digit numbers starting with `7` or `8` of the finding below |
| `ClientForms.ClassifyReply` | script.js:200-211 | a status outside 200-299 is always a failure, even if the body says success; otherwise the body's `success` decides; success carries the body's id; a failure always has a message, and it is the server's message when the server sent one |
| `ClientForms.ClassifyServerReply` | script.js:200-211 | every well-formed reply of the backend is read as what it says: a created row as success with its id, a failure as a failure with the server's reason |
| `ClientForms.ClientBodiesAreStorable` | script.js:291-297 | the bodies both forms send select the intended table and leave no `NOT NULL` column null |
| `Records.PathTable` | server.js:231-236 | the `:type` path segment selects the table of that name, and no table when it names none |
| `Records.FormTable` | server.js:128-185 | the form `type` selects the table of that form, and no table for any other value |
| `Tables.InsertFailure` | server.js:132-190 | a driver error gives `Ошибка сохранения данных: ` followed by its message; a thrown exception gives `Внутренняя ошибка сервера: ` followed by its message; with no fault the insert fails exactly when a `NOT NULL` column would be null; every error text is non-empty |
| `Tables.NewRow` | server.js:130-171 | the inserted row belongs to the right table and has the given id and creation time; a booking stores `type = 'booking'`, `bathhouse` as 1 when truthy and 0 otherwise, and an absent or empty `message` as `''` |
| `Tables.AppendKeepsInv` | server.js:66 | appending a row under the next AUTOINCREMENT id keeps the table invariant, and the new id is larger than every id in the table |
| `Tables.Without` | server.js:238 | the rows left after `DELETE ... WHERE id = ?` are exactly the rows with another id; nothing changes when no row has that id |
| `Tables.WithoutIncreasing` | server.js:238 | deleting keeps the ids in increasing order |
| `Tables.WithoutRemovesOne` | server.js:238 | deleting an id that is present removes exactly one row |
| `Tables.WithoutKeepsInv` | server.js:238 | deleting keeps the table invariant and removes at most one row |
| `Tables.Patched` | server.js:255-296 | an updated row takes exactly the columns its table's statement lists from the body, with `bathhouse` as 0 or 1 and an absent or empty `message` as `''`; it keeps its id, `type`, `timestamp` and creation time |
| `Tables.Overwritten` | server.js:255-296 | `UPDATE ... WHERE id = ?` patches the row with that id and leaves every other row untouched |
| `Tables.OverwrittenKeepsInv` | server.js:255-296 | updating keeps the table invariant, and keeps every row's id, timestamp and creation time |
| `Tables.UpdateFailure` | server.js:253-303 | a thrown exception and a driver error give their fixed messages; with no fault the update fails exactly when a row has that id and a `NOT NULL` column would be set to null |
| `Tables.InsertNewestFirst` | server.js:195 | one insertion step of the sort keeps the listing newest first |
| `Tables.InsertNewestFirstCounts` | server.js:195 | the insertion step adds its row once and keeps every other row as often as before |
| `Tables.SortNewestFirst` | server.js:195 | the listing is ordered by creation time, newest first, and has as many rows as the table |
| `Tables.SortNewestFirstCounts` | server.js:195 | the listing is a permutation of the table |
| `Server.TableValidAppend` | server.js:66 | inserting under the next id keeps the table valid, and the id counts as handed out |
| `Server.TableValidWithout` | server.js:238 | deleting keeps the table valid |
| `Server.TableValidOverwritten` | server.js:255-296 | updating keeps the table valid |
| `Server.Store.constructor` | server.js:63-116 | the new database has three empty tables whose counters start at 1 |
| `Server.Store.Tick` | server.js:77 | time passing keeps the invariant |
| `Server.Store.Append` | server.js:132-143 | the INSERT appends the row to its table and moves only that table's counter on by one; the other tables are unchanged and the invariant is kept |
| `Server.Store.SubmitForm` | server.js:119-191 | an unknown `type` answers 400 with `Неизвестный тип формы: ` followed by the type, and writes nothing; a failing insert answers 500 with its error and writes nothing; otherwise exactly one row is appended to the matching table, under an id larger than every id that table ever handed out (deleted ones included); the answer is 200 with that id and nothing else changes |
| `Server.Store.List` | server.js:194-224 | a failing query answers 500 with `Ошибка получения данных`; otherwise 200 with a permutation of the table's rows, newest first |
| `Server.Store.Delete` | server.js:227-246 | an unknown path type answers 400 and changes nothing; a failing query answers 500 and changes nothing; otherwise only the row with that id, if any, is removed, and the answer is success even when no row matched |
| `Server.Store.Update` | server.js:249-304 | an unknown path type answers 400 and changes nothing; a failure answers 500 and changes nothing; otherwise only the listed columns of the row with that id, if any, are overwritten, and the answer is success even when no row matched |
| `Server.ReviewScenario` | server.js:146-213 | a review submitted to an empty database is created with id 1, and the reviews listing then returns exactly that one row |

## Left out

- The page's DOM and UI code is not modelled: the menu, scrolling, animations, modal styling and notifications. It has no logic to state.
- The form handlers stop at the body they would send. What happens to the form and modal afterwards is not modelled.
- Network I/O is not modelled: the API base URL, the availability check, `fetch`, and parsing JSON or text replies. `ClassifyReply` starts from an HTTP status and a parsed body.
- Non-string JSON values are not modelled. A reply's `success` is its truthiness, `error` is a string (empty when absent), and a request field is a string or absent. An explicit `null` is not distinguished from an absent field: for `{"type": null}` the server's 400 message ends in `null`, which the model prints as `undefined`.
- The texts of the error messages, and the notification that joins them, are not modelled: each message is a `FormError` value named by what it reports.
- Date objects and time zones are not modelled. Date inputs hold `YYYY-MM-DD` or are empty, so `new Date(a) <= new Date(b)` is string order. The `min` attributes computed from the host clock are not modelled.
- The clock reading `new Date().toISOString()` is the parameter `now`.
- String length is counted in code points, while JavaScript's `length` counts UTF-16 units. The two differ only for characters outside the Basic Multilingual Plane.
- The booking modal's `bookingDetails` notification text is not modelled. It affects only the message shown after sending.
- The legacy `salesBookingForm` handler is not modelled. It only shows alerts and sends nothing.
- `ClientForms.CheckField` evaluates the validator before the emptiness test. The validators have no side effects, so the result is the same as the script's short-circuit.
- The `:id` path parameter is an integer. How SQLite converts a non-numeric path text is not modelled.
- The other Express routes, the admin basic-auth gate and static files are not modelled. Neither are the keep-alive ping, the SQLite driver and SQL text, logging, and server startup and shutdown. These are library plumbing outside the data logic.
- `CURRENT_TIMESTAMP` is the `clock` field, in whole seconds, moved on only by `Store.Tick`. Two rows created in the same second tie, and the listing may put them in either order.
- Storage failures are parameters: `Fault` for submit and PUT, `dbError` for GET and DELETE. Which failures a real SQLite file produces is not modelled.
- Handlers run one at a time. Express interleaving asynchronous callbacks of concurrent requests is not modelled.

## Findings

| source | as written | input that shows it | evidently intended | confidence | as-written member | corrected member |
|---|---|---|---|---|---|---|
| script.js:127-158 | `validatePhone` accepts ten bare digits starting with `8` or `7`, and `formatPhone` then takes that first digit for a country prefix | `8005553535` is accepted and formatted as `+7005553535`, which has nine digits after `+7` and no longer validates | a bare ten-digit number is a national number and becomes `+78005553535` | not executed | `Validators.FormatPhoneDropsDigit` | `Validators.NormalizePhoneCanonical` |

`ClientForms.BookingSubmit` models the handler as written and sends `formatPhone`'s result.
The corrected formatter is `Validators.NormalizePhone`; `Validators.NormalizeAgreesWithFormat` proves that it differs from `formatPhone` exactly on the inputs of this finding.
