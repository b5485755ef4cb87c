/** The submit handlers of the review form and the booking modal: the
    list of error messages they build (at most one per field, in field
    order), the JSON body they send when that list is empty, and how the
    reply of the server is read back. */
module ClientForms {
  import opened Wrappers
  import opened Text
  import opened Validators
  import opened Records
  import Tables

  /** One message of the `errors` list, named by what it reports. */
  datatype FormError =
    | NameRequired | NameInvalid
    | PhoneRequired | PhoneInvalid
    | EmailRequired | EmailInvalid
    | TextRequired | TextTooShort
    | CheckInRequired | CheckOutRequired | CheckOutNotAfterCheckIn

  /** The position of an error's field on the forms: name, phone, email,
      review text, check-in date, check-out date. */
  function FieldRank(e: FormError): nat {
    match e
    case NameRequired | NameInvalid => 0
    case PhoneRequired | PhoneInvalid => 1
    case EmailRequired | EmailInvalid => 2
    case TextRequired | TextTooShort => 3
    case CheckInRequired => 4
    case CheckOutRequired | CheckOutNotAfterCheckIn => 5
  }

  /** At most one message per field, in the order of the fields. */
  predicate OnePerFieldInOrder(errors: seq<FormError>) {
    forall i, j :: 0 <= i < j < |errors| ==> FieldRank(errors[i]) < FieldRank(errors[j])
  }

  const MinReviewLength := 10

  /** The body the review form posts. */
  function ReviewBody(name: string, email: string, text: string, timestamp: string): SubmitBody {
    SubmitBody(Some("review"), None, Some(name), None, Some(email), None, None, false,
               None, Some(text), Some(timestamp))
  }

  /** The body the booking modal posts. */
  function BookingBody(bookingType: string, name: string, phone: string, email: string,
                       checkIn: string, checkOut: string, bathhouse: bool, message: string,
                       timestamp: string): SubmitBody
  {
    SubmitBody(Some("booking"), Some(bookingType), Some(name), Some(phone), Some(email),
               Some(checkIn), Some(checkOut), bathhouse, Some(message), None, Some(timestamp))
  }

  /** `new Date(checkOut) <= new Date(checkIn)` for two `YYYY-MM-DD` dates. */
  predicate NotAfter(checkOut: string, checkIn: string) {
    checkOut == checkIn || LexLess(checkOut, checkIn)
  }

  /** What one required, trimmed field adds to `errors`: `whenBlank` when
      it is empty, `whenInvalid` when it fails its check, nothing when it
      passes. */
  function FieldErrors(value: string, valid: bool, whenBlank: FormError, whenInvalid: FormError)
    : (e: seq<FormError>)
    requires whenBlank != whenInvalid
    ensures |e| <= 1
    ensures (whenBlank in e) == (value == "")
    ensures (whenInvalid in e) == (value != "" && !valid)
    ensures forall i :: 0 <= i < |e| ==> e[i] == whenBlank || e[i] == whenInvalid
  {
    if value == "" then [whenBlank] else if !valid then [whenInvalid] else []
  }

  /** The errors of the review form for trimmed values, given whether the
      name and the e-mail passed their validators. */
  function ReviewErrors(name: string, nameOk: bool, email: string, emailOk: bool, text: string)
    : (errors: seq<FormError>)
    ensures |errors| <= 3
  {
    FieldErrors(name, nameOk, NameRequired, NameInvalid)
    + FieldErrors(email, emailOk, EmailRequired, EmailInvalid)
    + FieldErrors(text, |text| >= MinReviewLength, TextRequired, TextTooShort)
  }

  /** The errors of the two date inputs of the booking modal. */
  function DateErrors(checkIn: string, checkOut: string): (errors: seq<FormError>)
    ensures |errors| <= 2
  {
    (if checkIn == "" then [CheckInRequired] else [])
    + (if checkOut == "" then [CheckOutRequired] else [])
    + (if checkIn != "" && checkOut != "" && NotAfter(checkOut, checkIn)
       then [CheckOutNotAfterCheckIn] else [])
  }

  /** The errors of the name, phone and e-mail inputs of the booking
      modal, given whether each passed its validator. */
  function ContactErrors(name: string, nameOk: bool, phone: string, phoneOk: bool,
                         email: string, emailOk: bool): (errors: seq<FormError>)
    ensures |errors| <= 3
  {
    FieldErrors(name, nameOk, NameRequired, NameInvalid)
    + FieldErrors(phone, phoneOk, PhoneRequired, PhoneInvalid)
    + FieldErrors(email, emailOk, EmailRequired, EmailInvalid)
  }

  /** The errors of the booking modal for trimmed values, given whether
      the name, the phone and the e-mail passed their validators. */
  function BookingErrors(name: string, nameOk: bool, phone: string, phoneOk: bool,
                         email: string, emailOk: bool, checkIn: string, checkOut: string)
    : (errors: seq<FormError>)
    ensures |errors| <= 5
  {
    ContactErrors(name, nameOk, phone, phoneOk, email, emailOk) + DateErrors(checkIn, checkOut)
  }

  /** Two ordered lists stay ordered when joined if every field of the
      first comes before `bound` and every field of the second does not. */
  lemma {:induction false} OrderedAppend(a: seq<FormError>, b: seq<FormError>, bound: nat)
    requires OnePerFieldInOrder(a) && OnePerFieldInOrder(b)
    requires forall i :: 0 <= i < |a| ==> FieldRank(a[i]) < bound
    requires forall j :: 0 <= j < |b| ==> bound <= FieldRank(b[j])
    ensures OnePerFieldInOrder(a + b)
  {
    forall i, j | 0 <= i < j < |a + b|
      ensures FieldRank((a + b)[i]) < FieldRank((a + b)[j])
    {
      if j < |a| {
        assert (a + b)[i] == a[i] && (a + b)[j] == a[j];
      } else if i < |a| {
        assert (a + b)[i] == a[i] && (a + b)[j] == b[j - |a|];
      } else {
        assert (a + b)[i] == b[i - |a|] && (a + b)[j] == b[j - |a|];
      }
    }
  }

  /** The review form reports each problem exactly when it is there, and
      nothing exactly when every field is filled in and passes its check. */
  lemma ReviewErrorsReport(name: string, nameOk: bool, email: string, emailOk: bool, text: string)
    ensures var errors := ReviewErrors(name, nameOk, email, emailOk, text);
      && (NameRequired in errors) == (name == "")
      && (NameInvalid in errors) == (name != "" && !nameOk)
      && (EmailRequired in errors) == (email == "")
      && (EmailInvalid in errors) == (email != "" && !emailOk)
      && (TextRequired in errors) == (text == "")
      && (TextTooShort in errors) == (0 < |text| < MinReviewLength)
      && (errors == [] <==> name != "" && nameOk && email != "" && emailOk
                            && |text| >= MinReviewLength)
  {
  }

  /** The review form reports at most one problem per field, in field
      order, and only for its three fields. */
  lemma ReviewErrorsOrdered(name: string, nameOk: bool, email: string, emailOk: bool, text: string)
    ensures var errors := ReviewErrors(name, nameOk, email, emailOk, text);
      && OnePerFieldInOrder(errors)
      && forall i :: 0 <= i < |errors| ==> FieldRank(errors[i]) in {0, 2, 3}
  {
    var n := FieldErrors(name, nameOk, NameRequired, NameInvalid);
    var e := FieldErrors(email, emailOk, EmailRequired, EmailInvalid);
    var t := FieldErrors(text, |text| >= MinReviewLength, TextRequired, TextTooShort);
    OrderedAppend(n, e, 1);
    OrderedAppend(n + e, t, 3);
  }

  /** The date checks report a missing date exactly when it is missing,
      and the order error exactly when both dates are there and check-out
      does not come after check-in; they report nothing exactly when
      check-in comes strictly before check-out. */
  lemma DateErrorsReport(checkIn: string, checkOut: string)
    ensures var errors := DateErrors(checkIn, checkOut);
      && (CheckInRequired in errors) == (checkIn == "")
      && (CheckOutRequired in errors) == (checkOut == "")
      && (CheckOutNotAfterCheckIn in errors) == (checkIn != "" && checkOut != "" && NotAfter(checkOut, checkIn))
      && (errors == [] <==> checkIn != "" && checkOut != "" && LexLess(checkIn, checkOut))
  {
    if checkIn != "" && checkOut != "" {
      LexLessTrichotomy(checkIn, checkOut);
    }
  }

  /** The date checks report at most one problem per date, check-in first,
      and only for the dates. */
  lemma DateErrorsOrdered(checkIn: string, checkOut: string)
    ensures var errors := DateErrors(checkIn, checkOut);
      && OnePerFieldInOrder(errors)
      && forall i :: 0 <= i < |errors| ==> FieldRank(errors[i]) >= 4
  {
    var dIn: seq<FormError> := if checkIn == "" then [CheckInRequired] else [];
    var dOut: seq<FormError> := if checkOut == "" then [CheckOutRequired] else [];
    var dOrder: seq<FormError> := if checkIn != "" && checkOut != "" && NotAfter(checkOut, checkIn)
                                  then [CheckOutNotAfterCheckIn] else [];
    assert OnePerFieldInOrder(dOut + dOrder);
    OrderedAppend(dIn, dOut + dOrder, 5);
    assert DateErrors(checkIn, checkOut) == dIn + (dOut + dOrder);
  }

  /** The contact inputs report each problem exactly when it is there, and
      only problems of their own fields. */
  lemma ContactErrorsReport(name: string, nameOk: bool, phone: string, phoneOk: bool,
                            email: string, emailOk: bool)
    ensures var errors := ContactErrors(name, nameOk, phone, phoneOk, email, emailOk);
      && (forall i :: 0 <= i < |errors| ==> FieldRank(errors[i]) <= 2)
      && (NameRequired in errors) == (name == "")
      && (NameInvalid in errors) == (name != "" && !nameOk)
      && (PhoneRequired in errors) == (phone == "")
      && (PhoneInvalid in errors) == (phone != "" && !phoneOk)
      && (EmailRequired in errors) == (email == "")
      && (EmailInvalid in errors) == (email != "" && !emailOk)
  {
  }

  /** The booking modal reports nothing exactly when every contact field
      is filled in and valid and check-out comes strictly after check-in. */
  lemma BookingErrorsEmpty(name: string, nameOk: bool, phone: string, phoneOk: bool,
                           email: string, emailOk: bool, checkIn: string, checkOut: string)
    ensures BookingErrors(name, nameOk, phone, phoneOk, email, emailOk, checkIn, checkOut) == [] <==>
              && name != "" && nameOk && phone != "" && phoneOk && email != "" && emailOk
              && checkIn != "" && checkOut != "" && LexLess(checkIn, checkOut)
  {
    DateErrorsReport(checkIn, checkOut);
  }

  /** The booking modal reports at most one problem per field, in field
      order. */
  lemma BookingErrorsOrdered(name: string, nameOk: bool, phone: string, phoneOk: bool,
                             email: string, emailOk: bool, checkIn: string, checkOut: string)
    ensures OnePerFieldInOrder(BookingErrors(name, nameOk, phone, phoneOk, email, emailOk, checkIn, checkOut))
  {
    var n := FieldErrors(name, nameOk, NameRequired, NameInvalid);
    var p := FieldErrors(phone, phoneOk, PhoneRequired, PhoneInvalid);
    var e := FieldErrors(email, emailOk, EmailRequired, EmailInvalid);
    DateErrorsOrdered(checkIn, checkOut);
    OrderedAppend(n, p, 1);
    OrderedAppend(n + p, e, 2);
    OrderedAppend(n + p + e, DateErrors(checkIn, checkOut), 4);
  }

  /** One `if (!value) errors.push(...) else if (!valid) errors.push(...)`
      step of a submit handler. */
  method CheckField(errors: seq<FormError>, value: string, valid: bool,
                    whenBlank: FormError, whenInvalid: FormError)
    returns (r: seq<FormError>)
    requires whenBlank != whenInvalid
    ensures r == errors + FieldErrors(value, valid, whenBlank, whenInvalid)
  {
    r := errors;
    if value == "" {
      r := r + [whenBlank];
    } else if !valid {
      r := r + [whenInvalid];
    }
  }

  /** The three date checks of the booking modal: each date must be
      chosen, and when both are, check-out must come after check-in. */
  method CheckDates(errors: seq<FormError>, checkIn: string, checkOut: string)
    returns (r: seq<FormError>)
    ensures r == errors + DateErrors(checkIn, checkOut)
  {
    r := errors;
    if checkIn == "" {
      r := r + [CheckInRequired];
    }
    if checkOut == "" {
      r := r + [CheckOutRequired];
    }
    if checkIn != "" && checkOut != "" {
      if NotAfter(checkOut, checkIn) {
        r := r + [CheckOutNotAfterCheckIn];
      }
    }
  }

  /** The review form's submit handler up to sending: trims the fields,
      collects the errors, and builds the body only when there are none,
      that is, exactly when name, e-mail and text all pass their checks.
      `now` is the clock reading `new Date().toISOString()`. */
  method ReviewSubmit(nameField: string, emailField: string, textField: string, now: string)
    returns (errors: seq<FormError>, payload: Option<SubmitBody>)
    ensures var name, email := Trim(nameField), Trim(emailField);
            errors == ReviewErrors(name, ValidateName(name), email, ValidateEmail(email), Trim(textField))
    ensures payload.Some? <==> errors == []
    ensures payload.Some? <==>
              ValidateName(Trim(nameField)) && ValidateEmail(Trim(emailField))
              && |Trim(textField)| >= MinReviewLength
    ensures payload.Some? ==>
              payload.value == ReviewBody(Trim(nameField), Trim(emailField), Trim(textField), now)
  {
    var name, email, text := Trim(nameField), Trim(emailField), Trim(textField);
    var nameOk, emailOk := ValidateName(name), ValidateEmail(email);
    errors := CheckField([], name, nameOk, NameRequired, NameInvalid);
    assert errors == FieldErrors(name, nameOk, NameRequired, NameInvalid);
    errors := CheckField(errors, email, emailOk, EmailRequired, EmailInvalid);
    errors := CheckField(errors, text, |text| >= MinReviewLength, TextRequired, TextTooShort);
    ReviewErrorsReport(name, nameOk, email, emailOk, text);
    EmptyInputsInvalid();
    if |errors| > 0 {
      payload := None;
      return;
    }
    payload := Some(ReviewBody(name, email, text, now));
  }

  /** The booking modal's submit handler up to sending: it builds the body
      exactly when name, phone and e-mail pass their checks and check-out
      comes strictly after check-in. The dates come from date inputs and
      are not trimmed; the phone is sent through `formatPhone`, which gives
      `+7` and the ten-digit national number except on the bare numbers of
      `FormatPhoneDropsDigit`; `bookingType` is the text of the modal's type
      label. */
  method BookingSubmit(nameField: string, phoneField: string, emailField: string,
                       checkIn: string, checkOut: string, messageField: string,
                       bathhouse: bool, bookingType: string, now: string)
    returns (errors: seq<FormError>, payload: Option<SubmitBody>)
    ensures var name, phone, email := Trim(nameField), Trim(phoneField), Trim(emailField);
            errors == BookingErrors(name, ValidateName(name), phone, ValidatePhone(phone),
                                    email, ValidateEmail(email), checkIn, checkOut)
    ensures payload.Some? <==> errors == []
    ensures payload.Some? <==>
              && ValidateName(Trim(nameField)) && ValidatePhone(Trim(phoneField))
              && ValidateEmail(Trim(emailField))
              && checkIn != "" && checkOut != "" && LexLess(checkIn, checkOut)
    ensures payload.Some? ==>
              payload.value == BookingBody(bookingType, Trim(nameField), FormatPhone(Trim(phoneField)),
                                           Trim(emailField), checkIn, checkOut, bathhouse,
                                           Trim(messageField), now)
    ensures payload.Some? ==> payload.value.phone == Some(FormatPhone(Trim(phoneField)))
    ensures payload.Some? && !BareDomesticNumber(Trim(phoneField)) ==>
              payload.value.phone == Some("+7" + NationalNumber(Trim(phoneField)))
  {
    var name, phone, email := Trim(nameField), Trim(phoneField), Trim(emailField);
    var message := Trim(messageField);
    var nameOk, phoneOk, emailOk := ValidateName(name), ValidatePhone(phone), ValidateEmail(email);
    errors := CheckField([], name, nameOk, NameRequired, NameInvalid);
    assert errors == FieldErrors(name, nameOk, NameRequired, NameInvalid);
    errors := CheckField(errors, phone, phoneOk, PhoneRequired, PhoneInvalid);
    errors := CheckField(errors, email, emailOk, EmailRequired, EmailInvalid);
    errors := CheckDates(errors, checkIn, checkOut);
    BookingErrorsEmpty(name, nameOk, phone, phoneOk, email, emailOk, checkIn, checkOut);
    EmptyInputsInvalid();
    if |errors| > 0 {
      payload := None;
      return;
    }
    if !BareDomesticNumber(phone) {
      FormatPhoneOfValid(phone);
    }
    payload := Some(BookingBody(bookingType, name, FormatPhone(phone), email, checkIn, checkOut,
                                bathhouse, message, now));
  }

  /** The parts of the server's JSON reply the client reads: the truthiness
      of `success`, `id`, and `error` (empty when absent). */
  datatype ServerReply = ServerReply(success: bool, id: Option<int>, error: string)

  /** What `sendFormData` resolves to: `{success: true, id}` or
      `{success: false, error}`. */
  datatype SendResult = Sent(id: Option<int>) | NotSent(error: string)

  /** The classification step of `sendFormData` once a JSON reply has been
      parsed: a status outside 200..299 (`response.ok` false) is a failure
      whatever the body says; otherwise the body's `success` decides. A
      failure always carries a message, the server's when it sent one. */
  function ClassifyReply(status: nat, statusText: string, result: ServerReply): (r: SendResult)
    ensures r.Sent? <==> 200 <= status <= 299 && result.success
    ensures r.Sent? ==> r.id == result.id
    ensures r.NotSent? ==> r.error != ""
    ensures r.NotSent? && result.error != "" ==> r.error == result.error
  {
    if !(200 <= status <= 299) then
      NotSent(if result.error != "" then result.error
              else "Ошибка сервера: " + DecimalText(status) + " " + statusText)
    else if result.success then
      Sent(result.id)
    else
      NotSent(if result.error != "" then result.error else "Ошибка отправки данных")
  }

  /** How the client sees a server envelope. */
  function ClientView(reply: Reply): ServerReply {
    match reply.body
    case Created(id) => ServerReply(true, Some(id), "")
    case Failed(error) => ServerReply(false, None, error)
    case _ => ServerReply(true, None, "")
  }

  /** Every well-formed reply of the server is read back as what it means:
      a created row as success with its id, a failure as a failure with the
      server's own reason. */
  lemma ClassifyServerReply(reply: Reply, statusText: string)
    requires WellFormed(reply)
    ensures reply.body.Created? ==>
              ClassifyReply(reply.status, statusText, ClientView(reply)) == Sent(Some(reply.body.id))
    ensures reply.body.Failed? ==>
              ClassifyReply(reply.status, statusText, ClientView(reply)) == NotSent(reply.body.error)
  {
  }

  /** The bodies the two forms send are stored by the server: their `type`
      selects the right table and no `NOT NULL` column is left null. */
  lemma ClientBodiesAreStorable(name: string, phone: string, email: string, text: string,
                                checkIn: string, checkOut: string, bathhouse: bool,
                                message: string, bookingType: string, now: string)
    ensures var b := ReviewBody(name, email, text, now);
            FormTable(b.formType) == Some(Reviews) && Tables.Storable(Reviews, b)
    ensures var b := BookingBody(bookingType, name, phone, email, checkIn, checkOut, bathhouse, message, now);
            FormTable(b.formType) == Some(Bookings) && Tables.Storable(Bookings, b)
  {
  }
}
