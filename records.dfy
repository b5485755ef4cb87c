/** The data of the submission backend: the three tables of the SQLite
    database, their rows, the request bodies the routes read, and the
    uniform JSON envelope every route answers with. */
module Records {
  import opened Wrappers

  /** The tables `bookings`, `reviews` and `investments`. */
  datatype Table = Bookings | Reviews | Investments

  /** The table name, as used in SQL and in the paths `/api/:type/:id`. */
  function TableName(t: Table): string {
    match t
    case Bookings => "bookings"
    case Reviews => "reviews"
    case Investments => "investments"
  }

  /** The value of `type` in a submitted form that selects each table. */
  function FormTypeName(t: Table): string {
    match t
    case Bookings => "booking"
    case Reviews => "review"
    case Investments => "investment"
  }

  /** One row of a table. Columns declared `NOT NULL` are plain strings,
      nullable ones are optional; `id` is the AUTOINCREMENT key and
      `createdAt` the `CURRENT_TIMESTAMP` default, in seconds. `kind` is the
      bookings column `type`. */
  datatype Row =
    | BookingRow(id: nat, kind: string, bookingType: Option<string>, name: string,
                 phone: string, email: string, checkIn: Option<string>,
                 checkOut: Option<string>, bathhouse: int, message: string,
                 timestamp: string, createdAt: nat)
    | ReviewRow(id: nat, name: string, email: string, text: string,
                timestamp: string, createdAt: nat)
    | InvestmentRow(id: nat, name: string, phone: string,
                    timestamp: string, createdAt: nat)

  /** The table a row belongs in. */
  function TableOf(r: Row): Table {
    match r
    case BookingRow(_, _, _, _, _, _, _, _, _, _, _, _) => Bookings
    case ReviewRow(_, _, _, _, _, _) => Reviews
    case InvestmentRow(_, _, _, _, _) => Investments
  }

  /** The JSON body of `POST /api/submit-form`. A field that is absent is
      `None`; `bathhouse` is the truthiness of that field. */
  datatype SubmitBody = SubmitBody(
    formType: Option<string>, bookingType: Option<string>, name: Option<string>,
    phone: Option<string>, email: Option<string>, checkIn: Option<string>,
    checkOut: Option<string>, bathhouse: bool, message: Option<string>,
    text: Option<string>, timestamp: Option<string>)

  /** The JSON body of `PUT /api/:type/:id`, whose keys are the column names
      (`booking_type`, `check_in`, `check_out`, ...). */
  datatype UpdateBody = UpdateBody(
    bookingType: Option<string>, name: Option<string>, phone: Option<string>,
    email: Option<string>, checkIn: Option<string>, checkOut: Option<string>,
    bathhouse: bool, message: Option<string>, text: Option<string>)

  /** The four shapes of the JSON envelope: `{success: true, id}`,
      `{success: true, data}`, `{success: true, message}` and
      `{success: false, error}`. */
  datatype Envelope =
    | Created(id: nat)
    | Listed(data: seq<Row>)
    | Done(message: string)
    | Failed(error: string)
  {
    /** The `success` field. */
    predicate Success() {
      !Failed?
    }
  }

  /** An HTTP status together with the envelope sent as its body. */
  datatype Reply = Reply(status: nat, body: Envelope)

  /** Every route answers 200 with a success envelope, or 400 or 500 with a
      failure envelope carrying a non-empty reason. */
  predicate WellFormed(r: Reply) {
    && (r.status == 200 <==> r.body.Success())
    && (r.body.Failed? ==> (r.status == 400 || r.status == 500) && r.body.error != "")
  }

  /** The table addressed by the `:type` segment of a DELETE or PUT path. */
  function PathTable(segment: string): (t: Option<Table>)
    ensures t.Some? ==> TableName(t.value) == segment
    ensures t.None? ==> forall u :: TableName(u) != segment
  {
    if segment == "bookings" then Some(Bookings)
    else if segment == "reviews" then Some(Reviews)
    else if segment == "investments" then Some(Investments)
    else None
  }

  /** The table a submitted form is stored in, chosen by its `type`. */
  function FormTable(formType: Option<string>): (t: Option<Table>)
    ensures t.Some? ==> formType == Some(FormTypeName(t.value))
    ensures t.None? ==> forall u :: formType != Some(FormTypeName(u))
  {
    if formType == Some("booking") then Some(Bookings)
    else if formType == Some("review") then Some(Reviews)
    else if formType == Some("investment") then Some(Investments)
    else None
  }

  /** How string concatenation prints the `type` field: an absent field
      prints as `undefined`. */
  function TypeText(formType: Option<string>): string {
    match formType
    case Some(s) => s
    case None => "undefined"
  }
}
