/** The records of app/models.py that the price pipeline reads and writes, and the derived
    values defined on them: a quotation's price including tax, a user's admin role, an
    attendance's worked hours and its colour on the dashboard. */
module Models {
  import opened Wrappers

  /** A Python float as the pipeline can produce one: a finite value, or NaN (what pandas
      puts in a blank spreadsheet cell). Infinities do not arise from the modelled inputs. */
  datatype Float = Finite(value: real) | NaN {

    /** Python truthiness of a float: everything except 0.0 is true, NaN included. */
    predicate Truthy() {
      NaN? || value != 0.0
    }

    /** Python's `x or default`. */
    function OrElse(default: Float): (r: Float)
      ensures Truthy() ==> r == this
      ensures !Truthy() ==> r == default
    {
      if Truthy() then this else default
    }

    /** Python's `x > 0`, which is false for NaN. */
    predicate Positive() {
      Finite? && value > 0.0
    }
  }

  /** Column default of ProductQuote.gst_percent. */
  const DefaultGstPercent: real := 18.0

  /** One catalog row (class ProductQuote). Times are whole seconds since an epoch. */
  datatype ProductQuote = ProductQuote(
    id: nat,
    itemName: string,
    casNo: Option<string>,
    catNo: Option<string>,
    makeBrand: string,
    basePrice: real,
    gstPercent: Float,
    specifications: Option<string>,
    fileUrl: Option<string>,
    uploadedById: int,
    isPrivate: bool,
    createdAt: int)

  /** A ProductQuote built with only its non-nullable columns given: the column defaults
      fill in the tax rate (18 %) and the visibility (public). */
  function NewProductQuote(id: nat, itemName: string, makeBrand: string, basePrice: real,
                           uploadedById: int, now: int): (q: ProductQuote)
    ensures q.gstPercent == Finite(DefaultGstPercent) && !q.isPrivate
    ensures q.itemName == itemName && q.makeBrand == makeBrand && q.basePrice == basePrice
    ensures q.uploadedById == uploadedById && q.createdAt == now
    ensures q.casNo.None? && q.catNo.None? && q.specifications.None? && q.fileUrl.None?
  {
    ProductQuote(id, itemName, None, None, makeBrand, basePrice, Finite(DefaultGstPercent),
                 None, None, uploadedById, false, now)
  }

  /** One extracted product, the dict (quote_data) that parse_excel and parse_pdf hand to
      the catalog upsert. */
  datatype QuoteData = QuoteData(
    itemName: string,
    casNo: Option<string>,
    catNo: Option<string>,
    makeBrand: string,
    basePrice: real,
    gstPercent: Float,
    specifications: Option<string>)

  /** The five columns of the idx_dedup index, in index order. */
  function DedupTuple(q: ProductQuote): (string, string, Option<string>, Option<string>, real) {
    (q.itemName, q.makeBrand, q.casNo, q.catNo, q.basePrice)
  }

  /** ProductQuote.total_price: the base price grossed up by the tax rate (NaN stays NaN). */
  function TotalPrice(q: ProductQuote): (t: Float)
    ensures t.NaN? <==> q.gstPercent.NaN?
  {
    match q.gstPercent
    case Finite(g) => Finite(q.basePrice * (1.0 + g / 100.0))
    case NaN => NaN
  }

  /** The tax included in total_price is gst_percent per cent of the base price, so the
      total never falls below a non-negative base at a non-negative rate. */
  lemma TotalPriceAddsTax(q: ProductQuote)
    requires q.gstPercent.Finite?
    ensures TotalPrice(q).Finite?
    ensures TotalPrice(q).value - q.basePrice == q.basePrice * q.gstPercent.value / 100.0
    ensures q.basePrice >= 0.0 && q.gstPercent.value >= 0.0 ==> TotalPrice(q).value >= q.basePrice
    ensures q.gstPercent.value == 0.0 ==> TotalPrice(q).value == q.basePrice
  {
    var b, g := q.basePrice, q.gstPercent.value;
    assert b * (1.0 + g / 100.0) == b + b * g / 100.0;
    if b >= 0.0 && g >= 0.0 {
      assert b * g >= 0.0;
    }
  }

  /** A quote on the default rate costs 118 % of its base price. */
  lemma DefaultRateTotal(id: nat, itemName: string, makeBrand: string, basePrice: real,
                         uploadedById: int, now: int)
    ensures TotalPrice(NewProductQuote(id, itemName, makeBrand, basePrice, uploadedById, now))
         == Finite(basePrice * 118.0 / 100.0)
  {
  }

  // ---------------------------------------------------------------------------
  // Users

  /** Column default of User.role. */
  const DefaultRole: string := "employee"
  const AdminRole: string := "admin"

  datatype User = User(id: nat, username: string, email: string, role: string)

  /** User.is_admin: only the admin role grants it, so a user with the default role never
      has it. */
  predicate IsAdmin(u: User)
    ensures IsAdmin(u) ==> u.role != DefaultRole
  {
    u.role == AdminRole
  }

  /** A user created without a role gets the default, which is not the admin role. */
  function NewUser(id: nat, username: string, email: string): (u: User)
    ensures u.id == id && u.username == username && u.email == email
    ensures u.role == DefaultRole && !IsAdmin(u)
  {
    User(id, username, email, DefaultRole)
  }

  // ---------------------------------------------------------------------------
  // Attendance

  /** An attendance day; punch times are whole seconds since an epoch. */
  datatype Attendance = Attendance(userId: nat, punchIn: Option<int>, punchOut: Option<int>)

  const SecondsPerHour: real := 3600.0
  const FullDayHours: real := 9.0

  /** Attendance.duration: hours between punch-in and punch-out, 0 while either is unset. */
  function Duration(a: Attendance): (h: real)
    ensures a.punchIn.None? || a.punchOut.None? ==> h == 0.0
    ensures a.punchIn.Some? && a.punchOut.Some? ==>
      h * SecondsPerHour == (a.punchOut.value - a.punchIn.value) as real
  {
    if a.punchOut.Some? && a.punchIn.Some? then
      (a.punchOut.value - a.punchIn.value) as real / SecondsPerHour
    else 0.0
  }

  /** Attendance.status_color. */
  function StatusColor(a: Attendance): (c: string)
    ensures c == "green" || c == "red"
  {
    if Duration(a) >= FullDayHours then "green" else "red"
  }

  /** The colour is green exactly when both punches are recorded and at least nine hours
      (32400 seconds) lie between them; in particular an open day is always red. */
  lemma StatusColorGreenIff(a: Attendance)
    ensures StatusColor(a) == "green" <==>
      a.punchIn.Some? && a.punchOut.Some? && a.punchOut.value - a.punchIn.value >= 32400
    ensures a.punchOut.None? ==> Duration(a) == 0.0 && StatusColor(a) == "red"
  {
    if a.punchIn.Some? && a.punchOut.Some? {
      var secs := (a.punchOut.value - a.punchIn.value) as real;
      assert Duration(a) == secs / 3600.0;
      assert secs / 3600.0 >= 9.0 <==> secs >= 32400.0;
    }
  }
}
