/** search_products (app/quote.py): the product lookup behind the quotation form. The
    stripped query is matched, ignoring case, against item name, CAS number, catalog
    number and brand; employees see only public rows; at most twenty rows are returned,
    each projected to the fields the form fills in. */
module Search {
  import opened Wrappers
  import opened Strings
  import opened Models
  import Intelligence

  /** The number of rows the query fetches at most. */
  const Limit: nat := 20

  /** The query occurs, ignoring case, in the item name, CAS number, catalog number or
      brand (the specification is not searched here). */
  predicate ProductHit(e: ProductQuote, query: string) {
    || ContainsIgnoreCase(e.itemName, query)
    || Intelligence.Has(e.casNo, query)
    || Intelligence.Has(e.catNo, query)
    || ContainsIgnoreCase(e.makeBrand, query)
  }

  /** The rows the query selects before its limit. */
  predicate Listed(e: ProductQuote, query: string, isAdmin: bool) {
    (isAdmin || !e.isPrivate) && ProductHit(e, query)
  }

  function KeepListed(query: string, isAdmin: bool): ProductQuote -> Option<ProductQuote> {
    e => if Listed(e, query, isAdmin) then Some(e) else None
  }

  /** The selected rows in storage order. */
  function Matching(entries: seq<ProductQuote>, query: string, isAdmin: bool): seq<ProductQuote> {
    FilterMap(entries, KeepListed(query, isAdmin))
  }

  /** A row is selected exactly when it is stored and listed. */
  lemma MatchingIff(entries: seq<ProductQuote>, query: string, isAdmin: bool, e: ProductQuote)
    ensures e in Matching(entries, query, isAdmin) <==> e in entries && Listed(e, query, isAdmin)
  {
    var f := KeepListed(query, isAdmin);
    var r := Matching(entries, query, isAdmin);
    if e in r {
      var k :| 0 <= k < |r| && r[k] == e;
      FilterMapFrom(entries, f, k);
    }
    if e in entries && Listed(e, query, isAdmin) {
      var i :| 0 <= i < |entries| && entries[i] == e;
      FilterMapTo(entries, f, i);
    }
  }

  /** One entry of the JSON answer. */
  datatype Product = Product(
    id: nat,
    itemName: string,
    makeBrand: string,
    catNo: string,
    casNo: string,
    rate: real,
    unit: string,
    gstFraction: Float)

  /** `gst_percent / 100 if gst_percent else 0.18`. */
  function GstFraction(g: Float): (r: Float)
    ensures g == Finite(0.0) ==> r == Finite(0.18)
    ensures g.NaN? ==> r.NaN?
    ensures g.Finite? && g.value != 0.0 ==> r == Finite(g.value / 100.0)
  {
    if g.Truthy() then
      match g
      case Finite(v) => Finite(v / 100.0)
      case NaN => NaN
    else Finite(0.18)
  }

  /** A zero-rated row is offered at the same 18 % as a row on the default rate. */
  lemma ZeroRateShownAsDefault()
    ensures GstFraction(Finite(0.0)) == GstFraction(Finite(DefaultGstPercent))
  {
  }

  function Project(e: ProductQuote): Product {
    Product(e.id, e.itemName, e.makeBrand, e.catNo.GetOr(""), e.casNo.GetOr(""),
            e.basePrice, "Unit", GstFraction(e.gstPercent))
  }

  /** The projection copies id, names and price, shows a missing number as '', always uses
      the unit "Unit", and gives the tax rate as a fraction. */
  lemma ProjectSpec(e: ProductQuote)
    ensures var p := Project(e);
      && p.id == e.id && p.itemName == e.itemName && p.makeBrand == e.makeBrand
      && (e.catNo.Some? ==> p.catNo == e.catNo.value) && (e.catNo.None? ==> p.catNo == "")
      && (e.casNo.Some? ==> p.casNo == e.casNo.value) && (e.casNo.None? ==> p.casNo == "")
      && p.rate == e.basePrice && p.unit == "Unit"
      && (e.gstPercent.Finite? && e.gstPercent.value != 0.0 ==>
            p.gstFraction == Finite(e.gstPercent.value / 100.0))
  {
  }

  /** The answer as a value: nothing for a blank query, otherwise the projection of the
      first Limit selected rows. */
  function SearchResult(entries: seq<ProductQuote>, rawQuery: string, isAdmin: bool): (r: seq<Product>)
    ensures |r| <= Limit
  {
    var query := Trim(rawQuery);
    if query == "" then []
    else
      var rows := Matching(entries, query, isAdmin);
      var fetched := rows[..if |rows| < Limit then |rows| else Limit];
      seq(|fetched|, k requires 0 <= k < |fetched| => Project(fetched[k]))
  }

  /** Every product comes from a stored row that the stripped query selects, so an
      employee never receives a private row; a blank query gives nothing; at most Limit
      products are returned, and exactly that many whenever more rows are selected;
      the products are the selected rows in storage order. */
  lemma SearchResultSpec(entries: seq<ProductQuote>, rawQuery: string, isAdmin: bool)
    ensures var r := SearchResult(entries, rawQuery, isAdmin);
      var query := Trim(rawQuery);
      var rows := Matching(entries, query, isAdmin);
      && (query == "" ==> r == [])
      && |r| <= Limit
      && (query != "" ==> |r| == if |rows| < Limit then |rows| else Limit)
      && (query != "" ==> forall k :: 0 <= k < |r| ==> r[k] == Project(rows[k]))
      && (forall k :: 0 <= k < |r| ==>
            exists e :: e in entries && Listed(e, query, isAdmin) && r[k] == Project(e))
  {
    var r := SearchResult(entries, rawQuery, isAdmin);
    var query := Trim(rawQuery);
    var rows := Matching(entries, query, isAdmin);
    forall k | 0 <= k < |r|
      ensures exists e :: e in entries && Listed(e, query, isAdmin) && r[k] == Project(e)
    {
      MatchingIff(entries, query, isAdmin, rows[k]);
    }
  }

  /** When no more than Limit rows are selected, every selected row is offered. */
  lemma SearchComplete(entries: seq<ProductQuote>, rawQuery: string, isAdmin: bool, e: ProductQuote)
    requires Trim(rawQuery) != "" && e in entries && Listed(e, Trim(rawQuery), isAdmin)
    requires |Matching(entries, Trim(rawQuery), isAdmin)| <= Limit
    ensures Project(e) in SearchResult(entries, rawQuery, isAdmin)
  {
    var rows := Matching(entries, Trim(rawQuery), isAdmin);
    MatchingIff(entries, Trim(rawQuery), isAdmin, e);
    var k :| 0 <= k < |rows| && rows[k] == e;
    assert SearchResult(entries, rawQuery, isAdmin)[k] == Project(e);
  }

  /** search_products: strip the query, answer nothing for a blank one, otherwise fetch
      and project. */
  method SearchProducts(entries: seq<ProductQuote>, rawQuery: string, isAdmin: bool)
    returns (products: seq<Product>)
    ensures products == SearchResult(entries, rawQuery, isAdmin)
  {
    var query := Trim(rawQuery);
    if query == "" {
      return [];
    }
    var rows := Matching(entries, query, isAdmin);
    var quotes := rows[..if |rows| < Limit then |rows| else Limit];
    products := [];
    for k := 0 to |quotes|
      invariant |products| == k
      invariant forall j :: 0 <= j < k ==> products[j] == Project(quotes[j])
    {
      products := products + [Project(quotes[k])];
    }
  }
}
