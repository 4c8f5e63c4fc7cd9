/** parse_pdf (app/utils.py): a fold over the lines of the extracted PDF text that keeps,
    for each field, the value from the last line matching that field's pattern, and emits a
    single record if some line carried a price. */
module PdfParse {
  import opened Wrappers
  import opened Strings
  import opened Models

  /** The four re.search patterns, each yielding its group 1 on a stripped line, or None
      when it does not match. What the regular expressions accept is not modelled. */
  datatype PdfMatchers = PdfMatchers(
    cas: string -> Option<string>,
    cat: string -> Option<string>,
    price: string -> Option<string>,
    brand: string -> Option<string>)

  /** Longest item name the parser keeps (item_name[:200]). */
  const MaxItemName: nat := 200

  /** The price a stripped line yields: the matched number with ',' turned into '.',
      through float(); a float() failure is swallowed and counts as no price. */
  function PriceHit(m: PdfMatchers, line: string): Option<real> {
    match m.price(line)
    case None => None
    case Some(s) => ParseDecimal(ReplaceChar(s, ',', '.'))
  }

  /** The brand a stripped line yields, stripped again. */
  function BrandHit(m: PdfMatchers, line: string): Option<string> {
    match m.brand(line)
    case None => None
    case Some(b) => Some(Trim(b))
  }

  /** An extractor applied to a raw line: the line is stripped and skipped when empty. */
  function OnLine<T>(line: string, f: string -> Option<T>): Option<T> {
    var t := Trim(line);
    if t == "" then None else f(t)
  }

  /** The value from the last element on which the extractor fires. */
  function LastHit<T, U>(xs: seq<T>, f: T -> Option<U>): Option<U> {
    if xs == [] then None
    else
      match f(xs[|xs| - 1])
      case Some(v) => Some(v)
      case None => LastHit(xs[..|xs| - 1], f)
  }

  /** LastHit finds something exactly when the extractor fires on some element. */
  lemma {:induction false} LastHitFound<T, U>(xs: seq<T>, f: T -> Option<U>)
    ensures LastHit(xs, f).Some? <==> exists i :: 0 <= i < |xs| && f(xs[i]).Some?
  {
    if xs != [] && f(xs[|xs| - 1]).None? {
      var init := xs[..|xs| - 1];
      LastHitFound(init, f);
      if exists i :: 0 <= i < |xs| && f(xs[i]).Some? {
        var i :| 0 <= i < |xs| && f(xs[i]).Some?;
        assert init[i] == xs[i];
      }
    }
  }

  /** The value found is that of an element after which the extractor never fires again:
      the last match wins. */
  lemma {:induction false} LastHitIsLast<T, U>(xs: seq<T>, f: T -> Option<U>)
    requires LastHit(xs, f).Some?
    ensures exists i ::
      && 0 <= i < |xs| && f(xs[i]) == LastHit(xs, f)
      && forall j :: i < j < |xs| ==> f(xs[j]).None?
  {
    var n := |xs| - 1;
    if f(xs[n]).None? {
      var init := xs[..n];
      LastHitIsLast(init, f);
      var i :| 0 <= i < |init| && f(init[i]) == LastHit(init, f) &&
        forall j :: i < j < |init| ==> f(init[j]).None?;
      assert xs[i] == init[i];
      forall j | i < j < |xs|
        ensures f(xs[j]).None?
      {
        if j < n { assert xs[j] == init[j]; }
      }
    } else {
      assert f(xs[n]) == LastHit(xs, f);
    }
  }

  /** The extractors of the fold, each applied to a raw line. */
  function CasOn(m: PdfMatchers): string -> Option<string> { line => OnLine(line, m.cas) }
  function CatOn(m: PdfMatchers): string -> Option<string> { line => OnLine(line, m.cat) }
  function PriceOn(m: PdfMatchers): string -> Option<real> {
    line => OnLine(line, t => PriceHit(m, t))
  }
  function BrandOn(m: PdfMatchers): string -> Option<string> {
    line => OnLine(line, t => BrandHit(m, t))
  }

  /** The record the fold leaves behind for the given lines, if a price was seen. */
  function FoldLines(lines: seq<string>, m: PdfMatchers): (qs: seq<QuoteData>)
    requires |lines| >= 1
    ensures |qs| <= 1
  {
    match LastHit(lines, PriceOn(m))
    case None => []
    case Some(price) =>
      var first := lines[0];
      [QuoteData(
        first[..Min(|first|, MaxItemName)],
        LastHit(lines, CasOn(m)),
        LastHit(lines, CatOn(m)),
        LastHit(lines, BrandOn(m)).GetOr("Unknown"),
        price,
        Finite(DefaultGstPercent),
        None)]
  }

  /** What parse_pdf returns for the extracted text (split on newlines), or for a file
      PyPDF2 cannot read. */
  function PdfQuotes(text: Option<string>, m: PdfMatchers): seq<QuoteData> {
    match text
    case None => []
    case Some(t) => FoldLines(Split(t, {'\n'}), m)
  }

  /** The fold yields at most one record, and one exactly when some line carries a price
      that float() accepts; that record's item name is the raw first line cut to 200
      characters, its tax rate is 18 %, it has no specification, and its price, CAS and
      catalog numbers and brand ("Unknown" if none) come from the last matching lines. */
  lemma FoldLinesSpec(lines: seq<string>, m: PdfMatchers)
    requires |lines| >= 1
    ensures var qs := FoldLines(lines, m);
      && |qs| <= 1
      && (|qs| == 1 <==> exists i :: 0 <= i < |lines| && PriceOn(m)(lines[i]).Some?)
      && (|qs| == 1 ==>
            && qs[0].itemName <= lines[0] && |qs[0].itemName| == Min(|lines[0]|, MaxItemName)
            && qs[0].gstPercent == Finite(18.0) && qs[0].specifications.None?
            && Some(qs[0].basePrice) == LastHit(lines, PriceOn(m))
            && qs[0].casNo == LastHit(lines, CasOn(m)) && qs[0].catNo == LastHit(lines, CatOn(m))
            && (LastHit(lines, BrandOn(m)).None? ==> qs[0].makeBrand == "Unknown")
            && (LastHit(lines, BrandOn(m)).Some? ==> qs[0].makeBrand == LastHit(lines, BrandOn(m)).value))
  {
    LastHitFound(lines, PriceOn(m));
  }

  function Min(a: nat, b: nat): nat { if a <= b then a else b }

  /** parse_pdf's loop: one pass over the lines, each field overwritten by every line that
      matches it, then at most one record. */
  method ParsePdf(text: Option<string>, m: PdfMatchers) returns (quotes: seq<QuoteData>)
    ensures quotes == PdfQuotes(text, m)
  {
    quotes := [];
    if text.None? {
      return;
    }
    var lines := Split(text.value, {'\n'});
    var cas: Option<string> := None;
    var cat: Option<string> := None;
    var price: Option<real> := None;
    var brand: Option<string> := None;
    for i := 0 to |lines|
      invariant cas == LastHit(lines[..i], CasOn(m))
      invariant cat == LastHit(lines[..i], CatOn(m))
      invariant price == LastHit(lines[..i], PriceOn(m))
      invariant brand == LastHit(lines[..i], BrandOn(m))
    {
      assert lines[..i + 1][..i] == lines[..i];
      var line := Trim(lines[i]);
      if line == "" {
        continue;
      }
      var c := m.cas(line);
      if c.Some? {
        cas := c;
      }
      var k := m.cat(line);
      if k.Some? {
        cat := k;
      }
      var p := m.price(line);
      if p.Some? {
        var v := ParseDecimal(ReplaceChar(p.value, ',', '.'));
        if v.Some? {
          price := v;
        }
      }
      var b := m.brand(line);
      if b.Some? {
        brand := Some(Trim(b.value));
      }
    }
    assert lines[..|lines|] == lines;
    if price.Some? {
      var first := lines[0];
      var itemName := first[..Min(|first|, MaxItemName)];
      quotes := [QuoteData(itemName, cas, cat, brand.GetOr("Unknown"), price.value,
                           Finite(DefaultGstPercent), None)];
    }
  }
}
