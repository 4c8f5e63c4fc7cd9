/** The price-list endpoint (api/pdf-to-pricelist.js): a best-effort structurer that
    splits already-extracted text into lines, keeps each line that carries both a pack
    size and a price, names the item from the line and its neighbours, drops repeats of
    the same item, pack size and price, stops after a thousand items, and labels every
    item with a vendor guessed from the file name. */
module PriceList {
  import opened Wrappers
  import opened Strings

  /** The endpoint's regular expressions and its number-to-text conversion. `unit` is
      the pack-size pattern (a 1-3 digit amount and a unit token, its two groups),
      `price` the 2-6 digit price pattern (its group), `prune` the replace that cuts a
      candidate at its first heading word, `show` JavaScript's rendering of a number
      inside a string concatenation. */
  datatype ListMatchers = ListMatchers(
    unit: string -> Option<(string, string)>,
    price: string -> Option<string>,
    prune: string -> string,
    show: real -> string)

  /** The request body's fields (absent ones are None). */
  datatype Request = Request(text: Option<string>, fileName: Option<string>, bytesBase64: Option<string>)

  const MinTextLength: nat := 50
  const MaxItems: nat := 1000
  const NoInputError: string := "No text/bytes provided"

  /** JavaScript truthiness of an optional string. */
  predicate Truthy(s: Option<string>) {
    s.Some? && s.value != ""
  }

  /** The 400 condition: no usable text (absent, empty or under 50 characters once
      trimmed) and no bytes either. */
  predicate Rejected(req: Request) {
    (!Truthy(req.text) || |Trim(req.text.value)| < MinTextLength) && !Truthy(req.bytesBase64)
  }

  // ---------------------------------------------------------------------------
  // Lines

  function TrimmedNonBlank(): string -> Option<string> {
    p => if Trim(p) == "" then None else Some(Trim(p))
  }

  /** `src.split(/\n|\r/).map(trim).filter(Boolean)`. */
  function Lines(src: string): seq<string> {
    FilterMap(Split(src, {'\n', '\r'}), TrimmedNonBlank())
  }

  /** A line is non-empty, has no surrounding whitespace and no line break. */
  predicate CleanLine(l: string) {
    && l != [] && !IsSpace(l[0]) && !IsSpace(l[|l| - 1])
    && forall j :: 0 <= j < |l| ==> l[j] != '\n' && l[j] != '\r'
  }

  lemma TrimmedPieceClean(p: string)
    requires Trim(p) != ""
    requires forall j :: 0 <= j < |p| ==> p[j] != '\n' && p[j] != '\r'
    ensures CleanLine(Trim(p))
  {
    var l := Trim(p);
    TrimSpec(p);
    var o: nat :| OccursAt(p, l, o);
    forall j | 0 <= j < |l| ensures l[j] != '\n' && l[j] != '\r' {
      assert l[j] == p[o + j];
    }
  }

  lemma LinesSpec(src: string)
    ensures forall k :: 0 <= k < |Lines(src)| ==> CleanLine(Lines(src)[k])
  {
    var pieces := Split(src, {'\n', '\r'});
    forall k | 0 <= k < |Lines(src)| ensures CleanLine(Lines(src)[k]) {
      FilterMapFrom(pieces, TrimmedNonBlank(), k);
      var i :| 0 <= i < |pieces| && TrimmedNonBlank()(pieces[i]) == Some(Lines(src)[k]);
      TrimmedPieceClean(pieces[i]);
    }
  }

  /** Text without a line break gives its stripped self as its only line, or no line
      when it is blank. */
  lemma LinesOfRun(s: string)
    requires forall j :: 0 <= j < |s| ==> s[j] != '\n' && s[j] != '\r'
    ensures Lines(s) == if Trim(s) == "" then [] else [Trim(s)]
  {
    SplitWhole(s, {'\n', '\r'});
    FilterMapSingle(s, TrimmedNonBlank());
  }

  /** A line break separates lines: the lines of text cut at a break are the lines
      before it followed by the lines after it. With LinesOfRun this determines the lines
      of every text. */
  lemma LinesAtBreak(a: string, c: char, b: string)
    requires c == '\n' || c == '\r'
    ensures Lines(a + [c] + b) == Lines(a) + Lines(b)
  {
    SplitAtSeparator(a, c, b, {'\n', '\r'});
    FilterMapConcat(Split(a, {'\n', '\r'}), Split(b, {'\n', '\r'}), TrimmedNonBlank());
  }

  /** `lines[i]||''`: the line at i, '' outside the list. */
  function LineAt(lines: seq<string>, i: int): string {
    if 0 <= i < |lines| then lines[i] else ""
  }

  /** `s.split(/\s{2,}/)[0]`: s up to its first run of two or more whitespace
      characters. */
  function FirstChunk(s: string): string {
    if |s| >= 2 && IsSpace(s[0]) && IsSpace(s[1]) then []
    else if s == [] then []
    else [s[0]] + FirstChunk(s[1..])
  }

  /** The chunk is a prefix of s without a double space, and where it stops short of the
      end of s, s continues with two whitespace characters. */
  lemma {:induction false} FirstChunkSpec(s: string)
    ensures var r := FirstChunk(s);
      && r <= s
      && (forall k :: 0 <= k < |r| - 1 ==> !(IsSpace(r[k]) && IsSpace(r[k + 1])))
      && (|r| < |s| ==> |r| + 2 <= |s| && IsSpace(s[|r|]) && IsSpace(s[|r| + 1]))
  {
    if !(|s| >= 2 && IsSpace(s[0]) && IsSpace(s[1])) && s != [] {
      FirstChunkSpec(s[1..]);
    }
  }

  /** Text without a double space is kept whole. */
  lemma {:induction false} FirstChunkWhole(s: string)
    requires forall k :: 0 <= k < |s| - 1 ==> !(IsSpace(s[k]) && IsSpace(s[k + 1]))
    ensures FirstChunk(s) == s
  {
    if s != [] {
      FirstChunkWhole(s[1..]);
    }
  }

  // ---------------------------------------------------------------------------
  // Items

  /** One collected item with its dedup key. */
  datatype Entry = Entry(item: string, unit: string, mrp: real, key: string)

  /** The item name: the line joined with its neighbours, pruned at the first heading
      word, trimmed, and cut at the first double space. */
  function ItemName(lines: seq<string>, i: nat, m: ListMatchers): string
    requires i < |lines|
  {
    FirstChunk(Trim(m.prune(LineAt(lines, i - 1) + " " + lines[i] + " " + LineAt(lines, i + 1))))
  }

  /** The item a line yields, if any. */
  function Candidate(lines: seq<string>, i: nat, m: ListMatchers): Option<Entry>
    requires i < |lines|
  {
    var l := lines[i];
    match (m.unit(l), m.price(l))
    case (Some((amount, token)), Some(p)) =>
      (match ParseDecimal(p)
       case None => None
       case Some(price) =>
         var item := ItemName(lines, i, m);
         var unitVal := amount + " " + token;
         Some(Entry(item, unitVal, price, Lower(item) + Lower(unitVal) + m.show(price))))
    case _ => None
  }

  /** A line yields an item exactly when it has a pack size, a price match and a price
      that reads as a finite number; the item carries the pruned name, the unit text
      "amount token", the price, and the lower-cased key built from all three. */
  lemma CandidateSpec(lines: seq<string>, i: nat, m: ListMatchers)
    requires i < |lines|
    ensures var r := Candidate(lines, i, m);
      && (r.Some? <==>
            m.unit(lines[i]).Some? && m.price(lines[i]).Some? && ParseDecimal(m.price(lines[i]).value).Some?)
      && (r.Some? ==>
            var (amount, token) := m.unit(lines[i]).value;
            && r.value.unit == amount + " " + token
            && r.value.mrp == ParseDecimal(m.price(lines[i]).value).value
            && r.value.item == ItemName(lines, i, m)
            && r.value.key == Lower(r.value.item) + Lower(r.value.unit) + m.show(r.value.mrp))
  {
  }

  /** `items.some(x => x.__k === key)`. */
  predicate KeyPresent(items: seq<Entry>, key: string) {
    exists j :: 0 <= j < |items| && items[j].key == key
  }

  /** The items collected so far and whether the loop has broken off. */
  datatype Progress = Progress(items: seq<Entry>, stopped: bool)

  /** One pass of the loop. */
  function Step(p: Progress, c: Option<Entry>): Progress {
    if p.stopped then p
    else match c
      case None => p
      case Some(e) =>
        if KeyPresent(p.items, e.key) then p
        else Progress(p.items + [e], |p.items| + 1 > MaxItems)
  }

  /** The candidate of every line, in order. */
  function Candidates(lines: seq<string>, m: ListMatchers): seq<Option<Entry>> {
    CandidatesUpTo(lines, m, |lines|)
  }

  function CandidatesUpTo(lines: seq<string>, m: ListMatchers, n: nat): (cs: seq<Option<Entry>>)
    requires n <= |lines|
    ensures |cs| == n
  {
    if n == 0 then [] else CandidatesUpTo(lines, m, n - 1) + [Candidate(lines, n - 1, m)]
  }

  lemma {:induction false} CandidatesAt(lines: seq<string>, m: ListMatchers, n: nat, i: nat)
    requires i < n <= |lines|
    ensures CandidatesUpTo(lines, m, n)[i] == Candidate(lines, i, m)
  {
    if i < n - 1 {
      CandidatesAt(lines, m, n - 1, i);
    }
  }

  /** The loop state after the candidates of the first n lines. */
  function Collect(cs: seq<Option<Entry>>, n: nat): (p: Progress)
    requires n <= |cs|
    ensures |p.items| <= n
  {
    if n == 0 then Progress([], false) else Step(Collect(cs, n - 1), cs[n - 1])
  }

  predicate DistinctEntryKeys(items: seq<Entry>) {
    forall j, k :: 0 <= j < k < |items| ==> items[j].key != items[k].key
  }

  /** Keys are distinct, and the loop breaks off exactly once it holds more than a
      thousand items, so it never holds more than 1001. */
  lemma {:induction false} CollectBounded(cs: seq<Option<Entry>>, n: nat)
    requires n <= |cs|
    ensures var p := Collect(cs, n);
      && DistinctEntryKeys(p.items)
      && (p.stopped <==> |p.items| > MaxItems)
      && |p.items| <= MaxItems + 1
  {
    if n > 0 {
      CollectBounded(cs, n - 1);
    }
  }

  /** e is the candidate of one of the first n lines. */
  predicate FromCandidate(cs: seq<Option<Entry>>, n: nat, e: Entry) {
    exists i :: 0 <= i < n && i < |cs| && cs[i] == Some(e)
  }

  /** Every item is the candidate of an earlier line. */
  lemma {:induction false} CollectSound(cs: seq<Option<Entry>>, n: nat)
    requires n <= |cs|
    ensures forall k :: 0 <= k < |Collect(cs, n).items| ==> FromCandidate(cs, n, Collect(cs, n).items[k])
  {
    if n > 0 {
      CollectSound(cs, n - 1);
      var p0 := Collect(cs, n - 1);
      var p := Collect(cs, n);
      forall k | 0 <= k < |p.items| ensures FromCandidate(cs, n, p.items[k]) {
        if k < |p0.items| {
          assert p.items[k] == p0.items[k];
          assert FromCandidate(cs, n - 1, p0.items[k]);
          var i :| 0 <= i < n - 1 && cs[i] == Some(p0.items[k]);
        } else {
          assert cs[n - 1] == Some(p.items[k]);
        }
      }
    }
  }

  /** j is the first line whose candidate has the given key. */
  predicate FirstWithKey(cs: seq<Option<Entry>>, j: nat, key: string) {
    && j < |cs| && cs[j].Some? && cs[j].value.key == key
    && forall i :: 0 <= i < j ==> !(cs[i].Some? && cs[i].value.key == key)
  }

  lemma FirstWithKeyUnique(cs: seq<Option<Entry>>, a: nat, b: nat, key: string)
    requires FirstWithKey(cs, a, key) && FirstWithKey(cs, b, key)
    ensures a == b
  {
  }

  /** The first line with a key wins: every item is the candidate of the first of the
      first n lines whose candidate has that key (a later line with the same key, whatever
      its item text, is dropped), and the items come in the order of those lines. */
  lemma {:induction false} CollectFirstOccurrence(cs: seq<Option<Entry>>, n: nat)
    requires n <= |cs|
    ensures var items := Collect(cs, n).items;
      forall k :: 0 <= k < |items| ==>
        exists j: nat :: j < n && FirstWithKey(cs, j, items[k].key) && cs[j] == Some(items[k])
    ensures var items := Collect(cs, n).items;
      forall k1, k2, j1: nat, j2: nat ::
        0 <= k1 < k2 < |items| && FirstWithKey(cs, j1, items[k1].key) && FirstWithKey(cs, j2, items[k2].key)
        ==> j1 < j2
  {
    if n > 0 {
      CollectFirstOccurrence(cs, n - 1);
      var p0 := Collect(cs, n - 1);
      var p := Collect(cs, n);
      if p.items != p0.items {
        var e := cs[n - 1].value;
        assert !p0.stopped && !KeyPresent(p0.items, e.key);
        assert p.items == p0.items + [e];
        CollectComplete(cs, n - 1);
        assert FirstWithKey(cs, n - 1, e.key);
        forall k | 0 <= k < |p.items|
          ensures exists j: nat :: j < n && FirstWithKey(cs, j, p.items[k].key) && cs[j] == Some(p.items[k])
        {
          if k < |p0.items| {
            assert p.items[k] == p0.items[k];
            var j: nat :| j < n - 1 && FirstWithKey(cs, j, p0.items[k].key) && cs[j] == Some(p0.items[k]);
          } else {
            assert cs[n - 1] == Some(p.items[k]);
          }
        }
        forall k1, k2, j1: nat, j2: nat |
          0 <= k1 < k2 < |p.items| && FirstWithKey(cs, j1, p.items[k1].key) && FirstWithKey(cs, j2, p.items[k2].key)
          ensures j1 < j2
        {
          assert p.items[k1] == p0.items[k1];
          var j1': nat :| j1' < n - 1 && FirstWithKey(cs, j1', p0.items[k1].key) && cs[j1'] == Some(p0.items[k1]);
          FirstWithKeyUnique(cs, j1, j1', p0.items[k1].key);
          if k2 < |p0.items| {
            assert p.items[k2] == p0.items[k2];
          } else {
            FirstWithKeyUnique(cs, j2, n - 1, e.key);
          }
        }
      } else {
        forall k | 0 <= k < |p.items|
          ensures exists j: nat :: j < n && FirstWithKey(cs, j, p.items[k].key) && cs[j] == Some(p.items[k])
        {
          var j: nat :| j < n - 1 && FirstWithKey(cs, j, p0.items[k].key) && cs[j] == Some(p0.items[k]);
        }
      }
    }
  }

  /** Until the loop breaks off, the key of every candidate seen so far is present. */
  lemma {:induction false} CollectComplete(cs: seq<Option<Entry>>, n: nat)
    requires n <= |cs|
    ensures var p := Collect(cs, n);
      !p.stopped ==> forall i :: 0 <= i < n && cs[i].Some? ==> KeyPresent(p.items, cs[i].value.key)
  {
    if n > 0 {
      CollectComplete(cs, n - 1);
      var p0 := Collect(cs, n - 1);
      var p := Collect(cs, n);
      if !p.stopped {
        assert !p0.stopped;
        forall i | 0 <= i < n && cs[i].Some? ensures KeyPresent(p.items, cs[i].value.key) {
          var key := cs[i].value.key;
          if i < n - 1 || KeyPresent(p0.items, key) {
            var j :| 0 <= j < |p0.items| && p0.items[j].key == key;
            assert p.items[j] == p0.items[j];
          } else {
            assert p.items[|p0.items|].key == key;
          }
        }
      }
    }
  }

  /** Once the loop has broken off, later lines change nothing. */
  lemma {:induction false} StoppedStays(cs: seq<Option<Entry>>, n: nat, n': nat)
    requires n <= n' <= |cs| && Collect(cs, n).stopped
    ensures Collect(cs, n') == Collect(cs, n)
    decreases n' - n
  {
    if n < n' {
      StoppedStays(cs, n, n' - 1);
    }
  }

  /** A line without a candidate, or with one whose key is present, leaves the loop state
      as it was. */
  lemma CollectSkip(cs: seq<Option<Entry>>, i: nat, items: seq<Entry>)
    requires i < |cs| && Collect(cs, i) == Progress(items, false)
    requires cs[i].None? || KeyPresent(items, cs[i].value.key)
    ensures Collect(cs, i + 1) == Progress(items, false)
  {
  }

  /** A candidate with a new key is appended, and the loop breaks off once it holds more
      than MaxItems items. */
  lemma CollectAppend(cs: seq<Option<Entry>>, i: nat, items: seq<Entry>, e: Entry)
    requires i < |cs| && Collect(cs, i) == Progress(items, false)
    requires cs[i] == Some(e) && !KeyPresent(items, e.key)
    ensures Collect(cs, i + 1) == Progress(items + [e], |items| + 1 > MaxItems)
  {
  }

  /** The body of the loop up to its dedup test: match the pack size and the price, skip
      the line when either is missing or the price is not a finite number, otherwise
      build the item, its unit text and its key. */
  method LineCandidate(lines: seq<string>, i: nat, m: ListMatchers) returns (c: Option<Entry>)
    requires i < |lines|
    ensures c == Candidates(lines, m)[i]
  {
    CandidatesAt(lines, m, |lines|, i);
    var l := lines[i];
    var unitMatch := m.unit(l);
    var priceMatch := m.price(l);
    if unitMatch.None? || priceMatch.None? {
      return None;
    }
    var item := FirstChunk(Trim(m.prune(LineAt(lines, i - 1) + " " + l + " " + LineAt(lines, i + 1))));
    var unitVal := unitMatch.value.0 + " " + unitMatch.value.1;
    var price := ParseDecimal(priceMatch.value);
    if price.None? {
      return None;
    }
    var key := Lower(item) + Lower(unitVal) + m.show(price.value);
    c := Some(Entry(item, unitVal, price.value, key));
  }

  /** The structuring loop. */
  method CollectItems(lines: seq<string>, m: ListMatchers) returns (items: seq<Entry>)
    ensures items == Collect(Candidates(lines, m), |lines|).items
  {
    ghost var cs := Candidates(lines, m);
    items := [];
    for i := 0 to |lines|
      invariant Collect(cs, i) == Progress(items, false)
    {
      var c := LineCandidate(lines, i, m);
      if c.None? || KeyPresent(items, c.value.key) {
        CollectSkip(cs, i, items);
        continue;
      }
      CollectAppend(cs, i, items, c.value);
      items := items + [c.value];
      if |items| > MaxItems {
        StoppedStays(cs, i + 1, |lines|);
        break;
      }
    }
  }

  // ---------------------------------------------------------------------------
  // Vendor hint and response

  /** The vendor guessed from the file name, "cdh" taking precedence over "bb". */
  function VendorHint(fileName: Option<string>): (make: string)
    ensures make == "CDH" <==> ContainsIgnoreCase(fileName.GetOr(""), "cdh")
    ensures make == "BBChem" <==>
      !ContainsIgnoreCase(fileName.GetOr(""), "cdh") && ContainsIgnoreCase(fileName.GetOr(""), "bb")
    ensures make == "" <==>
      !ContainsIgnoreCase(fileName.GetOr(""), "cdh") && !ContainsIgnoreCase(fileName.GetOr(""), "bb")
  {
    var name := fileName.GetOr("");
    assert Lower("cdh") == "cdh" && Lower("bb") == "bb";
    if Contains(Lower(name), "cdh") then "CDH"
    else if Contains(Lower(name), "bb") then "BBChem"
    else ""
  }

  /** One entry of the 200 answer: the item without its dedup key, with the vendor when
      one was guessed. */
  datatype Item = Item(item: string, unit: string, mrp: real, make: Option<string>)

  /** Attach the vendor to every item and drop the keys. */
  function Finalize(entries: seq<Entry>, make: string): (r: seq<Item>)
    ensures |r| == |entries|
    ensures forall k :: 0 <= k < |r| ==>
      && r[k].item == entries[k].item && r[k].unit == entries[k].unit && r[k].mrp == entries[k].mrp
      && r[k].make == if make == "" then None else Some(make)
  {
    seq(|entries|, k requires 0 <= k < |entries| =>
      Item(entries[k].item, entries[k].unit, entries[k].mrp, if make == "" then None else Some(make)))
  }

  datatype Response = BadRequest(error: string) | Ok(items: seq<Item>)

  /** The endpoint's answer as a value. */
  function Respond(req: Request, m: ListMatchers): Response {
    if Rejected(req) then BadRequest(NoInputError)
    else
      var lines := Lines(req.text.GetOr(""));
      Ok(Finalize(Collect(Candidates(lines, m), |lines|).items, VendorHint(req.fileName)))
  }

  /** The endpoint answers 400 exactly when the request is rejected; otherwise it answers
      at most 1001 items with pairwise distinct (item, unit, price) keys, each taken from
      a line of the text and labelled with the guessed vendor. */
  lemma RespondSpec(req: Request, m: ListMatchers)
    ensures Respond(req, m).BadRequest? <==> Rejected(req)
    ensures Respond(req, m).BadRequest? ==> Respond(req, m).error == NoInputError
    ensures var r := Respond(req, m);
      var lines := Lines(req.text.GetOr(""));
      r.Ok? ==>
        && |r.items| <= MaxItems + 1
        && (forall k :: 0 <= k < |r.items| ==>
              && r.items[k].make == (if VendorHint(req.fileName) == "" then None else Some(VendorHint(req.fileName)))
              && exists i :: 0 <= i < |lines| && Candidate(lines, i, m).Some?
                   && Candidate(lines, i, m).value.item == r.items[k].item
                   && Candidate(lines, i, m).value.unit == r.items[k].unit
                   && Candidate(lines, i, m).value.mrp == r.items[k].mrp)
  {
    var lines := Lines(req.text.GetOr(""));
    if !Rejected(req) {
      var cs := Candidates(lines, m);
      CollectBounded(cs, |lines|);
      CollectSound(cs, |lines|);
      var items := Collect(cs, |lines|).items;
      var r := Respond(req, m);
      forall k | 0 <= k < |r.items|
        ensures exists i :: 0 <= i < |lines| && Candidate(lines, i, m).Some?
                   && Candidate(lines, i, m).value.item == r.items[k].item
                   && Candidate(lines, i, m).value.unit == r.items[k].unit
                   && Candidate(lines, i, m).value.mrp == r.items[k].mrp
      {
        var i :| 0 <= i < |lines| && cs[i] == Some(items[k]);
        CandidatesAt(lines, m, |lines|, i);
      }
    }
  }

  /** Bytes alone pass the input check but are never decoded: the answer is an empty
      list. */
  lemma BytesWithoutTextGiveNothing(req: Request, m: ListMatchers)
    requires req.text.None? && Truthy(req.bytesBase64)
    ensures Respond(req, m) == Ok([])
  {
    assert Split("", {'\n', '\r'}) == [[]];
    assert Lines("") == [] by {
      assert [""][..0] == [];
    }
  }

  /** The handler: reject, otherwise structure the lines and attach the vendor. */
  method Handler(req: Request, m: ListMatchers) returns (resp: Response)
    ensures resp == Respond(req, m)
  {
    if (!Truthy(req.text) || |Trim(req.text.value)| < MinTextLength) && !Truthy(req.bytesBase64) {
      return BadRequest(NoInputError);
    }
    var src := req.text.GetOr("");
    var lines := Lines(src);
    var items := CollectItems(lines, m);
    var make := VendorHint(req.fileName);
    resp := Ok(Finalize(items, make));
  }
}
