/** get_price_intelligence (app/utils.py): the quotes a user may see that match a search,
    grouped by item name and brand, each group summarised by its lowest, highest and
    average base price and its number of quotes, the summaries sorted by item name. */
module Intelligence {
  import opened Wrappers
  import opened Strings
  import opened Models

  // ---------------------------------------------------------------------------
  // Visibility and search

  /** `column ILIKE '%query%'` on a nullable column: NULL matches nothing. */
  predicate Has(column: Option<string>, query: string) {
    column.Some? && ContainsIgnoreCase(column.value, query)
  }

  /** The query occurs, ignoring case, in the item name, CAS number, catalog number, brand
      or specification. */
  predicate SearchHit(e: ProductQuote, query: string) {
    || ContainsIgnoreCase(e.itemName, query)
    || Has(e.casNo, query)
    || Has(e.catNo, query)
    || ContainsIgnoreCase(e.makeBrand, query)
    || Has(e.specifications, query)
  }

  /** Admins see every quote, everybody else the public ones; an empty query filters
      nothing. */
  predicate Visible(e: ProductQuote, query: string, isAdmin: bool) {
    (isAdmin || !e.isPrivate) && (query == "" || SearchHit(e, query))
  }

  function KeepVisible(query: string, isAdmin: bool): ProductQuote -> Option<ProductQuote> {
    e => if Visible(e, query, isAdmin) then Some(e) else None
  }

  /** base_query.all(): the visible rows in storage order. */
  function VisibleQuotes(entries: seq<ProductQuote>, query: string, isAdmin: bool): seq<ProductQuote> {
    FilterMap(entries, KeepVisible(query, isAdmin))
  }

  /** A quote is returned exactly when it is stored and visible; in particular an employee
      never sees a private quote. */
  lemma VisibleQuotesIff(entries: seq<ProductQuote>, query: string, isAdmin: bool, e: ProductQuote)
    ensures e in VisibleQuotes(entries, query, isAdmin) <==> e in entries && Visible(e, query, isAdmin)
    ensures e in VisibleQuotes(entries, query, isAdmin) && !isAdmin ==> !e.isPrivate
  {
    var f := KeepVisible(query, isAdmin);
    var r := VisibleQuotes(entries, query, isAdmin);
    if e in r {
      var k :| 0 <= k < |r| && r[k] == e;
      FilterMapFrom(entries, f, k);
    }
    if e in entries && Visible(e, query, isAdmin) {
      var i :| 0 <= i < |entries| && entries[i] == e;
      FilterMapTo(entries, f, i);
    }
  }

  // ---------------------------------------------------------------------------
  // Grouping

  /** The grouping key: item name and brand joined by '|'. */
  function GroupKey(e: ProductQuote): string {
    e.itemName + "|" + e.makeBrand
  }

  /** One entry of grouped_data: the quote that opened the group (its names, numbers and
      specification are reported) and every price of the group in order. The source keeps
      a separate counter that always equals the number of prices; here it is that
      number. */
  datatype Group = Group(key: string, first: ProductQuote, prices: seq<real>)

  /** Position of the group with the given key. */
  function FindGroup(gs: seq<Group>, key: string): (r: Option<nat>)
    ensures r.Some? ==> r.value < |gs| && gs[r.value].key == key
    ensures r.None? ==> forall j :: 0 <= j < |gs| ==> gs[j].key != key
  {
    if gs == [] then None
    else if gs[0].key == key then Some(0)
    else match FindGroup(gs[1..], key)
      case None => None
      case Some(j) => Some(j + 1)
  }

  /** One pass of the grouping loop: append the price to the quote's group, opening the
      group first when its key is new. */
  function AddQuote(gs: seq<Group>, e: ProductQuote): seq<Group> {
    match FindGroup(gs, GroupKey(e))
    case Some(i) => gs[i := gs[i].(prices := gs[i].prices + [e.basePrice])]
    case None => gs + [Group(GroupKey(e), e, [e.basePrice])]
  }

  /** grouped_data after the loop, in dict insertion order. */
  function Grouped(qs: seq<ProductQuote>): seq<Group> {
    if qs == [] then [] else AddQuote(Grouped(qs[..|qs| - 1]), qs[|qs| - 1])
  }

  /** The first quote with the given key. */
  function FirstWithKey(qs: seq<ProductQuote>, key: string): Option<ProductQuote> {
    if qs == [] then None
    else match FirstWithKey(qs[..|qs| - 1], key)
      case Some(e) => Some(e)
      case None => if GroupKey(qs[|qs| - 1]) == key then Some(qs[|qs| - 1]) else None
  }

  function PriceIfKey(key: string): ProductQuote -> Option<real> {
    e => if GroupKey(e) == key then Some(e.basePrice) else None
  }

  /** The prices of the quotes with the given key, in order. */
  function PricesWithKey(qs: seq<ProductQuote>, key: string): seq<real> {
    FilterMap(qs, PriceIfKey(key))
  }

  predicate DistinctKeys(gs: seq<Group>) {
    forall i, j :: 0 <= i < j < |gs| ==> gs[i].key != gs[j].key
  }

  /** The number of prices recorded in the groups. */
  function TotalPrices(gs: seq<Group>): nat {
    if gs == [] then 0 else TotalPrices(gs[..|gs| - 1]) + |gs[|gs| - 1].prices|
  }

  lemma {:induction false} TotalPricesUpdate(gs: seq<Group>, i: nat, g: Group)
    requires i < |gs|
    ensures TotalPrices(gs[i := g]) == TotalPrices(gs) - |gs[i].prices| + |g.prices|
  {
    if i < |gs| - 1 {
      assert gs[i := g][..|gs| - 1] == gs[..|gs| - 1][i := g];
      TotalPricesUpdate(gs[..|gs| - 1], i, g);
    } else {
      assert gs[i := g][..|gs| - 1] == gs[..|gs| - 1];
    }
  }

  lemma TotalPricesAppend(gs: seq<Group>, g: Group)
    ensures TotalPrices(gs + [g]) == TotalPrices(gs) + |g.prices|
  {
    assert (gs + [g])[..|gs|] == gs;
  }

  /** A key has quotes exactly when it has a first quote. */
  lemma {:induction false} PricesIffFirst(qs: seq<ProductQuote>, key: string)
    ensures |PricesWithKey(qs, key)| >= 1 <==> FirstWithKey(qs, key).Some?
  {
    if qs != [] {
      PricesIffFirst(qs[..|qs| - 1], key);
    }
  }

  lemma PricesStep(qs: seq<ProductQuote>, e: ProductQuote, key: string)
    ensures PricesWithKey(qs + [e], key)
         == PricesWithKey(qs, key) + (if GroupKey(e) == key then [e.basePrice] else [])
  {
    assert (qs + [e])[..|qs|] == qs;
  }

  lemma FirstStep(qs: seq<ProductQuote>, e: ProductQuote, key: string)
    ensures FirstWithKey(qs + [e], key)
         == if FirstWithKey(qs, key).Some? then FirstWithKey(qs, key)
            else if GroupKey(e) == key then Some(e) else None
  {
    assert (qs + [e])[..|qs|] == qs;
  }

  /** Some group carries the key. */
  predicate HasKey(gs: seq<Group>, key: string) {
    exists j :: 0 <= j < |gs| && gs[j].key == key
  }

  /** One pass keeps the keys distinct and adds the quote's key to them. */
  lemma AddQuoteKeys(gs: seq<Group>, e: ProductQuote)
    requires DistinctKeys(gs)
    ensures var gs' := AddQuote(gs, e);
      && DistinctKeys(gs')
      && |gs'| >= |gs|
      && (forall j :: 0 <= j < |gs| ==> gs'[j].key == gs[j].key)
      && (forall key :: HasKey(gs', key) <==> HasKey(gs, key) || key == GroupKey(e))
  {
    var gs' := AddQuote(gs, e);
    var k := GroupKey(e);
    match FindGroup(gs, k)
    case Some(i) =>
      assert forall j :: 0 <= j < |gs| ==> gs'[j].key == gs[j].key;
      forall key ensures HasKey(gs', key) <==> HasKey(gs, key) || key == k {
        if HasKey(gs, key) {
          var j :| 0 <= j < |gs| && gs[j].key == key;
          assert gs'[j].key == key;
        }
        if key == k {
          assert gs'[i].key == key;
        }
        if HasKey(gs', key) {
          var j :| 0 <= j < |gs'| && gs'[j].key == key;
          assert gs[j].key == key;
        }
      }
    case None =>
      forall key ensures HasKey(gs', key) <==> HasKey(gs, key) || key == k {
        if HasKey(gs, key) {
          var j :| 0 <= j < |gs| && gs[j].key == key;
          assert gs'[j].key == key;
        }
        if key == k {
          assert gs'[|gs|].key == key;
        }
        if HasKey(gs', key) {
          var j :| 0 <= j < |gs'| && gs'[j].key == key;
          if j < |gs| {
            assert gs[j].key == key;
          }
        }
      }
  }

  /** The groups have distinct keys, and a key has a group exactly when some quote has
      it. */
  lemma {:induction false} GroupedKeys(qs: seq<ProductQuote>)
    ensures DistinctKeys(Grouped(qs))
    ensures forall key :: HasKey(Grouped(qs), key) <==> FirstWithKey(qs, key).Some?
  {
    if qs != [] {
      var init, e := qs[..|qs| - 1], qs[|qs| - 1];
      assert qs == init + [e];
      GroupedKeys(init);
      AddQuoteKeys(Grouped(init), e);
      forall key ensures HasKey(Grouped(qs), key) <==> FirstWithKey(qs, key).Some? {
        FirstStep(init, e, key);
      }
    }
  }

  /** Each group is opened by the first quote with its key and holds the prices of all
      quotes with its key, in order. */
  predicate Describes(gs: seq<Group>, qs: seq<ProductQuote>) {
    forall i :: 0 <= i < |gs| ==>
      FirstWithKey(qs, gs[i].key) == Some(gs[i].first) && gs[i].prices == PricesWithKey(qs, gs[i].key)
  }

  lemma {:induction false} GroupedContents(qs: seq<ProductQuote>)
    ensures Describes(Grouped(qs), qs)
  {
    if qs != [] {
      var init, e := qs[..|qs| - 1], qs[|qs| - 1];
      assert qs == init + [e];
      GroupedContents(init);
      GroupedKeys(init);
      var gs0, gs := Grouped(init), Grouped(qs);
      var k := GroupKey(e);
      AddQuoteKeys(gs0, e);
      assert gs == AddQuote(gs0, e);
      assert Describes(gs0, init);
      forall i | 0 <= i < |gs|
        ensures FirstWithKey(qs, gs[i].key) == Some(gs[i].first) && gs[i].prices == PricesWithKey(qs, gs[i].key)
      {
        var key := gs[i].key;
        FirstStep(init, e, key);
        PricesStep(init, e, key);
        match FindGroup(gs0, k)
        case Some(m) =>
          assert gs0[m].key == k;
          if i != m {
            assert gs[i] == gs0[i];
            assert key != k;
            assert FirstWithKey(init, key) == Some(gs0[i].first);
            assert FirstWithKey(qs, key) == FirstWithKey(init, key);
            assert PricesWithKey(qs, key) == PricesWithKey(init, key);
          } else {
            assert key == k;
            assert FirstWithKey(init, k) == Some(gs0[m].first);
            assert gs[i].first == gs0[m].first;
            assert gs[i].prices == gs0[m].prices + [e.basePrice];
          }
        case None =>
          if i == |gs0| {
            assert !HasKey(gs0, k);
            PricesIffFirst(init, k);
            assert gs[i] == Group(k, e, [e.basePrice]);
          } else {
            assert gs[i] == gs0[i];
            assert key != k;
          }
      }
    }
  }

  /** The groups hold one price per quote. */
  lemma {:induction false} GroupedTotal(qs: seq<ProductQuote>)
    ensures TotalPrices(Grouped(qs)) == |qs|
  {
    if qs != [] {
      var init, e := qs[..|qs| - 1], qs[|qs| - 1];
      GroupedTotal(init);
      var gs0, gs := Grouped(init), Grouped(qs);
      match FindGroup(gs0, GroupKey(e))
      case Some(i) => TotalPricesUpdate(gs0, i, gs[i]);
      case None => TotalPricesAppend(gs0, gs[|gs0|]);
    }
  }

  /** What grouped_data holds: one group per key, keys distinct, each group opened by the
      first quote with its key and holding the prices of all quotes with its key in
      order, no group empty, and together all the prices. */
  lemma GroupedSpec(qs: seq<ProductQuote>)
    ensures var gs := Grouped(qs);
      && DistinctKeys(gs)
      && NonEmptyGroups(gs)
      && Describes(gs, qs)
      && (forall key :: HasKey(gs, key) <==> FirstWithKey(qs, key).Some?)
      && TotalPrices(gs) == |qs|
  {
    GroupedKeys(qs);
    GroupedContents(qs);
    GroupedTotal(qs);
    var gs := Grouped(qs);
    forall i | 0 <= i < |gs| ensures |gs[i].prices| >= 1 {
      PricesIffFirst(qs, gs[i].key);
    }
  }

  /** Every group holds at least one price. */
  lemma GroupedNonEmpty(qs: seq<ProductQuote>)
    ensures NonEmptyGroups(Grouped(qs))
  {
    GroupedSpec(qs);
  }

  /** Item "a|b" of brand "c" and item "a" of brand "b|c" share the key "a|b|c", so their
      quotes land in one group although the pairs differ. */
  lemma KeyCollision(e1: ProductQuote, e2: ProductQuote)
    requires e1.itemName == "a|b" && e1.makeBrand == "c"
    requires e2.itemName == "a" && e2.makeBrand == "b|c"
    ensures (e1.itemName, e1.makeBrand) != (e2.itemName, e2.makeBrand)
    ensures |Grouped([e1, e2])| == 1
  {
    var k := GroupKey(e1);
    assert k == "a|b|c";
    assert GroupKey(e2) == "a|b|c";
    assert Grouped([e1]) == [Group(k, e1, [e1.basePrice])] by {
      assert [e1][..0] == [];
    }
    assert FindGroup(Grouped([e1]), GroupKey(e2)) == Some(0);
    assert [e1, e2][..1] == [e1];
  }

  // ---------------------------------------------------------------------------
  // Statistics

  function SeqMin(xs: seq<real>): real
    requires |xs| >= 1
  {
    if |xs| == 1 then xs[0]
    else var m := SeqMin(xs[..|xs| - 1]); if xs[|xs| - 1] < m then xs[|xs| - 1] else m
  }

  function SeqMax(xs: seq<real>): real
    requires |xs| >= 1
  {
    if |xs| == 1 then xs[0]
    else var m := SeqMax(xs[..|xs| - 1]); if xs[|xs| - 1] > m then xs[|xs| - 1] else m
  }

  function SeqSum(xs: seq<real>): real {
    if xs == [] then 0.0 else SeqSum(xs[..|xs| - 1]) + xs[|xs| - 1]
  }

  /** min is one of the values and lies below all of them. */
  lemma {:induction false} SeqMinSpec(xs: seq<real>)
    requires |xs| >= 1
    ensures SeqMin(xs) in xs
    ensures forall k :: 0 <= k < |xs| ==> SeqMin(xs) <= xs[k]
  {
    if |xs| > 1 {
      var init := xs[..|xs| - 1];
      SeqMinSpec(init);
      assert forall k :: 0 <= k < |init| ==> xs[k] == init[k];
      assert SeqMin(init) in init;
    }
  }

  /** max is one of the values and lies above all of them. */
  lemma {:induction false} SeqMaxSpec(xs: seq<real>)
    requires |xs| >= 1
    ensures SeqMax(xs) in xs
    ensures forall k :: 0 <= k < |xs| ==> xs[k] <= SeqMax(xs)
  {
    if |xs| > 1 {
      var init := xs[..|xs| - 1];
      SeqMaxSpec(init);
      assert forall k :: 0 <= k < |init| ==> xs[k] == init[k];
      assert SeqMax(init) in init;
    }
  }

  /** Values that are all at least m sum to at least |xs| times m. */
  lemma {:induction false} SumAtLeast(xs: seq<real>, m: real)
    requires forall k :: 0 <= k < |xs| ==> m <= xs[k]
    ensures |xs| as real * m <= SeqSum(xs)
  {
    if xs != [] {
      var init := xs[..|xs| - 1];
      SumAtLeast(init, m);
      assert (|init| + 1) as real * m == |init| as real * m + m;
    }
  }

  /** Values that are all at most m sum to at most |xs| times m. */
  lemma {:induction false} SumAtMost(xs: seq<real>, m: real)
    requires forall k :: 0 <= k < |xs| ==> xs[k] <= m
    ensures SeqSum(xs) <= |xs| as real * m
  {
    if xs != [] {
      var init := xs[..|xs| - 1];
      SumAtMost(init, m);
      assert (|init| + 1) as real * m == |init| as real * m + m;
    }
  }

  /** One row of the result. */
  datatype Summary = Summary(
    itemName: string,
    makeBrand: string,
    casNo: Option<string>,
    catNo: Option<string>,
    minPrice: real,
    maxPrice: real,
    avgPrice: real,
    quoteCount: nat,
    specifications: Option<string>)

  function Summarize(g: Group): Summary
    requires |g.prices| >= 1
  {
    Summary(g.first.itemName, g.first.makeBrand, g.first.casNo, g.first.catNo,
            SeqMin(g.prices), SeqMax(g.prices), SeqSum(g.prices) / |g.prices| as real,
            |g.prices|, g.first.specifications)
  }

  /** A summary reports the group's size, and its average lies between its extremes, each
      of which is one of the group's prices. */
  lemma SummarizeBounds(g: Group)
    requires |g.prices| >= 1
    ensures var s := Summarize(g);
      && s.quoteCount == |g.prices| >= 1
      && s.minPrice in g.prices && s.maxPrice in g.prices
      && s.minPrice <= s.avgPrice <= s.maxPrice
      && forall k :: 0 <= k < |g.prices| ==> s.minPrice <= g.prices[k] <= s.maxPrice
  {
    var xs := g.prices;
    SeqMinSpec(xs);
    SeqMaxSpec(xs);
    SumAtLeast(xs, SeqMin(xs));
    SumAtMost(xs, SeqMax(xs));
    MeanBetween(SeqMin(xs), SeqSum(xs), SeqMax(xs), |xs| as real);
  }

  /** A sum of n values between lo and hi has its mean between lo and hi. */
  lemma MeanBetween(lo: real, sum: real, hi: real, n: real)
    requires n > 0.0 && n * lo <= sum <= n * hi
    ensures lo <= sum / n <= hi
  {
    assert (n * lo) / n == lo;
    assert (n * hi) / n == hi;
    DivMonotone(n * lo, sum, n);
    DivMonotone(sum, n * hi, n);
  }

  lemma DivMonotone(a: real, b: real, n: real)
    requires a <= b && n > 0.0
    ensures a / n <= b / n
  {
  }

  predicate NonEmptyGroups(gs: seq<Group>) {
    forall i :: 0 <= i < |gs| ==> |gs[i].prices| >= 1
  }

  /** The result rows before sorting, one per group in insertion order. */
  function Summaries(gs: seq<Group>): (r: seq<Summary>)
    requires NonEmptyGroups(gs)
    ensures |r| == |gs|
  {
    seq(|gs|, i requires 0 <= i < |gs| => Summarize(gs[i]))
  }

  /** The number of quotes the rows account for. */
  function TotalCount(s: seq<Summary>): nat {
    if s == [] then 0 else TotalCount(s[..|s| - 1]) + s[|s| - 1].quoteCount
  }

  lemma {:induction false} SummariesCount(gs: seq<Group>)
    requires NonEmptyGroups(gs)
    ensures TotalCount(Summaries(gs)) == TotalPrices(gs)
  {
    if gs != [] {
      var init := gs[..|gs| - 1];
      SummariesCount(init);
      assert Summaries(gs)[..|gs| - 1] == Summaries(init);
    }
  }

  // ---------------------------------------------------------------------------
  // Sorting

  predicate NameSorted(s: seq<Summary>) {
    forall i, j :: 0 <= i < j < |s| ==> StrLe(s[i].itemName, s[j].itemName)
  }

  /** Insert x after every row whose name sorts before or equal to it. */
  function InsertByName(s: seq<Summary>, x: Summary): (r: seq<Summary>)
    ensures |r| == |s| + 1
  {
    if s == [] || StrLe(s[|s| - 1].itemName, x.itemName) then s + [x]
    else InsertByName(s[..|s| - 1], x) + [s[|s| - 1]]
  }

  /** result.sort(key=item_name): a stable sort by item name. */
  function SortByName(s: seq<Summary>): (r: seq<Summary>)
    ensures |r| == |s|
  {
    if s == [] then [] else InsertByName(SortByName(s[..|s| - 1]), s[|s| - 1])
  }

  function IfNamed(name: string): Summary -> Option<Summary> {
    (x: Summary) => if x.itemName == name then Some(x) else None
  }

  /** The rows named name, in order. */
  function WithName(s: seq<Summary>, name: string): seq<Summary> {
    FilterMap(s, IfNamed(name))
  }

  lemma {:induction false} InsertMultiset(s: seq<Summary>, x: Summary)
    ensures multiset(InsertByName(s, x)) == multiset(s) + multiset{x}
  {
    if s != [] && !StrLe(s[|s| - 1].itemName, x.itemName) {
      var init, last := s[..|s| - 1], s[|s| - 1];
      assert s == init + [last];
      InsertMultiset(init, x);
    }
  }

  /** A row that sorts after every row of a sorted list may be appended to it. */
  lemma SortedAppend(s: seq<Summary>, y: Summary)
    requires NameSorted(s)
    requires forall i :: 0 <= i < |s| ==> StrLe(s[i].itemName, y.itemName)
    ensures NameSorted(s + [y])
  {
  }

  lemma {:induction false} InsertSorted(s: seq<Summary>, x: Summary)
    requires NameSorted(s)
    ensures NameSorted(InsertByName(s, x))
  {
    if s == [] || StrLe(s[|s| - 1].itemName, x.itemName) {
      forall i | 0 <= i < |s| ensures StrLe(s[i].itemName, x.itemName) {
        if i < |s| - 1 {
          StrLeTransitive(s[i].itemName, s[|s| - 1].itemName, x.itemName);
        }
      }
      SortedAppend(s, x);
    } else {
      var init, last := s[..|s| - 1], s[|s| - 1];
      assert NameSorted(init);
      InsertSorted(init, x);
      InsertMultiset(init, x);
      var r0 := InsertByName(init, x);
      StrLeTotal(last.itemName, x.itemName);
      forall i | 0 <= i < |r0| ensures StrLe(r0[i].itemName, last.itemName) {
        assert r0[i] in multiset(init) + multiset{x};
        if r0[i] != x {
          var j :| 0 <= j < |init| && init[j] == r0[i];
          assert s[j] == r0[i];
        }
      }
      SortedAppend(r0, last);
    }
  }

  /** Two rows that do not both carry the name contribute to WithName in either order. */
  lemma SinglesCommute(x: Summary, y: Summary, name: string)
    requires !(x.itemName == name && y.itemName == name)
    ensures WithName([x], name) + WithName([y], name) == WithName([y], name) + WithName([x], name)
  {
    FilterMapSingle(x, IfNamed(name));
    FilterMapSingle(y, IfNamed(name));
  }

  /** Inserting x keeps the rows of every other name as they were and puts x behind the
      rows named like it. */
  lemma {:induction false} InsertStable(s: seq<Summary>, x: Summary, name: string)
    ensures WithName(InsertByName(s, x), name) == WithName(s + [x], name)
  {
    if s != [] && !StrLe(s[|s| - 1].itemName, x.itemName) {
      var f := IfNamed(name);
      var init, last := s[..|s| - 1], s[|s| - 1];
      assert s == init + [last];
      if last.itemName == name && x.itemName == name {
        StrLeReflexive(name);
        assert false;
      }
      InsertStable(init, x, name);
      SinglesCommute(x, last, name);
      calc {
        WithName(InsertByName(s, x), name);
        == { FilterMapConcat(InsertByName(init, x), [last], f); }
        WithName(InsertByName(init, x), name) + WithName([last], name);
        == { FilterMapConcat(init, [x], f); }
        WithName(init, name) + WithName([x], name) + WithName([last], name);
        == { FilterMapConcat(init, [last], f); }
        WithName(s, name) + WithName([x], name);
        == { FilterMapConcat(s, [x], f); }
        WithName(s + [x], name);
      }
    }
  }

  /** The sort returns the rows sorted by name. */
  lemma {:induction false} SortSorted(s: seq<Summary>)
    ensures NameSorted(SortByName(s))
  {
    if s != [] {
      SortSorted(s[..|s| - 1]);
      InsertSorted(SortByName(s[..|s| - 1]), s[|s| - 1]);
    }
  }

  /** The sort returns a permutation of its input. */
  lemma {:induction false} SortMultiset(s: seq<Summary>)
    ensures multiset(SortByName(s)) == multiset(s)
  {
    if s != [] {
      var init, last := s[..|s| - 1], s[|s| - 1];
      assert s == init + [last];
      SortMultiset(init);
      InsertMultiset(SortByName(init), last);
    }
  }

  /** The sort keeps the rows of each name in their original order. */
  lemma {:induction false} SortStable(s: seq<Summary>, name: string)
    ensures WithName(SortByName(s), name) == WithName(s, name)
  {
    if s != [] {
      var init, last := s[..|s| - 1], s[|s| - 1];
      assert s == init + [last];
      SortStable(init, name);
      InsertStable(SortByName(init), last, name);
      FilterMapConcat(SortByName(init), [last], IfNamed(name));
      FilterMapConcat(init, [last], IfNamed(name));
    }
  }

  /** What result.sort(key=item_name) promises: sorted by name, a permutation of its
      input, and stable. */
  lemma SortByNameSpec(s: seq<Summary>)
    ensures NameSorted(SortByName(s))
    ensures multiset(SortByName(s)) == multiset(s)
    ensures forall name :: WithName(SortByName(s), name) == WithName(s, name)
  {
    SortSorted(s);
    SortMultiset(s);
    forall name ensures WithName(SortByName(s), name) == WithName(s, name) {
      SortStable(s, name);
    }
  }

  lemma {:induction false} TotalCountPermutation(a: seq<Summary>, b: seq<Summary>)
    requires multiset(a) == multiset(b)
    ensures TotalCount(a) == TotalCount(b)
    decreases |a|
  {
    if a != [] {
      var last := a[|a| - 1];
      assert a == a[..|a| - 1] + [last];
      assert last in multiset(b);
      var j :| 0 <= j < |b| && b[j] == last;
      var b' := b[..j] + b[j + 1..];
      assert b == b[..j] + [last] + b[j + 1..];
      assert multiset(a) == multiset(a[..|a| - 1]) + multiset{last};
      assert multiset(b) == multiset(b') + multiset{last} by {
        assert b' == b[..j] + b[j + 1..];
      }
      assert multiset(a[..|a| - 1]) == multiset(a) - multiset{last};
      TotalCountPermutation(a[..|a| - 1], b');
      TotalCountSplit(b[..j], last, b[j + 1..]);
    }
  }

  lemma {:induction false} TotalCountSplit(a: seq<Summary>, x: Summary, b: seq<Summary>)
    ensures TotalCount(a + [x] + b) == TotalCount(a + b) + x.quoteCount
    decreases |b|
  {
    if b == [] {
      assert a + [x] + b == a + [x];
      assert (a + [x])[..|a|] == a;
      assert a + b == a;
    } else {
      var b' := b[..|b| - 1];
      assert (a + [x] + b)[..|a + [x] + b| - 1] == a + [x] + b';
      assert (a + b)[..|a + b| - 1] == a + b';
      TotalCountSplit(a, x, b');
    }
  }

  // ---------------------------------------------------------------------------
  // The whole query

  /** get_price_intelligence as a value. */
  function PriceIntelligence(entries: seq<ProductQuote>, query: string, isAdmin: bool): seq<Summary> {
    var gs := Grouped(VisibleQuotes(entries, query, isAdmin));
    GroupedNonEmpty(VisibleQuotes(entries, query, isAdmin));
    SortByName(Summaries(gs))
  }

  /** A row reports at least one quote and an average between its extremes. */
  predicate Consistent(x: Summary) {
    1 <= x.quoteCount && x.minPrice <= x.avgPrice <= x.maxPrice
  }

  lemma SummariesConsistent(gs: seq<Group>)
    requires NonEmptyGroups(gs)
    ensures forall k :: 0 <= k < |gs| ==> Consistent(Summaries(gs)[k])
  {
    forall k | 0 <= k < |gs| ensures Consistent(Summaries(gs)[k]) {
      SummarizeBounds(gs[k]);
    }
  }

  lemma ConsistentPermutation(a: seq<Summary>, b: seq<Summary>)
    requires multiset(a) == multiset(b)
    requires forall k :: 0 <= k < |b| ==> Consistent(b[k])
    ensures forall k :: 0 <= k < |a| ==> Consistent(a[k])
  {
    forall k | 0 <= k < |a| ensures Consistent(a[k]) {
      assert a[k] in multiset(b);
      var i :| 0 <= i < |b| && b[i] == a[k];
    }
  }

  /** The rows are sorted by item name, each reports at least one quote and an average
      between its extremes, and together they account for every visible quote once. */
  lemma PriceIntelligenceSpec(entries: seq<ProductQuote>, query: string, isAdmin: bool)
    ensures var r := PriceIntelligence(entries, query, isAdmin);
      && NameSorted(r)
      && (forall k :: 0 <= k < |r| ==> Consistent(r[k]))
      && TotalCount(r) == |VisibleQuotes(entries, query, isAdmin)|
  {
    var qs := VisibleQuotes(entries, query, isAdmin);
    var gs := Grouped(qs);
    GroupedSpec(qs);
    var s := Summaries(gs);
    var r := SortByName(s);
    assert r == PriceIntelligence(entries, query, isAdmin);
    SortSorted(s);
    SortMultiset(s);
    SummariesConsistent(gs);
    ConsistentPermutation(r, s);
    SummariesCount(gs);
    TotalCountPermutation(r, s);
  }

  /** grouped_data as a dict with its insertion order. */
  predicate Represents(groups: map<string, Group>, order: seq<string>, gs: seq<Group>) {
    && |order| == |gs|
    && (forall i :: 0 <= i < |gs| ==> order[i] == gs[i].key && order[i] in groups && groups[order[i]] == gs[i])
    && (forall key :: key in groups ==> key in order)
  }

  /** A pass for a key already in the dict appends the price to that group. */
  lemma RepresentsFound(groups: map<string, Group>, order: seq<string>, gs: seq<Group>, q: ProductQuote)
    requires Represents(groups, order, gs) && DistinctKeys(gs) && GroupKey(q) in groups
    ensures var key := GroupKey(q);
      Represents(groups[key := groups[key].(prices := groups[key].prices + [q.basePrice])], order, AddQuote(gs, q))
  {
    var key := GroupKey(q);
    var i :| 0 <= i < |order| && order[i] == key;
    assert gs[i].key == key;
    var m := FindGroup(gs, key).value;
    assert m == i;
  }

  /** A pass for a new key opens its group at the end of the insertion order. */
  lemma RepresentsNew(groups: map<string, Group>, order: seq<string>, gs: seq<Group>, q: ProductQuote)
    requires Represents(groups, order, gs) && GroupKey(q) !in groups
    ensures var key := GroupKey(q);
      Represents(groups[key := Group(key, q, [q.basePrice])], order + [key], AddQuote(gs, q))
  {
  }

  /** The grouping loop over the fetched quotes. */
  method GroupQuotes(quotes: seq<ProductQuote>) returns (groups: map<string, Group>, order: seq<string>)
    ensures Represents(groups, order, Grouped(quotes))
  {
    groups, order := map[], [];
    for n := 0 to |quotes|
      invariant Represents(groups, order, Grouped(quotes[..n]))
    {
      var q := quotes[n];
      var key := GroupKey(q);
      assert quotes[..n + 1][..n] == quotes[..n];
      GroupedKeys(quotes[..n]);
      if key !in groups {
        RepresentsNew(groups, order, Grouped(quotes[..n]), q);
        groups := groups[key := Group(key, q, [])];
        order := order + [key];
      } else {
        RepresentsFound(groups, order, Grouped(quotes[..n]), q);
      }
      groups := groups[key := groups[key].(prices := groups[key].prices + [q.basePrice])];
    }
    assert quotes[..|quotes|] == quotes;
  }

  /** get_price_intelligence: fetch, group, summarise each group in insertion order, sort
      by item name. */
  method GetPriceIntelligence(entries: seq<ProductQuote>, query: string, isAdmin: bool)
    returns (result: seq<Summary>)
    ensures result == PriceIntelligence(entries, query, isAdmin)
  {
    var quotes := VisibleQuotes(entries, query, isAdmin);
    var groups, order := GroupQuotes(quotes);
    ghost var gs := Grouped(quotes);
    GroupedNonEmpty(quotes);
    var rows: seq<Summary> := [];
    for i := 0 to |order|
      invariant |rows| == i
      invariant forall j :: 0 <= j < i ==> rows[j] == Summarize(gs[j])
    {
      var data := groups[order[i]];
      rows := rows + [Summarize(data)];
    }
    assert rows == Summaries(gs);
    result := SortByName(rows);
  }
}
