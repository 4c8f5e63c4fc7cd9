/** process_uploaded_file (app/utils.py): dispatch an upload on its file extension to the
    spreadsheet or PDF parser, upsert every extracted record into the ProductQuote table
    under the dedup tuple, and commit the batch once or roll all of it back. */
module Catalog {
  import opened Wrappers
  import opened Strings
  import opened Models
  import ExcelParse
  import PdfParse

  // ---------------------------------------------------------------------------
  // The table as a value

  /** The rows of the ProductQuote table in storage order, and the next id to assign. */
  datatype Store = Store(entries: seq<ProductQuote>, nextId: nat)

  /** Ids increase in storage order and stay below the next id. */
  predicate WellFormed(s: Store) {
    && (forall i, j :: 0 <= i < j < |s.entries| ==> s.entries[i].id < s.entries[j].id)
    && (forall i :: 0 <= i < |s.entries| ==> s.entries[i].id < s.nextId)
  }

  /** Who uploads, whether they are an admin, where the file was saved, and the clock
      reading used for the timestamps of this upload. */
  datatype Upload = Upload(userId: int, isAdmin: bool, filePath: string, now: int)

  /** SQL equality against a nullable column: NULL equals no value, not even ''. */
  predicate SqlEq(stored: Option<string>, probe: string) {
    stored == Some(probe)
  }

  /** The filter_by of the dedup lookup: item name, brand and price compared as they are,
      CAS and catalog numbers compared with '' when the record has none. */
  predicate Matches(e: ProductQuote, q: QuoteData) {
    && e.itemName == q.itemName
    && e.makeBrand == q.makeBrand
    && SqlEq(e.casNo, q.casNo.GetOr(""))
    && SqlEq(e.catNo, q.catNo.GetOr(""))
    && e.basePrice == q.basePrice
  }

  /** `.first()`: the position of the first matching row in storage order. */
  function Lookup(entries: seq<ProductQuote>, q: QuoteData): (r: Option<nat>)
    ensures r.Some? ==> r.value < |entries| && Matches(entries[r.value], q)
    ensures r.Some? ==> forall j :: 0 <= j < r.value ==> !Matches(entries[j], q)
    ensures r.None? ==> forall j :: 0 <= j < |entries| ==> !Matches(entries[j], q)
  {
    if entries == [] then None
    else if Matches(entries[0], q) then Some(0)
    else match Lookup(entries[1..], q)
      case None => None
      case Some(j) => Some(j + 1)
  }

  /** The matched row after a repeated observation: the specification only when the new
      one is non-empty, the file reference and the timestamp always. */
  function Refreshed(e: ProductQuote, q: QuoteData, u: Upload): ProductQuote {
    var spec := if q.specifications.Some? && q.specifications.value != "" then q.specifications
                else e.specifications;
    e.(specifications := spec, fileUrl := Some(u.filePath), createdAt := u.now)
  }

  /** The row inserted for a first observation, tagged with the uploader and made private
      exactly when the uploader is an admin. */
  function Inserted(s: Store, q: QuoteData, u: Upload): ProductQuote {
    ProductQuote(s.nextId, q.itemName, q.casNo, q.catNo, q.makeBrand, q.basePrice,
                 q.gstPercent, q.specifications, Some(u.filePath), u.userId, u.isAdmin, u.now)
  }

  /** The table after one record, and the position of the row saved for it. */
  datatype StepResult = StepResult(store: Store, pos: nat)

  /** One pass of the upsert loop body. */
  function UpsertOne(s: Store, q: QuoteData, u: Upload): StepResult {
    match Lookup(s.entries, q)
    case Some(i) => StepResult(Store(s.entries[i := Refreshed(s.entries[i], q, u)], s.nextId), i)
    case None => StepResult(Store(s.entries + [Inserted(s, q, u)], s.nextId + 1), |s.entries|)
  }

  /** The table after a batch, and the positions of the rows saved in order. */
  datatype BatchResult = BatchResult(store: Store, saved: seq<nat>)

  function UpsertAll(s: Store, qs: seq<QuoteData>, u: Upload): (r: BatchResult)
    ensures |r.saved| == |qs|
    ensures |s.entries| <= |r.store.entries| <= |s.entries| + |qs|
  {
    if qs == [] then BatchResult(s, [])
    else
      var prev := UpsertAll(s, qs[..|qs| - 1], u);
      var step := UpsertOne(prev.store, qs[|qs| - 1], u);
      BatchResult(step.store, prev.saved + [step.pos])
  }

  // ---------------------------------------------------------------------------
  // What one upsert does

  /** On a match only the specification (when the new one is non-empty), the file
      reference and the timestamp of the first matching row change; its price, brand,
      privacy, uploader and the rest of the table stay as they were. */
  lemma UpsertOnMatch(s: Store, q: QuoteData, u: Upload)
    requires Lookup(s.entries, q).Some?
    ensures var i := Lookup(s.entries, q).value;
      var r := UpsertOne(s, q, u);
      var (e, e') := (s.entries[i], r.store.entries[i]);
      && r.pos == i && |r.store.entries| == |s.entries| && r.store.nextId == s.nextId
      && Matches(e, q)
      && e'.fileUrl == Some(u.filePath) && e'.createdAt == u.now
      && (q.specifications.Some? && q.specifications.value != "" ==> e'.specifications == q.specifications)
      && (q.specifications.None? || q.specifications.value == "" ==> e'.specifications == e.specifications)
      && e'.id == e.id && DedupTuple(e') == DedupTuple(e) && e'.gstPercent == e.gstPercent
      && e'.isPrivate == e.isPrivate && e'.uploadedById == e.uploadedById
      && forall j :: 0 <= j < |s.entries| && j != i ==> r.store.entries[j] == s.entries[j]
  {
  }

  /** With no match a new row is appended: fresh id, the record's fields, the upload's file
      and time, private exactly for an admin, owned by the uploader. */
  lemma UpsertOnMiss(s: Store, q: QuoteData, u: Upload)
    requires Lookup(s.entries, q).None?
    ensures var r := UpsertOne(s, q, u);
      var e := r.store.entries[|s.entries|];
      && r.pos == |s.entries| && r.store.entries == s.entries + [e] && r.store.nextId == s.nextId + 1
      && e.id == s.nextId && e.isPrivate == u.isAdmin && e.uploadedById == u.userId
      && e.itemName == q.itemName && e.makeBrand == q.makeBrand && e.basePrice == q.basePrice
      && e.casNo == q.casNo && e.catNo == q.catNo && e.gstPercent == q.gstPercent
      && e.specifications == q.specifications && e.fileUrl == Some(u.filePath) && e.createdAt == u.now
  {
  }

  /** A row stored without a CAS number (or without a catalog number) is never found by the
      lookup, whatever record is looked up: the lookup compares with '' and NULL never
      equals ''. */
  lemma AbsentNumbersNeverMatch(e: ProductQuote, q: QuoteData)
    requires e.casNo.None? || e.catNo.None?
    ensures !Matches(e, q)
  {
  }

  /** A record with both numbers present is stored once: upserting it a second time finds
      the row saved the first time and adds no row. */
  lemma RepeatUpsertFindsRow(s: Store, q: QuoteData, u: Upload, u': Upload)
    requires q.casNo.Some? && q.catNo.Some?
    ensures var first := UpsertOne(s, q, u);
      var second := UpsertOne(first.store, q, u');
      second.pos == first.pos && |second.store.entries| == |first.store.entries|
  {
    UpsertFindsOwnRow(s, q, u);
  }

  /** After an upsert of a record with both numbers, the lookup for that record finds the
      row just saved. */
  lemma UpsertFindsOwnRow(s: Store, q: QuoteData, u: Upload)
    requires q.casNo.Some? && q.catNo.Some?
    ensures Lookup(UpsertOne(s, q, u).store.entries, q) == Some(UpsertOne(s, q, u).pos)
  {
    var first := UpsertOne(s, q, u);
    var t := first.store.entries;
    match Lookup(s.entries, q)
    case Some(i) =>
      assert Matches(t[i], q);
      forall j | 0 <= j < i ensures !Matches(t[j], q) {
        assert t[j] == s.entries[j];
      }
      assert Lookup(t, q) == Some(i) by { LookupIsFirst(t, q, i); }
    case None =>
      var n := |s.entries|;
      assert Matches(t[n], q);
      forall j | 0 <= j < n ensures !Matches(t[j], q) {
        assert t[j] == s.entries[j];
      }
      assert Lookup(t, q) == Some(n) by { LookupIsFirst(t, q, n); }
  }

  /** The lookup result is pinned down by "matches, and nothing before it does". */
  lemma LookupIsFirst(entries: seq<ProductQuote>, q: QuoteData, i: nat)
    requires i < |entries| && Matches(entries[i], q)
    requires forall j :: 0 <= j < i ==> !Matches(entries[j], q)
    ensures Lookup(entries, q) == Some(i)
  {
  }

  /** No stored row holds an empty CAS number: the parsers turn empty text into None,
      so rows only ever hold a real number or NULL there. */
  predicate NoEmptyCas(entries: seq<ProductQuote>) {
    forall i :: 0 <= i < |entries| ==> entries[i].casNo != Some("")
  }

  /** A record without a CAS number is never deduplicated: it matches no row, so
      upserting it twice appends two rows. */
  lemma RepeatUpsertWithoutCasDuplicates(s: Store, q: QuoteData, u: Upload, u': Upload)
    requires q.casNo.None? && NoEmptyCas(s.entries)
    ensures Lookup(s.entries, q).None?
    ensures var first := UpsertOne(s, q, u);
      var second := UpsertOne(first.store, q, u');
      |second.store.entries| == |s.entries| + 2 && second.pos == |s.entries| + 1
  {
    var t := UpsertOne(s, q, u).store.entries;
    assert Lookup(s.entries, q).None?;
    forall j | 0 <= j < |t| ensures !Matches(t[j], q) {
      if j < |s.entries| {
        assert t[j] == s.entries[j];
      } else {
        AbsentNumbersNeverMatch(t[j], q);
      }
    }
  }

  // ---------------------------------------------------------------------------
  // What a batch does

  /** A later row is the earlier one with the same id, dedup tuple, tax, privacy and
      uploader: what an upsert may not change. */
  predicate Keeps(a: ProductQuote, b: ProductQuote) {
    && a.id == b.id && DedupTuple(a) == DedupTuple(b) && a.gstPercent == b.gstPercent
    && a.isPrivate == b.isPrivate && a.uploadedById == b.uploadedById
  }

  /** The later table holds every earlier row, at its position, with its kept fields. */
  predicate Extends(before: seq<ProductQuote>, after: seq<ProductQuote>) {
    |before| <= |after| && forall i :: 0 <= i < |before| ==> Keeps(before[i], after[i])
  }

  /** Every row from position start on belongs to the upload's uploader, with its
      privacy. */
  predicate TaggedFrom(entries: seq<ProductQuote>, start: nat, u: Upload) {
    forall i :: start <= i < |entries| ==>
      entries[i].isPrivate == u.isAdmin && entries[i].uploadedById == u.userId
  }

  lemma UpsertOneInvariants(s: Store, q: QuoteData, u: Upload)
    requires WellFormed(s)
    ensures var r := UpsertOne(s, q, u);
      && WellFormed(r.store) && Extends(s.entries, r.store.entries)
      && r.pos < |r.store.entries| && |r.store.entries| <= |s.entries| + 1
      && (|r.store.entries| > |s.entries| ==>
            r.store.entries[|s.entries|].isPrivate == u.isAdmin &&
            r.store.entries[|s.entries|].uploadedById == u.userId)
  {
  }

  /** A batch never removes a row or changes a row's identity, dedup tuple, tax rate,
      privacy or uploader; every row it adds is tagged with the uploader and the
      uploader's privacy; it saves one position per record, each naming a row of the new
      table; and ids stay increasing. */
  lemma {:induction false} UpsertAllInvariants(s: Store, qs: seq<QuoteData>, u: Upload)
    requires WellFormed(s)
    ensures var r := UpsertAll(s, qs, u);
      && WellFormed(r.store)
      && Extends(s.entries, r.store.entries)
      && TaggedFrom(r.store.entries, |s.entries|, u)
      && |r.saved| == |qs|
      && (forall k :: 0 <= k < |r.saved| ==> r.saved[k] < |r.store.entries|)
  {
    if qs != [] {
      var init, last := qs[..|qs| - 1], qs[|qs| - 1];
      var prev := UpsertAll(s, init, u);
      var step := UpsertOne(prev.store, last, u);
      UpsertAllInvariants(s, init, u);
      UpsertOneInvariants(prev.store, last, u);
      assert UpsertAll(s, qs, u) == BatchResult(step.store, prev.saved + [step.pos]);
      ExtendsTransitive(s.entries, prev.store.entries, step.store.entries);
      TaggedStep(prev.store.entries, step.store.entries, |s.entries|, u);
    }
  }

  lemma ExtendsTransitive(a: seq<ProductQuote>, b: seq<ProductQuote>, c: seq<ProductQuote>)
    requires Extends(a, b) && Extends(b, c)
    ensures Extends(a, c)
  {
  }

  /** A step that keeps every row and tags the one it may add keeps the tagging. */
  lemma TaggedStep(before: seq<ProductQuote>, after: seq<ProductQuote>, start: nat, u: Upload)
    requires start <= |before| && TaggedFrom(before, start, u) && Extends(before, after)
    requires |after| <= |before| + 1
    requires |after| > |before| ==>
      after[|before|].isPrivate == u.isAdmin && after[|before|].uploadedById == u.userId
    ensures TaggedFrom(after, start, u)
  {
    forall i | start <= i < |after|
      ensures after[i].isPrivate == u.isAdmin && after[i].uploadedById == u.userId
    {
      if i < |before| {
        assert Keeps(before[i], after[i]);
      }
    }
  }

  /** An upsert keeps every earlier row at its position with its kept fields. */
  lemma UpsertOneExtends(s: Store, q: QuoteData, u: Upload)
    ensures Extends(s.entries, UpsertOne(s, q, u).store.entries)
  {
  }

  /** An upsert whose lookup finds row i saves row i and adds no row. */
  lemma UpsertFound(s: Store, q: QuoteData, u: Upload, i: nat)
    requires Lookup(s.entries, q) == Some(i)
    ensures UpsertOne(s, q, u).pos == i && |UpsertOne(s, q, u).store.entries| == |s.entries|
  {
  }

  /** A lookup that finds a row keeps finding it in any table that extends this one. */
  lemma LookupExtends(a: seq<ProductQuote>, b: seq<ProductQuote>, q: QuoteData, i: nat)
    requires Extends(a, b) && Lookup(a, q) == Some(i)
    ensures Lookup(b, q) == Some(i)
  {
    assert Keeps(a[i], b[i]);
    forall j | 0 <= j < i ensures !Matches(b[j], q) {
      assert Keeps(a[j], b[j]);
    }
    LookupIsFirst(b, q, i);
  }

  /** Every record carries both a CAS and a catalog number. */
  predicate Numbered(qs: seq<QuoteData>) {
    forall k :: 0 <= k < |qs| ==> qs[k].casNo.Some? && qs[k].catNo.Some?
  }

  /** After a batch of numbered records, the lookup for each record finds the row saved
      for it. */
  lemma {:induction false} UpsertAllFindsSaved(s: Store, qs: seq<QuoteData>, u: Upload)
    requires Numbered(qs)
    ensures var r := UpsertAll(s, qs, u);
      forall k :: 0 <= k < |qs| ==> Lookup(r.store.entries, qs[k]) == Some(r.saved[k])
  {
    if qs != [] {
      var init, last := qs[..|qs| - 1], qs[|qs| - 1];
      var prev := UpsertAll(s, init, u);
      var step := UpsertOne(prev.store, last, u);
      assert forall k :: 0 <= k < |init| ==> init[k] == qs[k];
      UpsertAllFindsSaved(s, init, u);
      UpsertOneExtends(prev.store, last, u);
      LookupsExtend(prev.store.entries, step.store.entries, init, prev.saved);
      UpsertFindsOwnRow(prev.store, last, u);
      LookupsAppend(step.store.entries, qs, prev.saved, step.pos);
    }
  }

  lemma LookupsAppend(entries: seq<ProductQuote>, qs: seq<QuoteData>, saved: seq<nat>, pos: nat)
    requires |qs| >= 1 && |saved| == |qs| - 1
    requires forall k :: 0 <= k < |qs| - 1 ==> Lookup(entries, qs[k]) == Some(saved[k])
    requires Lookup(entries, qs[|qs| - 1]) == Some(pos)
    ensures forall k :: 0 <= k < |qs| ==> Lookup(entries, qs[k]) == Some((saved + [pos])[k])
  {
  }

  /** Lookups that find their rows keep finding them in a table that extends this one. */
  lemma LookupsExtend(a: seq<ProductQuote>, b: seq<ProductQuote>, qs: seq<QuoteData>, saved: seq<nat>)
    requires Extends(a, b) && |saved| == |qs|
    requires forall k :: 0 <= k < |qs| ==> Lookup(a, qs[k]) == Some(saved[k])
    ensures forall k :: 0 <= k < |qs| ==> Lookup(b, qs[k]) == Some(saved[k])
  {
    forall k | 0 <= k < |qs| ensures Lookup(b, qs[k]) == Some(saved[k]) {
      LookupExtends(a, b, qs[k], saved[k]);
    }
  }

  /** A batch whose every record already finds its row only refreshes rows: the table
      keeps its length and each saved position is the row found for its record. */
  lemma {:induction false} RefreshOnlyBatch(t: Store, qs: seq<QuoteData>, u: Upload)
    requires forall k :: 0 <= k < |qs| ==> Lookup(t.entries, qs[k]).Some?
    ensures var r := UpsertAll(t, qs, u);
      && |r.store.entries| == |t.entries| && Extends(t.entries, r.store.entries)
      && forall k :: 0 <= k < |qs| ==> r.saved[k] == Lookup(t.entries, qs[k]).value
  {
    if qs != [] {
      var init, last := qs[..|qs| - 1], qs[|qs| - 1];
      var prev := UpsertAll(t, init, u);
      assert forall k :: 0 <= k < |init| ==> init[k] == qs[k];
      RefreshOnlyBatch(t, init, u);
      RefreshStep(t.entries, prev.store, last, u, Lookup(t.entries, last).value);
      LookupsAppend(t.entries, qs, prev.saved, UpsertOne(prev.store, last, u).pos);
    }
  }

  /** One step of a refresh-only batch: the row found in the original table is found
      again, refreshed, and the table keeps its length and its kept fields. */
  lemma RefreshStep(t: seq<ProductQuote>, prev: Store, q: QuoteData, u: Upload, i: nat)
    requires Extends(t, prev.entries) && |prev.entries| == |t| && Lookup(t, q) == Some(i)
    ensures var step := UpsertOne(prev, q, u);
      step.pos == i && |step.store.entries| == |t| && Extends(t, step.store.entries)
  {
    LookupExtends(t, prev.entries, q, i);
    UpsertFound(prev, q, u, i);
    UpsertOneExtends(prev, q, u);
    ExtendsTransitive(t, prev.entries, UpsertOne(prev, q, u).store.entries);
  }

  /** Uploading the same records twice, every record carrying both numbers, stores them
      once: the second upload adds no row and saves the same rows as the first. */
  lemma BatchUploadIdempotent(s: Store, qs: seq<QuoteData>, u: Upload, u': Upload)
    requires Numbered(qs)
    ensures var first := UpsertAll(s, qs, u);
      var second := UpsertAll(first.store, qs, u');
      |second.store.entries| == |first.store.entries| && second.saved == first.saved
  {
    var first := UpsertAll(s, qs, u);
    UpsertAllFindsSaved(s, qs, u);
    RefreshOnlyBatch(first.store, qs, u');
  }

  // ---------------------------------------------------------------------------
  // File types

  /** Position of the last occurrence of c in s. */
  function LastIndexOf(s: string, c: char): (r: Option<nat>)
    ensures r.Some? ==> r.value < |s| && s[r.value] == c
    ensures r.Some? ==> forall k :: r.value < k < |s| ==> s[k] != c
    ensures r.None? ==> forall k :: 0 <= k < |s| ==> s[k] != c
  {
    if s == [] then None
    else if s[|s| - 1] == c then Some(|s| - 1)
    else LastIndexOf(s[..|s| - 1], c)
  }

  /** os.path.splitext(path)[1]: from the last '.' of the last path component to the end,
      provided that component has a character other than '.' before that dot; "" when it
      has no such dot. */
  function Extension(path: string): (ext: string)
    ensures |ext| <= |path| && ext == path[|path| - |ext|..]
    ensures ext != "" ==> ext[0] == '.'
    ensures forall k :: 1 <= k < |ext| ==> ext[k] != '.' && ext[k] != '/'
  {
    var start := match LastIndexOf(path, '/') case None => 0 case Some(p) => p + 1;
    match LastIndexOf(path, '.')
    case None => ""
    case Some(dot) =>
      if start <= dot && exists k :: start <= k < dot && path[k] != '.' then path[dot..] else ""
  }

  /** d is the dot that starts the extension: the last '.' of the name, with no '/' after
      it, and with some character other than '.' between the last '/' and it. */
  predicate ExtensionDot(path: string, d: nat) {
    && d < |path| && path[d] == '.'
    && (forall k :: d < k < |path| ==> path[k] != '.' && path[k] != '/')
    && exists k :: 0 <= k < d && path[k] != '.' && forall k' :: k <= k' < d ==> path[k'] != '/'
  }

  /** splitext finds an extension exactly when the name has such a dot, and the
      extension then runs from that dot to the end. */
  lemma ExtensionSpec(path: string)
    ensures Extension(path) != "" <==> exists d: nat :: ExtensionDot(path, d)
    ensures Extension(path) != "" ==> ExtensionDot(path, |path| - |Extension(path)|)
  {
    var start := match LastIndexOf(path, '/') case None => 0 case Some(p) => p + 1;
    assert forall k :: start <= k < |path| ==> path[k] != '/';
    match LastIndexOf(path, '.')
    case None =>
    case Some(dot) =>
      if start <= dot && exists k :: start <= k < dot && path[k] != '.' {
        var k :| start <= k < dot && path[k] != '.';
        assert ExtensionDot(path, dot);
      } else {
        forall d: nat ensures !ExtensionDot(path, d) {
          NoExtensionDot(path, start, dot, d);
        }
      }
  }

  /** Without a non-'.' character between the last '/' and the last '.', no dot starts
      an extension. */
  lemma NoExtensionDot(path: string, start: nat, dot: nat, d: nat)
    requires start == match LastIndexOf(path, '/') case None => 0 case Some(p) => p + 1
    requires LastIndexOf(path, '.') == Some(dot)
    requires !(start <= dot && exists k :: start <= k < dot && path[k] != '.')
    ensures !ExtensionDot(path, d)
  {
    if d < |path| && path[d] == '.' && forall k :: d < k < |path| ==> path[k] != '.' && path[k] != '/' {
      assert d == dot;
      if LastIndexOf(path, '/').Some? {
        assert LastIndexOf(path, '/').value < d;
      }
      forall k | 0 <= k < d && path[k] != '.' ensures exists k' :: k <= k' < d && path[k'] == '/' {
        assert k < start;
        assert path[start - 1] == '/';
      }
    }
  }

  /** The extensions process_uploaded_file accepts, compared after lower-casing. */
  predicate IsSpreadsheet(ext: string) { Lower(ext) == ".xlsx" || Lower(ext) == ".xls" }
  predicate IsPdf(ext: string) { Lower(ext) == ".pdf" }

  /** The decoded forms of the saved file, as the spreadsheet and PDF readers would
      produce them (None when the reader raises). */
  datatype Decoded = Decoded(sheet: Option<ExcelParse.Sheet>, text: Option<string>)

  /** The records the dispatch obtains for a file name. */
  function Candidates(fileName: string, file: Decoded, m: PdfParse.PdfMatchers): seq<QuoteData> {
    var ext := Extension(fileName);
    if IsSpreadsheet(ext) then ExcelParse.ExcelQuotes(file.sheet)
    else if IsPdf(ext) then PdfParse.PdfQuotes(file.text, m)
    else []
  }

  /** An unsupported extension yields no record, a PDF at most one, and every record of a
      spreadsheet has a positive price and a usable, stripped item name. */
  lemma CandidatesSpec(fileName: string, file: Decoded, m: PdfParse.PdfMatchers)
    ensures var ext := Extension(fileName);
      var qs := Candidates(fileName, file, m);
      && (!IsSpreadsheet(ext) && !IsPdf(ext) ==> qs == [])
      && (IsPdf(ext) && !IsSpreadsheet(ext) ==> |qs| <= 1)
      && (IsSpreadsheet(ext) ==>
            forall k :: 0 <= k < |qs| ==> qs[k].basePrice > 0.0 && ExcelParse.IsUsableName(qs[k].itemName))
  {
    var ext := Extension(fileName);
    if IsSpreadsheet(ext) {
      match file.sheet
      case None =>
      case Some(sh) => ExcelParse.ExtractedAdmitted(sh.rows, ExcelParse.ResolvedColumns(sh.labels));
    } else if IsPdf(ext) {
      match file.text
      case None =>
      case Some(t) => PdfParse.FoldLinesSpec(Split(t, {'\n'}), m);
    }
  }

  /** The message of the unsupported-type error. */
  function UnsupportedMessage(fileName: string): string {
    "Unsupported file type: " + Lower(Extension(fileName))
  }

  /** The extension is compared without regard to case. */
  lemma UpperCaseExtensionAccepted()
    ensures IsPdf(Extension("Quote.PDF"))
  {
    var a := "Quote.PDF";
    LastIndexOfAt(a, '.', 5);
    assert a[0] != '.';
    assert Extension(a) == ".PDF";
    assert Lower(".PDF") == ".pdf";
  }

  /** Only the last extension of a name counts. */
  lemma LastExtensionCounts()
    ensures IsSpreadsheet(Extension("rates.2024.xlsx"))
  {
    var b := "rates.2024.xlsx";
    LastIndexOfAt(b, '.', 10);
    assert b[0] != '.';
    assert Extension(b) == ".xlsx";
    assert Lower(".xlsx") == ".xlsx";
  }

  /** A name that is only a leading dot and an extension, or whose last dot lies in a
      directory name, has no extension. */
  lemma NoExtension()
    ensures Extension(".xlsx") == ""
    ensures Extension("docs.d/price") == ""
  {
    LastIndexOfAt(".xlsx", '.', 0);
    var c := "docs.d/price";
    LastIndexOfAt(c, '/', 6);
    LastIndexOfAt(c, '.', 4);
  }

  /** The last occurrence is pinned down by "c here, and nowhere after". */
  lemma LastIndexOfAt(s: string, c: char, i: nat)
    requires i < |s| && s[i] == c
    requires forall k :: i < k < |s| ==> s[k] != c
    ensures LastIndexOf(s, c) == Some(i)
  {
  }

  // ---------------------------------------------------------------------------
  // The session over the table

  /** The ProductQuote table seen through a database session: the rows and next id the
      session sees (its own pending inserts and updates included, as autoflush makes
      them visible to later lookups) and the last committed state. */
  class Catalog {
    var entries: seq<ProductQuote>
    var nextId: nat
    var committed: Store

    ghost predicate Valid()
      reads this
    {
      WellFormed(State()) && WellFormed(committed)
    }

    /** The state the session sees. */
    function State(): Store
      reads this
    {
      Store(entries, nextId)
    }

    /** No pending changes: what the session sees is what is committed. */
    predicate Clean()
      reads this
    {
      State() == committed
    }

    constructor ()
      ensures Valid() && Clean() && entries == [] && nextId == 1
    {
      entries, nextId := [], 1;
      committed := Store([], 1);
    }

    /** The body of the upsert loop for one record. */
    method Upsert(q: QuoteData, u: Upload) returns (pos: nat)
      requires Valid()
      modifies this
      ensures Valid() && committed == old(committed)
      ensures State() == UpsertOne(old(State()), q, u).store
      ensures pos == UpsertOne(old(State()), q, u).pos
    {
      UpsertOneInvariants(State(), q, u);
      var existing := Lookup(entries, q);
      match existing
      case Some(i) =>
        entries := entries[i := Refreshed(entries[i], q, u)];
        pos := i;
      case None =>
        var row := Inserted(State(), q, u);
        entries := entries + [row];
        nextId := nextId + 1;
        pos := |entries| - 1;
    }

    /** The upsert loop over all extracted records. */
    method UpsertBatch(qs: seq<QuoteData>, u: Upload) returns (saved: seq<nat>)
      requires Valid()
      modifies this
      ensures Valid() && committed == old(committed)
      ensures BatchResult(State(), saved) == UpsertAll(old(State()), qs, u)
    {
      saved := [];
      ghost var start := State();
      for k := 0 to |qs|
        invariant Valid() && committed == old(committed)
        invariant BatchResult(State(), saved) == UpsertAll(start, qs[..k], u)
      {
        assert qs[..k + 1][..k] == qs[..k];
        var pos := Upsert(qs[k], u);
        saved := saved + [pos];
      }
      assert qs[..|qs|] == qs;
    }

    /** db.session.commit(), or, when the commit raises, db.session.rollback(). */
    method Finish(commitError: Option<string>)
      requires Valid()
      modifies this
      ensures Valid() && Clean()
      ensures commitError.None? ==> State() == old(State())
      ensures commitError.Some? ==> State() == old(committed)
    {
      if commitError.None? {
        committed := State();
      } else {
        entries, nextId := committed.entries, committed.nextId;
      }
    }

    /** process_uploaded_file: an unsupported extension changes nothing and reports one
        error; otherwise every extracted record is upserted and the batch is committed,
        or, when the commit raises, rolled back entirely with one error reported; the
        saved positions are returned either way. */
    method ProcessUploadedFile(fileName: string, file: Decoded, m: PdfParse.PdfMatchers,
                               u: Upload, commitError: Option<string>)
      returns (saved: seq<nat>, errors: seq<string>)
      requires Valid() && Clean()
      modifies this
      ensures Valid() && Clean()
      ensures var ext := Extension(fileName);
        !IsSpreadsheet(ext) && !IsPdf(ext) ==>
          State() == old(State()) && saved == [] && errors == [UnsupportedMessage(fileName)]
      ensures var ext := Extension(fileName);
        var r := UpsertAll(old(State()), Candidates(fileName, file, m), u);
        IsSpreadsheet(ext) || IsPdf(ext) ==>
          && saved == r.saved
          && (commitError.None? ==> State() == r.store && errors == [])
          && (commitError.Some? ==>
                State() == old(State()) && errors == ["Error processing file: " + commitError.value])
    {
      var ext := Lower(Extension(fileName));
      var quotes: seq<QuoteData>;
      if ext == ".xlsx" || ext == ".xls" {
        quotes := ExcelParse.ParseExcel(file.sheet);
      } else if ext == ".pdf" {
        quotes := PdfParse.ParsePdf(file.text, m);
      } else {
        return [], ["Unsupported file type: " + ext];
      }
      saved := UpsertBatch(quotes, u);
      Finish(commitError);
      errors := if commitError.None? then [] else ["Error processing file: " + commitError.value];
    }
  }
}
