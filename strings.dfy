/** Text helpers shared by the parsers, the catalog and the search: whitespace trimming,
    ASCII lower-casing, substring tests, splitting on separator characters, the
    lexicographic order Python uses to sort strings, and the decimal-number reading that
    Python's float() and JavaScript's Number() perform on plain decimal literals. */
module Strings {
  import opened Wrappers

  // ---------------------------------------------------------------------------
  // Whitespace and trimming

  /** The six ASCII whitespace characters that both str.strip() and
      String.prototype.trim() remove (space, tab, line feed, carriage return, vertical tab,
      form feed); the further characters each language treats as whitespace are not in
      this set. */
  predicate IsSpace(c: char) {
    c == ' ' || c == '\t' || c == '\n' || c == '\r' || c == '\U{B}' || c == '\U{C}'
  }

  /** s without its leading whitespace. */
  function TrimLeft(s: string): string {
    if s != [] && IsSpace(s[0]) then TrimLeft(s[1..]) else s
  }

  /** TrimLeft drops a whitespace prefix and keeps the rest, which does not start with
      whitespace. */
  lemma {:induction false} TrimLeftSpec(s: string)
    ensures var r := TrimLeft(s);
      && |r| <= |s| && r == s[|s| - |r|..]
      && (r != [] ==> !IsSpace(r[0]))
      && forall k :: 0 <= k < |s| - |r| ==> IsSpace(s[k])
  {
    if s != [] && IsSpace(s[0]) {
      TrimLeftSpec(s[1..]);
      var r := TrimLeft(s[1..]);
      assert s[1..][|s| - 1 - |r|..] == s[|s| - |r|..];
      forall k | 0 < k < |s| - |r| ensures IsSpace(s[k]) {
        assert s[k] == s[1..][k - 1];
      }
    }
  }

  /** s without its trailing whitespace. */
  function TrimRight(s: string): string {
    if s != [] && IsSpace(s[|s| - 1]) then TrimRight(s[..|s| - 1]) else s
  }

  /** TrimRight drops a whitespace suffix and keeps the rest, which does not end with
      whitespace. */
  lemma {:induction false} TrimRightSpec(s: string)
    ensures var r := TrimRight(s);
      && |r| <= |s| && r == s[..|r|]
      && (r != [] ==> !IsSpace(r[|r| - 1]))
      && forall k :: |r| <= k < |s| ==> IsSpace(s[k])
  {
    if s != [] && IsSpace(s[|s| - 1]) {
      TrimRightSpec(s[..|s| - 1]);
    }
  }

  /** Python's str.strip() / JavaScript's trim(). */
  function Trim(s: string): string {
    TrimRight(TrimLeft(s))
  }

  /** Trimming yields a contiguous slice of s that neither starts nor ends with
      whitespace, and everything it removes before and after that slice is whitespace. */
  lemma TrimSpec(s: string)
    ensures exists i: nat :: && OccursAt(s, Trim(s), i)
                             && (forall k :: 0 <= k < i ==> IsSpace(s[k]))
                             && (forall k :: i + |Trim(s)| <= k < |s| ==> IsSpace(s[k]))
    ensures Trim(s) != [] ==> !IsSpace(Trim(s)[0]) && !IsSpace(Trim(s)[|Trim(s)| - 1])
  {
    var l := TrimLeft(s);
    var r := TrimRight(l);
    TrimLeftSpec(s);
    TrimRightSpec(l);
    var i: nat := |s| - |l|;
    assert s[i..][..|r|] == r;
    assert OccursAt(s, Trim(s), i);
    forall k | i + |r| <= k < |s| ensures IsSpace(s[k]) {
      assert s[k] == l[k - i];
    }
  }

  /** A string that does not start or end with whitespace is its own trimming. */
  lemma TrimOfTrimmed(s: string)
    requires s != [] ==> !IsSpace(s[0]) && !IsSpace(s[|s| - 1])
    ensures Trim(s) == s
  {
  }

  /** Trimming twice is trimming once. */
  lemma TrimIdempotent(s: string)
    ensures Trim(Trim(s)) == Trim(s)
  {
    TrimSpec(s);
    TrimOfTrimmed(Trim(s));
  }

  // ---------------------------------------------------------------------------
  // Lower-casing and substrings

  function LowerChar(c: char): (r: char)
    ensures 'A' <= c <= 'Z' ==> r != c && 'a' <= r <= 'z'
    ensures !('A' <= c <= 'Z') ==> r == c
  {
    if 'A' <= c <= 'Z' then (c as int + 32) as char else c
  }

  /** ASCII lower-casing, character by character. */
  function Lower(s: string): (r: string)
    ensures |r| == |s|
    ensures forall k :: 0 <= k < |s| ==> r[k] == LowerChar(s[k])
  {
    seq(|s|, k requires 0 <= k < |s| => LowerChar(s[k]))
  }

  /** Python's s.replace(a, b) for single characters: every a becomes b. */
  function ReplaceChar(s: string, a: char, b: char): (r: string)
    ensures |r| == |s|
    ensures forall k :: 0 <= k < |s| ==> r[k] == if s[k] == a then b else s[k]
  {
    seq(|s|, k requires 0 <= k < |s| => if s[k] == a then b else s[k])
  }

  /** p occurs in s as a contiguous piece (Python's `p in s`, JavaScript's includes). */
  predicate Contains(s: string, p: string)
    decreases |s|
  {
    p <= s || (s != [] && Contains(s[1..], p))
  }

  /** p is the slice of s that starts at offset i. */
  predicate OccursAt(s: string, p: string, i: nat) {
    i + |p| <= |s| && s[i..i + |p|] == p
  }

  /** Contains is exactly "p is the slice of s starting at some offset". */
  lemma {:induction false} ContainsIffAt(s: string, p: string)
    ensures Contains(s, p) <==> exists i: nat :: OccursAt(s, p, i)
    decreases |s|
  {
    if p <= s {
      assert OccursAt(s, p, 0);
    } else if s == [] {
    } else {
      ContainsIffAt(s[1..], p);
      if exists i: nat :: OccursAt(s, p, i) {
        var i: nat :| OccursAt(s, p, i);
        assert i != 0;
        assert OccursAt(s[1..], p, i - 1);
      }
      if Contains(s[1..], p) {
        var i: nat :| OccursAt(s[1..], p, i);
        assert OccursAt(s, p, i + 1);
      }
    }
  }

  /** Case-insensitive substring test: ASCII-lower-case both sides, then Contains. */
  predicate ContainsIgnoreCase(s: string, p: string) {
    Contains(Lower(s), Lower(p))
  }

  // ---------------------------------------------------------------------------
  // Splitting on separator characters

  /** The pieces of s between separator characters, as Python's str.split(sep) and
      JavaScript's split(/a|b/) produce them: always at least one piece, empty pieces
      kept. */
  function Split(s: string, seps: set<char>): (r: seq<string>)
    ensures |r| >= 1
    ensures forall k, j :: 0 <= k < |r| && 0 <= j < |r[k]| ==> r[k][j] !in seps
  {
    if s == [] then [[]]
    else
      var rest := Split(s[1..], seps);
      if s[0] in seps then [[]] + rest
      else [[s[0]] + rest[0]] + rest[1..]
  }

  /** Text without a separator is a single piece. */
  lemma {:induction false} SplitWhole(s: string, seps: set<char>)
    requires forall j :: 0 <= j < |s| ==> s[j] !in seps
    ensures Split(s, seps) == [s]
  {
    if s != [] {
      SplitWhole(s[1..], seps);
      assert s[0] !in seps;
      assert Split(s, seps) == [[s[0]] + s[1..]] + [s[1..]][1..];
      assert [s[0]] + s[1..] == s;
    }
  }

  /** Split on text that starts with x: a separator opens a new empty piece, any other
      character joins the first piece of the rest. */
  function SplitCons(x: char, rest: seq<string>, seps: set<char>): seq<string>
    requires |rest| >= 1
  {
    if x in seps then [[]] + rest else [[x] + rest[0]] + rest[1..]
  }

  lemma SplitUnfold(x: char, t: string, seps: set<char>)
    ensures Split([x] + t, seps) == SplitCons(x, Split(t, seps), seps)
  {
    assert ([x] + t)[1..] == t;
  }

  lemma SplitConsAppend(x: char, p: seq<string>, q: seq<string>, seps: set<char>)
    requires |p| >= 1
    ensures SplitCons(x, p, seps) + q == SplitCons(x, p + q, seps)
  {
    if x !in seps {
      assert (p + q)[1..] == p[1..] + q;
    }
  }

  /** A separator ends one piece and starts the next: the pieces of text cut at a
      separator are the pieces of the part before it followed by those of the part after
      it. */
  lemma {:induction false} SplitAtSeparator(a: string, c: char, b: string, seps: set<char>)
    requires c in seps
    ensures Split(a + [c] + b, seps) == Split(a, seps) + Split(b, seps)
  {
    if a == [] {
      SplitUnfold(c, b, seps);
      assert a + [c] + b == [c] + b;
    } else {
      var x, t := a[0], a[1..];
      assert a + [c] + b == [x] + (t + [c] + b);
      assert a == [x] + t;
      SplitAtSeparator(t, c, b, seps);
      SplitUnfold(x, t + [c] + b, seps);
      SplitUnfold(x, t, seps);
      SplitConsAppend(x, Split(t, seps), Split(b, seps), seps);
    }
  }

  // ---------------------------------------------------------------------------
  // Lexicographic order

  /** a sorts before or equal to b, comparing code points from the left (Python's `<=`
      on str). */
  predicate StrLe(a: string, b: string) {
    a == [] || (b != [] && (a[0] < b[0] || (a[0] == b[0] && StrLe(a[1..], b[1..]))))
  }

  lemma {:induction false} StrLeReflexive(a: string)
    ensures StrLe(a, a)
  {
    if a != [] {
      StrLeReflexive(a[1..]);
    }
  }

  lemma {:induction false} StrLeTotal(a: string, b: string)
    ensures StrLe(a, b) || StrLe(b, a)
  {
    if a != [] && b != [] && a[0] == b[0] {
      StrLeTotal(a[1..], b[1..]);
    }
  }

  lemma {:induction false} StrLeTransitive(a: string, b: string, c: string)
    requires StrLe(a, b) && StrLe(b, c)
    ensures StrLe(a, c)
  {
    if a != [] && a[0] == b[0] && b[0] == c[0] {
      StrLeTransitive(a[1..], b[1..], c[1..]);
    }
  }

  // ---------------------------------------------------------------------------
  // Decimal numbers

  predicate IsDigit(c: char) { '0' <= c <= '9' }

  predicate AllDigits(s: string) { forall k :: 0 <= k < |s| ==> IsDigit(s[k]) }

  function DigitValue(c: char): (d: nat)
    requires IsDigit(c)
    ensures d < 10
  {
    c as int - '0' as int
  }

  /** The natural number a run of decimal digits denotes. */
  function DigitsValue(s: string): nat
    requires AllDigits(s)
  {
    if s == [] then 0 else DigitsValue(s[..|s| - 1]) * 10 + DigitValue(s[|s| - 1])
  }

  function Pow10(n: nat): (r: nat)
    ensures r >= 1
  {
    if n == 0 then 1 else 10 * Pow10(n - 1)
  }

  /** Position of the first occurrence of c in s. */
  function IndexOf(s: string, c: char): (r: Option<nat>)
    ensures r.Some? ==> r.value < |s| && s[r.value] == c
    ensures r.Some? ==> forall k :: 0 <= k < r.value ==> s[k] != c
    ensures r.None? ==> forall k :: 0 <= k < |s| ==> s[k] != c
  {
    if s == [] then None
    else if s[0] == c then Some(0)
    else match IndexOf(s[1..], c)
      case None => None
      case Some(k) => Some(k + 1)
  }

  /** An unsigned decimal literal: digits, optionally a point and more digits, with at
      least one digit in all ("12", "12.5", "12.", ".5"). */
  function ParseUnsigned(s: string): (r: Option<real>)
    ensures r.Some? ==> r.value >= 0.0
  {
    match IndexOf(s, '.')
    case None =>
      if s != [] && AllDigits(s) then Some(DigitsValue(s) as real) else None
    case Some(p) =>
      var whole, frac := s[..p], s[p + 1..];
      if AllDigits(whole) && AllDigits(frac) && (whole != [] || frac != []) then
        Some(DigitsValue(whole) as real + DigitsValue(frac) as real / Pow10(|frac|) as real)
      else None
  }

  /** Reading a plain decimal literal, with surrounding whitespace and an optional sign,
      the way Python's float() reads one; None where float() raises. JavaScript's Number()
      reads digit strings the same way, but reads blank text as 0. */
  function ParseDecimal(s: string): (r: Option<real>)
    ensures Trim(s) == [] ==> r.None?
  {
    var t := Trim(s);
    if t == [] then None
    else if t[0] == '-' then
      match ParseUnsigned(t[1..])
      case None => None
      case Some(v) => Some(-v)
    else if t[0] == '+' then ParseUnsigned(t[1..])
    else ParseUnsigned(t)
  }

  /** Whitespace around a literal is ignored: reading the stripped text gives the same
      result. */
  lemma ParseDecimalIgnoresSpace(s: string)
    ensures ParseDecimal(Trim(s)) == ParseDecimal(s)
  {
    TrimIdempotent(s);
  }

  /** A leading minus sign negates the literal that follows it. */
  lemma ParseDecimalNegates(t: string)
    requires t != [] && Trim(t) == t && t[0] != '-' && t[0] != '+'
    ensures ParseDecimal("-" + t).Some? <==> ParseDecimal(t).Some?
    ensures ParseDecimal("-" + t).Some? ==> ParseDecimal("-" + t).value == -ParseDecimal(t).value
  {
    TrimSpec(t);
    TrimOfTrimmed("-" + t);
    assert ("-" + t)[1..] == t;
  }

  /** The decimal digits of n, most significant first, without leading zeros. */
  function ShowNat(n: nat): (r: string)
    ensures r != [] && AllDigits(r)
  {
    if n < 10 then [('0' as int + n) as char] else ShowNat(n / 10) + [('0' as int + n % 10) as char]
  }

  lemma {:induction false} ShowNatValue(n: nat)
    ensures DigitsValue(ShowNat(n)) == n
  {
    if n >= 10 {
      ShowNatValue(n / 10);
      var s := ShowNat(n);
      assert s[..|s| - 1] == ShowNat(n / 10);
    }
  }

  /** Reading back the digits of a natural number yields that number. */
  lemma ParseShowNat(n: nat)
    ensures ParseDecimal(ShowNat(n)) == Some(n as real)
  {
    var s := ShowNat(n);
    ShowNatValue(n);
    assert IndexOf(s, '.') == None;
    TrimOfTrimmed(s);
  }
}
