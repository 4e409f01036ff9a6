/** The scoped, paginated audit query (src/Controller/AuditLogController.php):
    administrators list the whole ledger; other users list the records that
    concern one of their domains. Both listings are ordered by `created_at`
    descending and cut into pages of fifty. */
module AuditLogController {
  import opened Common
  import opened Model
  import AccessControl
  import Persistence

  const PageSize: nat := 50

  // ---------------------------------------------------------------------
  // PHP's `(int)` cast of a query-string value

  /** PHP_INT_MAX and PHP_INT_MIN of a 64-bit build. */
  const IntMax: int := 0x7FFF_FFFF_FFFF_FFFF
  const IntMin: int := -0x8000_0000_0000_0000

  /** 2^1024 - 2^970: the least magnitude that the decimal-to-double
      conversion rounds to infinity, which the cast then turns into 0. */
  const DoubleOverflow: nat := 0xFFFFFFFFFFFFFC00000000000000000000000000000000000000000000000000000000000000000000000000000000000000000000000000000000000000000000000000000000000000000000000000000000000000000000000000000000000000000000000000000000000000000000000000000000000000000000000000

  predicate IsDigit(c: char) {
    '0' <= c <= '9'
  }

  /** The whitespace a numeric string may start with. */
  predicate IsLeadingSpace(c: char) {
    c == ' ' || c == '\t' || c == '\n' || c == '\r' || c as int == 11 || c as int == 12
  }

  predicate AllDigits(s: string) {
    forall i | 0 <= i < |s| :: IsDigit(s[i])
  }

  /** Length of the longest prefix of `s` satisfying `IsLeadingSpace`. */
  function SpacePrefix(s: string): (n: nat)
    ensures n <= |s|
    ensures forall i | 0 <= i < n :: IsLeadingSpace(s[i])
    ensures n < |s| ==> !IsLeadingSpace(s[n])
  {
    if s == [] || !IsLeadingSpace(s[0]) then 0 else 1 + SpacePrefix(s[1..])
  }

  /** Length of the longest prefix of `s` made of decimal digits. */
  function DigitPrefix(s: string): (n: nat)
    ensures n <= |s| && AllDigits(s[..n])
    ensures n < |s| ==> !IsDigit(s[n])
  {
    if s == [] || !IsDigit(s[0]) then 0
    else
      var n := 1 + DigitPrefix(s[1..]);
      assert forall i | 1 <= i < n :: s[..n][i] == s[1..][..n - 1][i - 1];
      n
  }

  /** The value of a string of decimal digits, most significant first. */
  function DigitsValue(d: string): nat
    requires AllDigits(d)
  {
    if d == [] then 0 else DigitsValue(d[..|d| - 1]) * 10 + (d[|d| - 1] as int - '0' as int)
  }

  /** `m` with `k` zeros appended: m * 10^k. */
  function ShiftLeft(m: nat, k: nat): (r: nat)
    ensures m <= r
  {
    if k == 0 then m else 10 * ShiftLeft(m, k - 1)
  }

  /** `m` with its last `k` digits dropped: m / 10^k, toward zero. */
  function ShiftRight(m: nat, k: nat): (r: nat)
    ensures r <= m
  {
    if k == 0 then m else ShiftRight(m / 10, k - 1)
  }

  /** The text after one optional leading sign. */
  function Unsigned(t: string): (u: string)
    ensures t != [] && (t[0] == '-' || t[0] == '+') ==> u == t[1..]
    ensures t == [] || (t[0] != '-' && t[0] != '+') ==> u == t
  {
    if t != [] && (t[0] == '-' || t[0] == '+') then t[1..] else t
  }

  /** A numeral starts with a digit, or with a `.` followed by a digit. */
  predicate StartsNumeral(u: string) {
    (u != [] && IsDigit(u[0])) || (|u| >= 2 && u[0] == '.' && IsDigit(u[1]))
  }

  /** A leading numeric string as PHP reads it: the sign, the digits before
      the point, the digits after an optional point, and the value of an
      optional exponent part. Its exact value is
      (whole ++ fraction) * 10^(exponent - |fraction|). */
  datatype Numeral = Numeral(negative: bool, whole: string, fraction: string, exponent: int)

  /** An exponent part is `e` or `E`, an optional sign and at least one
      digit; anything else is no exponent, which counts as 0. */
  function ExponentOf(rest: string): (e: int)
    ensures rest == [] || (rest[0] != 'e' && rest[0] != 'E') ==> e == 0
  {
    if rest == [] || (rest[0] != 'e' && rest[0] != 'E') then 0
    else
      var v := Unsigned(rest[1..]);
      var digits := v[..DigitPrefix(v)];
      if rest[1..] != [] && rest[1] == '-' then -(DigitsValue(digits) as int) else DigitsValue(digits)
  }

  lemma AllDigitsAppend(a: string, b: string)
    requires AllDigits(a) && AllDigits(b)
    ensures AllDigits(a + b)
  {
  }

  /** The numeric prefix after the leading whitespace: `None` exactly when
      the text (after one sign) starts with neither a digit nor a `.` and a
      digit. A point after at least one digit is read even with no digit
      after it. */
  function LeadingNumeral(s: string): (r: Option<Numeral>)
    ensures r.None? <==> !StartsNumeral(Unsigned(s[SpacePrefix(s)..]))
    ensures r.Some? ==> AllDigits(r.value.whole + r.value.fraction)
    ensures r.Some? ==> (r.value.negative <==> s[SpacePrefix(s)..][0] == '-')
  {
    var t := s[SpacePrefix(s)..];
    var u := Unsigned(t);
    var w := DigitPrefix(u);
    var afterWhole := u[w..];
    var hasDot := afterWhole != [] && afterWhole[0] == '.' && (w > 0 || (|afterWhole| >= 2 && IsDigit(afterWhole[1])));
    if w == 0 && !hasDot then None
    else
      var tail := if hasDot then afterWhole[1..] else [];
      var f := DigitPrefix(tail);
      var rest := if hasDot then tail[f..] else afterWhole;
      AllDigitsAppend(u[..w], tail[..f]);
      Some(Numeral(t[0] == '-', u[..w], tail[..f], ExponentOf(rest)))
  }

  /** All the digits of a numeral as one integer. */
  function Mantissa(n: Numeral): nat
    requires AllDigits(n.whole + n.fraction)
  {
    DigitsValue(n.whole + n.fraction)
  }

  /** The power of ten the mantissa is scaled by. */
  function Scale(n: Numeral): int {
    n.exponent - |n.fraction|
  }

  /** The exact magnitude, truncated toward zero. */
  function Truncated(n: Numeral): nat
    requires AllDigits(n.whole + n.fraction)
  {
    if Scale(n) >= 0 then ShiftLeft(Mantissa(n), Scale(n)) else ShiftRight(Mantissa(n), -Scale(n))
  }

  /** The exact magnitude is at least DoubleOverflow. */
  predicate Overflows(n: Numeral)
    requires AllDigits(n.whole + n.fraction)
  {
    if Scale(n) >= 0 then ShiftLeft(Mantissa(n), Scale(n)) >= DoubleOverflow
    else Mantissa(n) >= ShiftLeft(DoubleOverflow, -Scale(n))
  }

  /** `(int) $s` of PHP 8 on a 64-bit build: the leading numeric string
      (whitespace, a sign, digits, a fraction, an exponent) is read, its
      value truncated toward zero and saturated at PHP_INT_MAX and
      PHP_INT_MIN; a value too large for a double reads as infinity, which
      casts to 0; no leading numeral casts to 0. */
  function IntCast(s: string): (v: int)
    ensures IntMin <= v <= IntMax
  {
    match LeadingNumeral(s)
    case None => 0
    case Some(n) => Saturated(n.negative, Truncated(n), Overflows(n))
  }

  /** A truncated magnitude and its sign as a 64-bit integer: 0 for
      infinity, otherwise clamped to [PHP_INT_MIN, PHP_INT_MAX]. */
  function Saturated(negative: bool, magnitude: nat, infinite: bool): (v: int)
    ensures IntMin <= v <= IntMax
    ensures infinite ==> v == 0
    ensures !infinite && !negative ==> v == if magnitude <= IntMax then magnitude else IntMax
    ensures !infinite && negative ==> v == if magnitude <= -IntMin then -(magnitude as int) else IntMin
  {
    if infinite then 0
    else if negative then (if magnitude >= -IntMin then IntMin else -(magnitude as int))
    else if magnitude >= IntMax then IntMax else magnitude
  }

  /** The cast of a text is the saturated value of its leading numeral. */
  lemma CastOfNumeral(s: string, n: Numeral)
    requires LeadingNumeral(s) == Some(n)
    ensures AllDigits(n.whole + n.fraction)
    ensures IntCast(s) == Saturated(n.negative, Truncated(n), Overflows(n))
  {
  }

  /** The canonical decimal rendering of a natural number. */
  function Decimal(n: nat): (s: string)
    ensures |s| >= 1 && AllDigits(s)
    ensures s[0] != '0' || n == 0
  {
    if n < 10 then [('0' as int + n) as char]
    else Decimal(n / 10) + [('0' as int + n % 10) as char]
  }

  lemma {:induction false} DigitsValueOfDecimal(n: nat)
    ensures DigitsValue(Decimal(n)) == n
  {
    var s := Decimal(n);
    if n >= 10 {
      DigitsValueOfDecimal(n / 10);
      assert s[..|s| - 1] == Decimal(n / 10);
    }
  }

  /** A run of digits followed by a non-digit is read up to that non-digit. */
  lemma {:induction false} DigitPrefixOfDigits(d: string, rest: string)
    requires AllDigits(d)
    requires rest == [] || !IsDigit(rest[0])
    ensures DigitPrefix(d + rest) == |d|
  {
    if d != [] {
      assert (d + rest)[1..] == d[1..] + rest;
      DigitPrefixOfDigits(d[1..], rest);
    }
  }

  /** Dropping as many digits as were appended gives the leading ones back. */
  lemma {:induction false} DropAppendedDigits(d: string, f: string)
    requires AllDigits(d) && AllDigits(f)
    ensures AllDigits(d + f)
    ensures ShiftRight(DigitsValue(d + f), |f|) == DigitsValue(d)
  {
    if f != [] {
      var c, g := d + f, f[..|f| - 1];
      assert c[..|c| - 1] == d + g;
      DropAppendedDigits(d, g);
      assert DigitsValue(c) / 10 == DigitsValue(d + g);
      ShiftRightSplit(DigitsValue(c), |f|);
    } else {
      assert d + f == d;
    }
  }

  /** Dropping k digits is dropping the last one and then k - 1 more. */
  lemma {:induction false} ShiftRightSplit(m: nat, k: nat)
    requires k >= 1
    ensures ShiftRight(m, k) == ShiftRight(m / 10, k - 1)
  {
  }

  /** Digits appended to `d` reach `z` followed by as many zeros exactly
      when `d` reaches `z`. */
  lemma {:induction false} AppendedDigitsReach(d: string, f: string, z: nat)
    requires AllDigits(d) && AllDigits(f)
    ensures AllDigits(d + f)
    ensures DigitsValue(d + f) >= ShiftLeft(z, |f|) <==> DigitsValue(d) >= z
  {
    if f != [] {
      var c, g := d + f, f[..|f| - 1];
      assert c[..|c| - 1] == d + g;
      AppendedDigitsReach(d, g, z);
    } else {
      assert d + f == d;
    }
  }

  /** The numeral a sign, a run of digits and an exponent part denote. */
  lemma NumeralOf(s: string, sign: string, d: string, rest: string)
    requires s == sign + d + rest
    requires sign == "" || sign == "-"
    requires |d| >= 1 && AllDigits(d)
    requires rest == [] || (!IsDigit(rest[0]) && rest[0] != '.')
    ensures LeadingNumeral(s) == Some(Numeral(sign == "-", d, "", ExponentOf(rest)))
  {
    assert SpacePrefix(s) == 0 && s[0..] == s;
    assert Unsigned(s) == d + rest;
    DigitPrefixOfDigits(d, rest);
    assert (d + rest)[..|d|] == d && (d + rest)[|d|..] == rest;
  }

  /** The numeral a sign, digits, a point and more digits denote. */
  lemma NumeralWithFraction(sign: string, d: string, f: string)
    requires sign == "" || sign == "-"
    requires |d| >= 1 && AllDigits(d) && AllDigits(f)
    ensures LeadingNumeral(sign + d + "." + f) == Some(Numeral(sign == "-", d, f, 0))
  {
    var s := sign + d + "." + f;
    assert SpacePrefix(s) == 0 && s[0..] == s;
    assert Unsigned(s) == d + ("." + f);
    DigitPrefixOfDigits(d, "." + f);
    assert (d + ("." + f))[..|d|] == d && (d + ("." + f))[|d|..] == "." + f;
    DigitPrefixOfDigits(f, []);
    assert f + [] == f && f[..|f|] == f && f[|f|..] == [];
  }

  /** The cast reads a decimal rendering, signed or not, as its value. */
  lemma CastOfDecimal(n: nat)
    ensures IntCast(Decimal(n)) == Saturated(false, n, n >= DoubleOverflow)
    ensures IntCast("-" + Decimal(n)) == Saturated(true, n, n >= DoubleOverflow)
  {
    var d := Decimal(n);
    DigitsValueOfDecimal(n);
    CastOfWhole("", d);
    CastOfWhole("-", d);
    assert "" + d == d;
  }

  /** An optional minus sign and a run of digits cast to their value. */
  lemma CastOfWhole(sign: string, d: string)
    requires sign == "" || sign == "-"
    requires |d| >= 1 && AllDigits(d)
    ensures IntCast(sign + d) == Saturated(sign == "-", DigitsValue(d), DigitsValue(d) >= DoubleOverflow)
  {
    assert sign + d + [] == sign + d && d + "" == d;
    NumeralOf(sign + d, sign, d, []);
    CastOfNumeral(sign + d, Numeral(sign == "-", d, "", 0));
  }

  /** Casting the decimal rendering of `n`, with or without a minus sign,
      gives `n` or `-n` while that fits in 64 bits, the bound beyond it, and
      0 once the value no longer fits in a double. */
  lemma IntCastOfDecimal(n: nat)
    ensures n <= IntMax ==> IntCast(Decimal(n)) == n
    ensures IntMax < n < DoubleOverflow ==> IntCast(Decimal(n)) == IntMax
    ensures n <= -IntMin ==> IntCast("-" + Decimal(n)) == -(n as int)
    ensures -IntMin < n < DoubleOverflow ==> IntCast("-" + Decimal(n)) == IntMin
    ensures DoubleOverflow <= n ==> IntCast(Decimal(n)) == 0 && IntCast("-" + Decimal(n)) == 0
  {
    CastOfDecimal(n);
  }

  /** The fraction is dropped: the cast truncates toward zero. */
  lemma FractionTruncates(n: nat, f: string)
    requires AllDigits(f)
    ensures IntCast(Decimal(n) + "." + f) == IntCast(Decimal(n))
    ensures IntCast("-" + Decimal(n) + "." + f) == IntCast("-" + Decimal(n))
  {
    var d := Decimal(n);
    DigitsValueOfDecimal(n);
    var positive, negative := d + "." + f, "-" + d + "." + f;
    assert positive == "" + d + "." + f;
    CastOfFraction(positive, "", d, f);
    CastOfFraction(negative, "-", d, f);
    CastOfDecimal(n);
  }

  /** A signed run of digits, a point and more digits cast like the digits
      before the point. */
  lemma CastOfFraction(s: string, sign: string, d: string, f: string)
    requires s == sign + d + "." + f
    requires sign == "" || sign == "-"
    requires |d| >= 1 && AllDigits(d) && AllDigits(f)
    ensures IntCast(s) == Saturated(sign == "-", DigitsValue(d), DigitsValue(d) >= DoubleOverflow)
  {
    var n := Numeral(sign == "-", d, f, 0);
    NumeralWithFraction(sign, d, f);
    CastOfNumeral(s, n);
    DropAppendedDigits(d, f);
    AppendedDigitsReach(d, f, DoubleOverflow);
    var mantissa, scale := Mantissa(n), Scale(n);
    assert mantissa == DigitsValue(d + f) && scale == -|f|;
    if f == [] {
      assert d + f == d;
    }
  }

  /** An exponent multiplies by that power of ten before the cast. */
  lemma ExponentScales(n: nat, k: nat)
    ensures IntCast(Decimal(n) + "e" + Decimal(k)) == IntCast(Decimal(ShiftLeft(n, k)))
  {
    DigitsValueOfDecimal(n);
    DigitsValueOfDecimal(k);
    CastOfExponent(Decimal(n) + "e" + Decimal(k), Decimal(n), Decimal(k));
    CastOfDecimal(ShiftLeft(n, k));
  }

  /** Digits, `e` and more digits cast to the first digits shifted left by
      the value of the second. */
  lemma CastOfExponent(s: string, d: string, e: string)
    requires s == d + "e" + e
    requires |d| >= 1 && AllDigits(d) && |e| >= 1 && AllDigits(e)
    ensures var m := ShiftLeft(DigitsValue(d), DigitsValue(e));
            IntCast(s) == Saturated(false, m, m >= DoubleOverflow)
  {
    var n := Numeral(false, d, "", DigitsValue(e));
    NumeralWithExponent(d, e);
    CastOfNumeral(s, n);
    assert n.whole + n.fraction == d;
    var mantissa, scale := Mantissa(n), Scale(n);
    assert mantissa == DigitsValue(d) && scale == DigitsValue(e);
  }

  /** The numeral digits, `e` and more digits denote. */
  lemma NumeralWithExponent(d: string, e: string)
    requires |d| >= 1 && AllDigits(d) && |e| >= 1 && AllDigits(e)
    ensures LeadingNumeral(d + "e" + e) == Some(Numeral(false, d, "", DigitsValue(e)))
  {
    var s, rest := d + "e" + e, "e" + e;
    assert s == "" + d + rest;
    NumeralOf(s, "", d, rest);
    var x := ExponentOf(rest);
    ExponentPartValue(e);
    assert x == DigitsValue(e);
  }

  /** `e` and a run of digits is an exponent part worth those digits. */
  lemma ExponentPartValue(e: string)
    requires |e| >= 1 && AllDigits(e)
    ensures ExponentOf("e" + e) == DigitsValue(e)
  {
    var rest := "e" + e;
    assert rest[1..] == e && Unsigned(e) == e;
    DigitPrefixOfDigits(e, []);
    assert e + [] == e && e[..|e|] == e;
  }

  /** An exponent is applied before the cast: "1e2" is 100. */
  lemma ExponentExample()
    ensures IntCast("1e2") == 100
  {
    assert DigitsValue("1") == 1 && DigitsValue("2") == 2;
    CastOfExponent("1e2", "1", "2");
    assert ShiftLeft(1, 2) == 100;
  }

  /** A fraction is truncated toward zero: "2.9" is 2 ... */
  lemma FractionExample()
    ensures IntCast("2.9") == 2
  {
    assert DigitsValue("2") == 2;
    CastOfFraction("2.9", "", "2", "9");
  }

  /** ... and "-2.9" is -2. */
  lemma NegativeFractionExample()
    ensures IntCast("-2.9") == -2
  {
    assert DigitsValue("2") == 2;
    CastOfFraction("-2.9", "-", "2", "9");
  }

  /** A numeral may start at its point: ".5e1" is 5. */
  lemma LeadingPointExample()
    ensures IntCast(".5e1") == 5
  {
    var s := ".5e1";
    assert SpacePrefix(s) == 0 && s[0..] == s && Unsigned(s) == s && DigitPrefix(s) == 0;
    assert s[0..][1..] == "5e1" && DigitPrefix("5e1") == 1 && "5e1"[1..] == "e1";
    assert "5e1"[..1] == "5";
    assert ExponentOf("e1") == 1 by {
      ExponentPartValue("1");
    }
    assert LeadingNumeral(s) == Some(Numeral(false, "", "5", 1));
    assert DigitsValue("" + "5") == 5;
    CastOfNumeral(s, Numeral(false, "", "5", 1));
  }

  /** Text that does not start (after whitespace and one sign) with a digit,
      or a `.` and a digit, casts to 0. */
  lemma NonNumericCastsToZero(s: string)
    requires !StartsNumeral(Unsigned(s[SpacePrefix(s)..]))
    ensures IntCast(s) == 0
  {
  }

  // ---------------------------------------------------------------------
  // Page arithmetic

  /** `max(1, (int) $request->query->get('page', 1))`. */
  function EffectivePage(page: Option<string>): (p: nat)
    ensures 1 <= p <= IntMax
    ensures page.None? ==> p == 1
    ensures page.Some? && IntCast(page.value) >= 1 ==> p == IntCast(page.value)
    ensures page.Some? && IntCast(page.value) < 1 ==> p == 1
  {
    if page.None? then 1
    else if IntCast(page.value) >= 1 then IntCast(page.value) else 1
  }

  /** A page number written in decimal is taken at face value up to
      PHP_INT_MAX, saturates beyond it, and falls back to 1 once it no
      longer fits in a double; written with an exponent it is scaled. */
  lemma EffectivePageOfDecimal(n: nat)
    requires n >= 1
    ensures n <= IntMax ==> EffectivePage(Some(Decimal(n))) == n
    ensures IntMax < n < DoubleOverflow ==> EffectivePage(Some(Decimal(n))) == IntMax
    ensures DoubleOverflow <= n ==> EffectivePage(Some(Decimal(n))) == 1
    ensures EffectivePage(Some("1e2")) == 100
  {
    IntCastOfDecimal(n);
    ExponentExample();
  }

  function Offset(page: nat): nat
    requires page >= 1
  {
    (page - 1) * PageSize
  }

  /** `setFirstResult((page - 1) * 50)->setMaxResults(50)` on an ordered result. */
  function PageOf<T>(s: seq<T>, page: nat): (r: seq<T>)
    requires page >= 1
    ensures |r| <= PageSize
    ensures |r| > 0 <==> Offset(page) < |s|
    ensures forall k | 0 <= k < |r| :: Offset(page) + k < |s| && r[k] == s[Offset(page) + k]
    ensures Offset(page) + PageSize <= |s| ==> |r| == PageSize
  {
    var lo := if Offset(page) < |s| then Offset(page) else |s|;
    var hi := if lo + PageSize < |s| then lo + PageSize else |s|;
    s[lo..hi]
  }

  /** `(int) ceil(total / 50)`. */
  function TotalPages(total: nat): (n: nat)
    ensures n * PageSize >= total
    ensures n > 0 ==> (n - 1) * PageSize < total
    ensures total == 0 <==> n == 0
  {
    (total + PageSize - 1) / PageSize
  }

  /** A page has records exactly when its number is at most `total_pages`. */
  lemma PageNonEmptyIff<T>(s: seq<T>, page: nat)
    requires page >= 1
    ensures |PageOf(s, page)| > 0 <==> page <= TotalPages(|s|)
  {
    var n := TotalPages(|s|);
    if page <= n {
      assert (page - 1) * PageSize <= (n - 1) * PageSize;
    } else {
      assert (page - 1) * PageSize >= n * PageSize;
    }
  }

  /** Every record of a listing sits on exactly one page: record `i` is entry
      `i % 50` of page `i / 50 + 1`, and that page is within `total_pages`. */
  lemma EveryRecordOnItsPage<T>(s: seq<T>, i: nat)
    requires i < |s|
    ensures var page := i / PageSize + 1;
            page <= TotalPages(|s|)
            && i % PageSize < |PageOf(s, page)| && PageOf(s, page)[i % PageSize] == s[i]
  {
    var page := i / PageSize + 1;
    assert Offset(page) + i % PageSize == i;
    PageNonEmptyIff(s, page);
  }

  // ---------------------------------------------------------------------
  // Ordering

  /** Non-increasing `created_at`. */
  predicate SortedDesc(s: seq<AuditLog>) {
    forall i, j | 0 <= i < j < |s| :: s[i].createdAt >= s[j].createdAt
  }

  function Insert(x: AuditLog, s: seq<AuditLog>): (r: seq<AuditLog>)
    ensures |r| == |s| + 1
  {
    if s == [] || x.createdAt >= s[0].createdAt then [x] + s
    else [s[0]] + Insert(x, s[1..])
  }

  /** `orderBy('a.created_at', 'DESC')`. Ties keep ledger order; the
      database leaves their order unspecified. */
  function SortByCreatedDesc(s: seq<AuditLog>): (r: seq<AuditLog>)
    ensures |r| == |s|
  {
    if s == [] then [] else Insert(s[0], SortByCreatedDesc(s[1..]))
  }

  lemma {:induction false} InsertPermutes(x: AuditLog, s: seq<AuditLog>)
    ensures multiset(Insert(x, s)) == multiset(s) + multiset{x}
  {
    if s != [] && x.createdAt < s[0].createdAt {
      InsertPermutes(x, s[1..]);
      assert s == [s[0]] + s[1..];
    }
  }

  lemma {:induction false} InsertSorted(x: AuditLog, s: seq<AuditLog>)
    requires SortedDesc(s)
    ensures SortedDesc(Insert(x, s))
  {
    if s != [] && x.createdAt < s[0].createdAt {
      var r := Insert(x, s[1..]);
      InsertSorted(x, s[1..]);
      InsertPermutes(x, s[1..]);
      forall k | 0 <= k < |r|
        ensures s[0].createdAt >= r[k].createdAt
      {
        assert r[k] in multiset(r);
        if r[k] != x {
          assert r[k] in multiset(s[1..]);
          var j :| 0 <= j < |s[1..]| && s[1..][j] == r[k];
          assert s[j + 1] == r[k];
        }
      }
      assert Insert(x, s) == [s[0]] + r;
    }
  }

  /** The ordering is a permutation of its input, sorted newest first. */
  lemma {:induction false} SortByCreatedDescCorrect(s: seq<AuditLog>)
    ensures SortedDesc(SortByCreatedDesc(s))
    ensures multiset(SortByCreatedDesc(s)) == multiset(s)
  {
    if s != [] {
      SortByCreatedDescCorrect(s[1..]);
      InsertSorted(s[0], SortByCreatedDesc(s[1..]));
      InsertPermutes(s[0], SortByCreatedDesc(s[1..]));
      assert s == [s[0]] + s[1..];
    }
  }

  // ---------------------------------------------------------------------
  // Domain scope

  /** `$ids ?: [0]`: an empty id list becomes the list holding only 0. */
  function OrSentinel(ids: set<int>): (r: set<int>)
    ensures ids != {} ==> r == ids
    ensures ids == {} ==> r == {0}
  {
    if ids == {} then {0} else ids
  }

  /** `entity_id IN (...)`: a null entity id is in no list. */
  predicate EntityIdIn(log: AuditLog, ids: set<int>) {
    log.entityId.Some? && log.entityId.value in ids
  }

  /** The six-way `orX` of the domain query, with the sentinel lists. */
  predicate Visible(log: AuditLog, domainId: int, aliasIds: set<int>, mailboxIds: set<int>, userIds: set<int>) {
    || (log.entityType == "domain" && log.entityId == Some(domainId))
    || (log.entityType == "alias" && EntityIdIn(log, OrSentinel(aliasIds)))
    || (log.entityType == "mailbox" && EntityIdIn(log, OrSentinel(mailboxIds)))
    || (log.entityType == "user_domain" && log.entityId == Some(domainId))
    || (log.entityType == "user" && EntityIdIn(log, OrSentinel(userIds)))
    || (log.entityType == "autoresponder" && EntityIdIn(log, OrSentinel(mailboxIds)))
  }

  /** Reference definition: a record concerns a domain when its entity is
      the domain, a membership in it, or one of its aliases, mailboxes,
      assigned users or mailboxes' autoresponders. */
  predicate Concerns(log: AuditLog, domainId: int, aliases: map<int, Alias>,
                     mailboxes: map<int, Mailbox>, users: map<int, User>) {
    log.entityId.Some? &&
    var id := log.entityId.value;
    match log.entityType
    case "domain" => id == domainId
    case "user_domain" => id == domainId
    case "alias" => id in aliases && aliases[id].domainId == domainId
    case "mailbox" => id in mailboxes && mailboxes[id].domainId == domainId
    case "autoresponder" => id in mailboxes && mailboxes[id].domainId == domainId
    case "user" => id in users && domainId in users[id].domains
    case _ => false
  }

  /** The query's filter selects exactly the records that concern the
      domain, as long as no record names entity 0 (ids start at 1): the
      sentinel never adds a record. */
  lemma {:induction false} VisibleIffConcerns(log: AuditLog, domainId: int, aliases: map<int, Alias>,
                                              mailboxes: map<int, Mailbox>, users: map<int, User>)
    requires log.entityId != Some(0)
    ensures Visible(log, domainId, Persistence.AliasIdsOf(aliases, domainId), Persistence.MailboxIdsOf(mailboxes, domainId), Persistence.UserIdsOf(users, domainId))
        <==> Concerns(log, domainId, aliases, mailboxes, users)
  {
  }

  /** A record naming entity 0 is the one case where the sentinel shows:
      with no aliases in the domain, an alias record for id 0 is listed. */
  lemma SentinelMatchesEntityZero(log: AuditLog, domainId: int, aliases: map<int, Alias>,
                                  mailboxes: map<int, Mailbox>, users: map<int, User>)
    requires log.entityType == "alias" && log.entityId == Some(0)
    requires Persistence.AliasIdsOf(aliases, domainId) == {}
    ensures Visible(log, domainId, Persistence.AliasIdsOf(aliases, domainId), Persistence.MailboxIdsOf(mailboxes, domainId), Persistence.UserIdsOf(users, domainId))
    ensures !Concerns(log, domainId, aliases, mailboxes, users)
  {
  }

  function FilterVisible(logs: seq<AuditLog>, domainId: int, aliasIds: set<int>,
                         mailboxIds: set<int>, userIds: set<int>): (r: seq<AuditLog>)
    ensures |r| <= |logs|
    ensures forall k | 0 <= k < |r| :: r[k] in logs && Visible(r[k], domainId, aliasIds, mailboxIds, userIds)
    ensures forall k | 0 <= k < |logs| :: Visible(logs[k], domainId, aliasIds, mailboxIds, userIds) ==> logs[k] in r
    ensures forall x :: multiset(r)[x] == if Visible(x, domainId, aliasIds, mailboxIds, userIds) then multiset(logs)[x] else 0
  {
    if logs == [] then []
    else
      var rest := FilterVisible(logs[1..], domainId, aliasIds, mailboxIds, userIds);
      assert forall k | 1 <= k < |logs| :: logs[k] == logs[1..][k - 1];
      assert logs == [logs[0]] + logs[1..];
      if Visible(logs[0], domainId, aliasIds, mailboxIds, userIds) then [logs[0]] + rest else rest
  }

  // ---------------------------------------------------------------------
  // The listing

  /** The JSON body of a successful listing; `scope` is the domain for a
      domain listing and absent for the administrator's global listing. */
  datatype Listing = Listing(scope: Option<Domain>, logs: seq<AuditLog>, page: nat,
                             pageSize: nat, totalItems: nat, totalPages: nat)

  datatype Outcome = Failure(response: Response) | Success(listing: Listing)

  /** Page `page` of an ordered result set, with its pagination block. */
  function Paginate(scope: Option<Domain>, matching: seq<AuditLog>, page: nat): (l: Listing)
    requires page >= 1
    ensures l.scope == scope && l.page == page && l.pageSize == PageSize
    ensures l.totalItems == |matching| && l.totalPages == TotalPages(|matching|)
    ensures SortedDesc(l.logs) && |l.logs| <= PageSize
    ensures forall k | 0 <= k < |l.logs| :: l.logs[k] in matching
    ensures |l.logs| > 0 <==> page <= TotalPages(|matching|)
    ensures l.logs == PageOf(SortByCreatedDesc(matching), page)
  {
    var ordered := SortByCreatedDesc(matching);
    SortByCreatedDescCorrect(matching);
    PageNonEmptyIff(ordered, page);
    var logs := PageOf(ordered, page);
    assert forall k | 0 <= k < |logs| :: logs[k] in multiset(ordered);
    Listing(scope, logs, page, PageSize, |matching|, TotalPages(|matching|))
  }

  /** `getAdminLogs`: a page of the whole ledger. */
  function AdminLogs(ledger: seq<AuditLog>, page: nat): (l: Listing)
    requires page >= 1
    ensures l.scope.None? && l.page == page && l.pageSize == PageSize
    ensures l.totalItems == |ledger| && l.totalPages == TotalPages(|ledger|)
    ensures l.logs == PageOf(SortByCreatedDesc(ledger), page)
    ensures forall k | 0 <= k < |l.logs| :: l.logs[k] in ledger
  {
    Paginate(None, ledger, page)
  }

  /** `getDomainLogs`: a page of the records visible for `domain`. */
  function DomainLogs(ledger: seq<AuditLog>, domain: Domain, aliases: map<int, Alias>,
                      mailboxes: map<int, Mailbox>, users: map<int, User>, page: nat): (l: Listing)
    requires page >= 1
    ensures l.scope == Some(domain) && l.page == page && l.pageSize == PageSize
    ensures var matching := FilterVisible(ledger, domain.id, Persistence.AliasIdsOf(aliases, domain.id),
                                          Persistence.MailboxIdsOf(mailboxes, domain.id), Persistence.UserIdsOf(users, domain.id));
            && l.totalItems == |matching| && l.totalPages == TotalPages(|matching|)
            && l.logs == PageOf(SortByCreatedDesc(matching), page)
    ensures forall k | 0 <= k < |l.logs| ::
              (l.logs[k] in ledger
               && Visible(l.logs[k], domain.id, Persistence.AliasIdsOf(aliases, domain.id), Persistence.MailboxIdsOf(mailboxes, domain.id), Persistence.UserIdsOf(users, domain.id)))
  {
    Paginate(Some(domain), FilterVisible(ledger, domain.id, Persistence.AliasIdsOf(aliases, domain.id),
                                         Persistence.MailboxIdsOf(mailboxes, domain.id), Persistence.UserIdsOf(users, domain.id)), page)
  }

  const DomainIdRequired := Response(400, "Parameter \"domain_id\" is required for non-admin users")
  const DomainNotFound := Response(404, "Domain not found")
  const DomainDenied := Response(403, "Access denied to this domain")

  /** `list` for the principal bound by the gate, with the raw `page` and
      `domain_id` query parameters. */
  function List(st: Persistence.Store, principal: Principal, pageParam: Option<string>,
                domainIdParam: Option<string>): (r: Outcome)
    reads st
    ensures principal.MailboxPrincipal? ==> r == Failure(AccessDenied)
    ensures AccessControl.IsAdministrator(principal) ==>
              r == Success(AdminLogs(st.auditLogs, EffectivePage(pageParam)))
    ensures principal.UserPrincipal? && !AccessControl.IsAdministrator(principal) ==>
              if Falsy(domainIdParam) then r == Failure(DomainIdRequired)
              else if IntCast(domainIdParam.value) !in st.domains then r == Failure(DomainNotFound)
              else if IntCast(domainIdParam.value) !in principal.user.domains then r == Failure(DomainDenied)
              else r == Success(DomainLogs(st.auditLogs, st.domains[IntCast(domainIdParam.value)],
                                           st.aliases, st.mailboxes, st.users, EffectivePage(pageParam)))
    ensures r.Success? ==> r.listing.page == EffectivePage(pageParam) && |r.listing.logs| <= PageSize
  {
    match principal
    case MailboxPrincipal(_) => Failure(AccessDenied)
    case UserPrincipal(user) =>
      var page := EffectivePage(pageParam);
      if user.role == Administrator then Success(AdminLogs(st.auditLogs, page))
      else if Falsy(domainIdParam) then Failure(DomainIdRequired)
      else
        var id := IntCast(domainIdParam.value);
        if id !in st.domains then Failure(DomainNotFound)
        else if id !in user.domains then Failure(DomainDenied)
        else Success(DomainLogs(st.auditLogs, st.domains[id], st.aliases, st.mailboxes, st.users, page))
  }

  /** A non-administrator only ever receives records that concern a domain
      assigned to them (given no record names entity 0). */
  lemma ListingStaysInScope(st: Persistence.Store, principal: Principal, pageParam: Option<string>,
                            domainIdParam: Option<string>)
    requires st.Valid()
    requires principal.UserPrincipal? && !AccessControl.IsAdministrator(principal)
    requires forall k | 0 <= k < |st.auditLogs| :: st.auditLogs[k].entityId != Some(0)
    ensures var r := List(st, principal, pageParam, domainIdParam);
            r.Success? ==>
              && r.listing.scope.Some?
              && r.listing.scope.value.id in principal.user.domains
              && forall k | 0 <= k < |r.listing.logs| ::
                   Concerns(r.listing.logs[k], r.listing.scope.value.id, st.aliases, st.mailboxes, st.users)
  {
    var r := List(st, principal, pageParam, domainIdParam);
    if r.Success? {
      var d := r.listing.scope.value;
      forall k | 0 <= k < |r.listing.logs|
        ensures Concerns(r.listing.logs[k], d.id, st.aliases, st.mailboxes, st.users)
      {
        VisibleIffConcerns(r.listing.logs[k], d.id, st.aliases, st.mailboxes, st.users);
      }
    }
  }

  /** An unknown domain is reported as 404 even to a user who could not have
      seen it; only a known domain yields the 403. */
  lemma UnknownDomainIsNotFoundBeforeForbidden(st: Persistence.Store, user: User, pageParam: Option<string>, domainId: string)
    requires user.role == RegularUser && !Falsy(Some(domainId))
    requires IntCast(domainId) !in st.domains
    ensures List(st, UserPrincipal(user), pageParam, Some(domainId)) == Failure(DomainNotFound)
  {
  }

}
