/**
 * The value normalisers of the pipeline: the presence test every normaliser is gated by,
 * and one rule per semantic type (`string`, `email`, `date`, `phone`, anything else).
 */
module Normalizers {
  import opened Wrappers
  import opened Text

  /** A table cell: pandas' `np.nan` is `Missing`, every other cell is the text read from the file. */
  datatype Cell = Missing | Str(s: string)

  /** The only failure a normaliser lets escape: the date parser raising on its input. */
  datatype Error = UnparseableDate(text: string)

  /** Trimmed, lower-cased spellings that count as absent. */
  const NullWords: seq<string> := ["nan", "null", "none", ""]

  const StringType: string := "string"
  const EmailType: string := "email"
  const DateType: string := "date"
  const PhoneType: string := "phone"
  const KnownTypes: seq<string> := [StringType, EmailType, DateType, PhoneType]

  /**
   * `is_not_null`: the value is truthy and its text, stripped and lower-cased, is not a null
   * spelling. `np.nan` is truthy but its text is `"nan"` (see `MissingTextIsNull`), so `Missing`
   * is never present; an empty string is falsy.
   */
  predicate IsNotNull(c: Cell): (present: bool)
    ensures present ==> c.Str? && Trim(c.s) != []
    ensures c.Str? && Lower(Trim(c.s)) in NullWords ==> !present
  {
    match c
    case Missing => false
    case Str(s) => s != "" && Lower(Trim(s)) !in NullWords
  }

  /** `str(np.nan)`, stripped and lower-cased, is a null spelling: the source's path for `Missing`. */
  lemma MissingTextIsNull()
    ensures Lower(Trim("nan")) in NullWords
  {
    TrimOfPadded([], "nan", []);
    assert [] + "nan" + [] == "nan";
    LowerOfLowerCase("nan");
  }

  /** The truthiness test is subsumed: a string is present exactly when its trimmed lower-cased form is not a null spelling. */
  lemma IsNotNullIff(c: Cell)
    ensures IsNotNull(c) <==> c.Str? && Lower(Trim(c.s)) !in NullWords
  {
    if c.Str? && c.s == "" {
      assert Trim(c.s) == "";
    }
  }

  /** Any case variant of `nan`, `null`, `none` or the empty word, padded by blanks, is absent. */
  lemma NullSpellingIsNull(p: string, w: string, q: string)
    requires AllSpace(p) && AllSpace(q)
    requires Lower(w) in NullWords
    ensures !IsNotNull(Str(p + w + q))
  {
    if w != [] {
      assert Lower(w)[0] == 'n' && Lower(w)[|w| - 1] in "nle";
      assert LowerChar(w[0]) == 'n' && LowerChar(w[|w| - 1]) in "nle";
    }
    TrimOfPadded(p, w, q);
  }

  /** None of the null spellings holds a digit. */
  lemma NullWordsHaveNoDigit(t: string, k: nat)
    requires t in NullWords && k < |t|
    ensures !IsDigit(t[k])
  {
  }

  /** A digit of `s` survives stripping. */
  lemma DigitInsideTrim(s: string, i: nat) returns (k: nat)
    requires i < |s| && IsDigit(s[i])
    ensures k < |Trim(s)| && Trim(s)[k] == s[i]
  {
    var p, q := TrimSplit(s);
    k := DigitInMiddle(p, Trim(s), q, i);
  }

  lemma DigitInMiddle(p: string, w: string, q: string, i: nat) returns (k: nat)
    requires AllSpace(p) && AllSpace(q)
    requires i < |p + w + q| && IsDigit((p + w + q)[i])
    ensures k < |w| && w[k] == (p + w + q)[i]
  {
    var s := p + w + q;
    if i < |p| {
      assert false;
    } else if i >= |p| + |w| {
      assert false;
    }
    k := i - |p|;
  }

  /** A string holding at least one digit is present. */
  lemma PresentIfDigit(s: string, i: nat)
    requires i < |s| && IsDigit(s[i])
    ensures IsNotNull(Str(s))
  {
    var k := DigitInsideTrim(s, i);
    var w := Trim(s);
    assert Lower(w)[k] == LowerChar(w[k]);
    if Lower(w) in NullWords {
      NullWordsHaveNoDigit(Lower(w), k);
    }
  }

  /** A value whose digit subsequence is non-empty is present. */
  lemma DigitsMeanPresent(c: Cell)
    ensures c.Str? && Digits(c.s) != [] ==> IsNotNull(c)
  {
    if c.Str? && Digits(c.s) != [] {
      DigitsMember(c.s, Digits(c.s)[0]);
      var i :| 0 <= i < |c.s| && c.s[i] == Digits(c.s)[0];
      PresentIfDigit(c.s, i);
    }
  }

  // ---------------------------------------------------------------- string

  /** `normalize_str`: the stripped text when present, otherwise `Missing`. */
  function NormalizeStr(c: Cell): (r: Cell)
    ensures r.Str? <==> IsNotNull(c)
    ensures r.Str? ==> NoEdgeSpace(r.s) && IsNotNull(r)
  {
    if IsNotNull(c) then
      IsNotNullIff(c);
      TrimIdempotent(c.s);
      Str(Trim(c.s))
    else
      Missing
  }

  /** A present value between blanks normalises to the value itself. */
  lemma NormalizeStrOfPadded(p: string, w: string, q: string)
    requires AllSpace(p) && AllSpace(q) && NoEdgeSpace(w)
    requires IsNotNull(Str(w))
    ensures NormalizeStr(Str(p + w + q)) == Str(w)
  {
    TrimOfPadded(p, w, q);
    IsNotNullIff(Str(w));
  }

  lemma NormalizeStrIdempotent(c: Cell)
    ensures NormalizeStr(NormalizeStr(c)) == NormalizeStr(c)
  {
    var r := NormalizeStr(c);
    if r.Str? {
      IsNotNullIff(c);
      assert r.s == Trim(c.s);
      TrimIdempotent(c.s);
      assert NormalizeStr(r) == Str(Trim(r.s));
    }
  }

  // ---------------------------------------------------------------- email

  /** `normalize_email`: the stripped, lower-cased text when present, otherwise `Missing`. */
  function NormalizeEmail(c: Cell): (r: Cell)
    ensures r.Str? <==> IsNotNull(c)
    ensures r.Str? ==> NoEdgeSpace(r.s) && IsNotNull(r)
    ensures r.Str? ==> forall i :: 0 <= i < |r.s| ==> !IsUpper(r.s[i])
  {
    if IsNotNull(c) then
      EmailIsPresent(c.s);
      Str(Lower(Trim(c.s)))
    else
      Missing
  }

  /** The normalised form of a present address is present, unpadded and lower-case. */
  lemma EmailIsPresent(s: string)
    requires IsNotNull(Str(s))
    ensures var e := Lower(Trim(s)); IsNotNull(Str(e)) && NoEdgeSpace(e)
  {
    var t := Trim(s);
    var e := Lower(t);
    LowerKeepsEdges(t);
    TrimOfUnpadded(e);
    LowerIdempotent(t);
    assert Lower(Trim(e)) == e;
  }

  /** A present address between blanks normalises to its lower-cased form. */
  lemma NormalizeEmailOfPadded(p: string, w: string, q: string)
    requires AllSpace(p) && AllSpace(q) && NoEdgeSpace(w)
    requires IsNotNull(Str(w))
    ensures NormalizeEmail(Str(p + w + q)) == Str(Lower(w))
  {
    TrimOfPadded(p, w, q);
    IsNotNullIff(Str(w));
  }

  lemma NormalizeEmailIdempotent(c: Cell)
    ensures NormalizeEmail(NormalizeEmail(c)) == NormalizeEmail(c)
  {
    if IsNotNull(c) {
      IsNotNullIff(c);
      var t := Trim(c.s);
      TrimIdempotent(c.s);
      LowerTrimCommute(t);
      LowerIdempotent(t);
      assert Lower(Trim(Lower(t))) == Lower(t);
    }
  }

  // ---------------------------------------------------------------- date

  type Year = y: int | 1 <= y <= 9999 witness 1
  type Month = m: int | 1 <= m <= 12 witness 1
  type Day = d: int | 1 <= d <= 31 witness 1

  /** A calendar date as the date parser returns it (the range of Python's `datetime`). */
  datatype Date = Date(year: Year, month: Month, day: Day)

  /** The permissive date parser: `None` stands for the parser raising on its input. */
  type DateParser = string -> Option<Date>

  function DigitChar(n: int): (c: char)
    requires 0 <= n <= 9
    ensures IsDigit(c)
  {
    ('0' as int + n) as char
  }

  function DigitValue(c: char): (n: int)
    requires IsDigit(c)
    ensures 0 <= n <= 9 && DigitChar(n) == c
  {
    c as int - '0' as int
  }

  /** `n` written with exactly two decimal digits. */
  function Pad2(n: int): string
    requires 0 <= n <= 99
  {
    [DigitChar(n / 10), DigitChar(n % 10)]
  }

  /** `n` written with exactly four decimal digits. */
  function Pad4(n: int): string
    requires 0 <= n <= 9999
  {
    Pad2(n / 100) + Pad2(n % 100)
  }

  /** `strftime("%Y-%m-%d")`. */
  function FormatDate(d: Date): (r: string)
    ensures |r| == 10 && r[4] == '-' && r[7] == '-'
    ensures IsDigit(r[0])
    ensures ReadIsoDate(r) == Some(d)
  {
    var r := Pad4(d.year) + "-" + Pad2(d.month) + "-" + Pad2(d.day);
    ReadFormatted(d.year, d.month, d.day);
    r
  }

  lemma Pad2Reads(n: int)
    requires 0 <= n <= 99
    ensures AllDigits(Pad2(n)) && Read2(Pad2(n)) == n
  {
  }

  /** Reading the canonical text of a date gives the date back. */
  lemma ReadFormatted(y: Year, m: Month, d: Day)
    ensures var s := Pad4(y) + "-" + Pad2(m) + "-" + Pad2(d);
      |s| == 10 && IsDigit(s[0]) && ReadIsoDate(s) == Some(Date(y, m, d))
  {
    var s := Pad4(y) + "-" + Pad2(m) + "-" + Pad2(d);
    Pad2Reads(y / 100);
    Pad2Reads(y % 100);
    Pad2Reads(m);
    Pad2Reads(d);
    assert s[..2] == Pad2(y / 100) && s[2..4] == Pad2(y % 100);
    assert s[..4] == Pad4(y) && s[5..7] == Pad2(m) && s[8..] == Pad2(d);
  }

  function Read2(s: string): int
    requires |s| == 2 && AllDigits(s)
  {
    DigitValue(s[0]) * 10 + DigitValue(s[1])
  }

  /** Reads a `YYYY-MM-DD` text back; the reference the date format is checked against. */
  function ReadIsoDate(s: string): Option<Date> {
    if |s| == 10 && s[4] == '-' && s[7] == '-'
       && AllDigits(s[..4]) && AllDigits(s[5..7]) && AllDigits(s[8..])
    then
      var y := Read2(s[..2]) * 100 + Read2(s[2..4]);
      var m := Read2(s[5..7]);
      var d := Read2(s[8..]);
      if 1 <= y <= 9999 && 1 <= m <= 12 && 1 <= d <= 31 then Some(Date(y, m, d)) else None
    else
      None
  }

  /**
   * The parser reads the canonical `YYYY-MM-DD` text of every date it can return as that same date.
   * Dates the parser never returns (such as 31 February) are not constrained.
   */
  ghost predicate ReadsBackOwnDates(parse: DateParser) {
    forall s :: parse(s).Some? ==> parse(FormatDate(parse(s).value)) == parse(s)
  }

  /** The strict ISO reader meets that hypothesis, so it is not vacuous. */
  lemma IsoReaderReadsBack()
    ensures ReadsBackOwnDates(ReadIsoDate)
  {
    forall s | ReadIsoDate(s).Some?
      ensures ReadIsoDate(FormatDate(ReadIsoDate(s).value)) == ReadIsoDate(s)
    {
      var d := ReadIsoDate(s).value;
      assert ReadIsoDate(FormatDate(d)) == Some(d);
    }
  }

  /**
   * `normalize_date`: when present, the parsed date in `YYYY-MM-DD` form; otherwise `Missing`.
   * The parser's exception is not caught, so an unparseable present value is an error.
   */
  function NormalizeDate(c: Cell, parse: DateParser): (r: Result<Cell, Error>)
    ensures r == Ok(Missing) <==> !IsNotNull(c)
    ensures r.Err? <==> IsNotNull(c) && parse(c.s).None?
    ensures r.Err? ==> r.error == UnparseableDate(c.s)
    ensures r.Ok? && r.value.Str? ==> ReadIsoDate(r.value.s) == parse(c.s)
  {
    if IsNotNull(c) then
      IsNotNullIff(c);
      match parse(c.s)
      case Some(d) => Ok(Str(FormatDate(d)))
      case None => Err(UnparseableDate(c.s))
    else
      Ok(Missing)
  }

  /** With a parser that reads back the canonical text of the dates it returns, date normalisation is idempotent. */
  lemma NormalizeDateIdempotent(c: Cell, parse: DateParser)
    requires ReadsBackOwnDates(parse)
    ensures NormalizeDate(c, parse).Ok? ==>
              NormalizeDate(NormalizeDate(c, parse).value, parse) == NormalizeDate(c, parse)
  {
    var r := NormalizeDate(c, parse);
    if r.Ok? && r.value.Str? {
      var d := parse(c.s).value;
      PresentIfDigit(FormatDate(d), 0);
    }
  }

  // ---------------------------------------------------------------- phone

  /** `DDD-DDD-DDDD`. */
  ghost predicate IsPhoneShape(s: string) {
    |s| == 12 && forall i :: 0 <= i < 12 ==> if i == 3 || i == 7 then s[i] == '-' else IsDigit(s[i])
  }

  /** The digits of a phone-shaped text are its three groups, in order. */
  lemma DigitsOfPhoneShape(s: string)
    requires IsPhoneShape(s)
    ensures Digits(s) == s[..3] + s[4..7] + s[8..]
  {
    assert s == s[..3] + "-" + s[4..7] + "-" + s[8..];
    DigitsAppend(s[..3] + "-" + s[4..7] + "-", s[8..]);
    DigitsAppend(s[..3] + "-" + s[4..7], "-");
    DigitsAppend(s[..3] + "-", s[4..7]);
    DigitsAppend(s[..3], "-");
    DigitsOfDigitString(s[..3]);
    DigitsOfDigitString(s[4..7]);
    DigitsOfDigitString(s[8..]);
  }

  /** A phone-shaped text is determined by its digits. */
  lemma PhoneShapeUnique(a: string, b: string)
    requires IsPhoneShape(a) && IsPhoneShape(b)
    requires Digits(a) == Digits(b)
    ensures a == b
  {
    DigitsOfPhoneShape(a);
    DigitsOfPhoneShape(b);
    var d := Digits(a);
    assert a[..3] == d[..3] == b[..3];
    assert a[4..7] == d[3..6] == b[4..7];
    assert a[8..] == d[6..] == b[8..];
    assert a == a[..3] + "-" + a[4..7] + "-" + a[8..];
    assert b == b[..3] + "-" + b[4..7] + "-" + b[8..];
  }

  /** `f"{digits[:3]}-{digits[3:6]}-{digits[6:]}"`. */
  function FormatPhone(digits: string): (r: string)
    requires |digits| == 10 && AllDigits(digits)
    ensures IsPhoneShape(r) && Digits(r) == digits
  {
    var r := digits[..3] + "-" + digits[3..6] + "-" + digits[6..];
    assert r[..3] == digits[..3] && r[4..7] == digits[3..6] && r[8..] == digits[6..];
    assert IsPhoneShape(r);
    DigitsOfPhoneShape(r);
    r
  }

  /**
   * `normalize_phone`: when the value has exactly ten digits, those digits as `DDD-DDD-DDDD`;
   * any other digit count, or an absent value, gives `Missing`.
   */
  function NormalizePhone(c: Cell): (r: Cell)
    ensures r.Str? <==> c.Str? && |Digits(c.s)| == 10
    ensures r.Str? ==> IsPhoneShape(r.s) && Digits(r.s) == Digits(c.s)
  {
    DigitsMeanPresent(c);
    if IsNotNull(c) then
      var digits := Digits(c.s);
      if |digits| != 10 then
        Missing  // the source reports the malformed value on standard output here
      else
        Str(FormatPhone(digits))
    else
      Missing
  }

  /** Punctuation is ignored: values with the same digits normalise alike. */
  lemma NormalizePhoneIgnoresNonDigits(a: string, b: string)
    requires Digits(a) == Digits(b)
    ensures NormalizePhone(Str(a)) == NormalizePhone(Str(b))
  {
    var ra, rb := NormalizePhone(Str(a)), NormalizePhone(Str(b));
    if ra.Str? {
      PhoneShapeUnique(ra.s, rb.s);
    }
  }

  /** A normalised phone number normalises to itself, e.g. `555-123-4567`. */
  lemma NormalizePhoneIdempotent(c: Cell)
    ensures NormalizePhone(NormalizePhone(c)) == NormalizePhone(c)
  {
    var r := NormalizePhone(c);
    if r.Str? {
      PhoneShapeUnique(NormalizePhone(r).s, r.s);
    }
  }

  // ---------------------------------------------------------------- dispatch

  /**
   * `normalize_value`: the rule for the type tag; an unknown tag returns the cell unchanged,
   * with no presence check. Every known rule maps an absent value to `Missing`.
   */
  function NormalizeValue(ty: string, c: Cell, parse: DateParser): (r: Result<Cell, Error>)
    ensures ty !in KnownTypes ==> r == Ok(c)
    ensures ty in KnownTypes && !IsNotNull(c) ==> r == Ok(Missing)
    ensures r.Err? ==> ty == DateType && IsNotNull(c) && parse(c.s).None?
    ensures ty != DateType ==> r.Ok?
  {
    if ty == StringType then Ok(NormalizeStr(c))
    else if ty == EmailType then Ok(NormalizeEmail(c))
    else if ty == DateType then NormalizeDate(c, parse)
    else if ty == PhoneType then Ok(NormalizePhone(c))
    else Ok(c)
  }

  /** Normalising an already normalised value changes nothing (for dates, given a parser that reads its own output). */
  lemma NormalizeValueIdempotent(ty: string, c: Cell, parse: DateParser)
    requires ty == DateType ==> ReadsBackOwnDates(parse)
    ensures NormalizeValue(ty, c, parse).Ok? ==>
              NormalizeValue(ty, NormalizeValue(ty, c, parse).value, parse) == NormalizeValue(ty, c, parse)
  {
    if ty == StringType {
      NormalizeStrIdempotent(c);
    } else if ty == EmailType {
      NormalizeEmailIdempotent(c);
    } else if ty == DateType {
      NormalizeDateIdempotent(c, parse);
    } else if ty == PhoneType {
      NormalizePhoneIdempotent(c);
    }
  }
}
