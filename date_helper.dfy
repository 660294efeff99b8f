/** The date helpers: rewriting the common day formats into the ISO 8601
    extended calendar-date form `YYYY-MM-DD` (ISO 8601:2004 section 4.1.2.2),
    formatting such a day back as `DD-MM-YYYY`, and the validity and
    "in the past" tests built on them.

    `new Date(text)` is foreign to the model. It is the parameter `parse`:
    `parse(t)` is `Some(day)` with the `YYYY-MM-DD` day that
    `new Date(t).toISOString().split('T')[0]` yields when `t` parses to a
    valid date, and `None` when it is an invalid date. The current day is the
    parameter `today`, in the same form. */
module DateHelper {
  import opened Wrappers
  import opened JsStrings

  // ------------------------------------------------------------ patterns

  /** `/^\d{4}-\d{2}-\d{2}$/` */
  predicate IsIsoDay(s: string) {
    && |s| == 10
    && IsDigit(s[0]) && IsDigit(s[1]) && IsDigit(s[2]) && IsDigit(s[3]) && s[4] == '-'
    && IsDigit(s[5]) && IsDigit(s[6]) && s[7] == '-'
    && IsDigit(s[8]) && IsDigit(s[9])
  }

  /** `/^\d{2}-\d{2}-\d{4}$/` (with `sep` the dash) and `/^\d{2}\/\d{2}\/\d{4}$/`
      (with `sep` the slash). */
  predicate IsDayFirst(s: string, sep: char) {
    && |s| == 10
    && IsDigit(s[0]) && IsDigit(s[1]) && s[2] == sep
    && IsDigit(s[3]) && IsDigit(s[4]) && s[5] == sep
    && IsDigit(s[6]) && IsDigit(s[7]) && IsDigit(s[8]) && IsDigit(s[9])
  }

  /** `/^\d{1,2}\/\d{1,2}\/\d{4}$/`: three slash-separated fields of one or
      two, one or two, and four digits. */
  predicate IsAmericanDay(s: string) {
    var p := Split(s, '/');
    && |p| == 3
    && 1 <= |p[0]| <= 2 && AllDigits(p[0])
    && 1 <= |p[1]| <= 2 && AllDigits(p[1])
    && |p[2]| == 4 && AllDigits(p[2])
  }

  /** The three layouts `normalizeDate` rewrites without calling the parser. */
  predicate IsFixedLayout(t: string) {
    IsIsoDay(t) || IsDayFirst(t, '-') || IsDayFirst(t, '/')
  }

  /** Element `i` of a destructured array: `undefined` past the end, which a
      template string prints as the word itself. */
  function Part(parts: seq<string>, i: nat): string {
    if i < |parts| then parts[i] else "undefined"
  }

  // ------------------------------------------------------- normalizeDate

  /** `normalizeDate(dateString)`: `null` for a missing or empty argument,
      otherwise the rewriting of the trimmed text. */
  function Normalize(input: Option<string>, parse: string -> Option<string>): (r: Option<string>)
    ensures r == None <==> (input == None || input == Some(""))
  {
    if input == None || input == Some("") then None
    else Some(Rewrite(Trim(input.value), parse))
  }

  /** The layouts tried in turn on the trimmed text. */
  function Rewrite(t: string, parse: string -> Option<string>): (r: string)
    ensures IsIsoDay(t) ==> r == t
    ensures !IsFixedLayout(t) ==> r == parse(t).GetOr(t)
  {
    if IsIsoDay(t) then t
    else if IsDayFirst(t, '-') then
      var p := Split(t, '-');
      Part(p, 2) + "-" + Part(p, 1) + "-" + Part(p, 0)
    else if IsDayFirst(t, '/') then
      var p := Split(t, '/');
      Part(p, 2) + "-" + PadStart(Part(p, 1), 2, '0') + "-" + PadStart(Part(p, 0), 2, '0')
    else Fallback(t, parse)
  }

  /** The last two steps: the `M/D/YYYY` test, then any text the parser
      accepts, become the parsed day; a text it rejects is returned as is.
      The first test adds nothing: the parser decides alone. */
  function Fallback(t: string, parse: string -> Option<string>): (r: string)
    ensures r == parse(t).GetOr(t)
  {
    if IsAmericanDay(t) && parse(t).Some? then parse(t).value
    else if parse(t).Some? then parse(t).value
    else t
  }

  /** `formatDateForDisplay(dateString)`: the three dash-separated fields in
      reverse order, or `''` for a missing or empty argument. */
  function FormatDateForDisplay(input: Option<string>): (r: string)
    ensures r == "" <==> (input == None || input == Some(""))
  {
    if input == None || input == Some("") then ""
    else
      var p := Split(input.value, '-');
      Part(p, 2) + "-" + Part(p, 1) + "-" + Part(p, 0)
  }

  // ---------------------------------------------------- layout algebra

  predicate DigitField(s: string, n: nat) {
    |s| == n && AllDigits(s)
  }

  lemma DigitsNoSeparator(s: string, sep: char)
    requires AllDigits(s) && !IsDigit(sep)
    ensures sep !in s
  {
  }

  /** A text in the ISO layout is its year, month and day fields joined by
      dashes. */
  lemma IsoDayParts(t: string)
    requires IsIsoDay(t)
    ensures DigitField(t[..4], 4) && DigitField(t[5..7], 2) && DigitField(t[8..], 2)
    ensures t == t[..4] + "-" + t[5..7] + "-" + t[8..]
  {
    assert t[..4] == [t[0], t[1], t[2], t[3]];
    assert t[5..7] == [t[5], t[6]];
    assert t[8..] == [t[8], t[9]];
  }

  /** Joining a four-digit year, a two-digit month and a two-digit day by
      dashes gives a text in the ISO layout. */
  lemma IsoDayOfFields(y: string, m: string, d: string)
    requires DigitField(y, 4) && DigitField(m, 2) && DigitField(d, 2)
    ensures var t := y + "-" + m + "-" + d;
      IsIsoDay(t) && t[..4] == y && t[5..7] == m && t[8..] == d
  {
    var t := y + "-" + m + "-" + d;
    assert t[..4] == y && t[5..7] == m && t[8..] == d;
  }

  /** A text in a day-first layout is its day, month and year fields joined
      by the separator. */
  lemma DayFirstParts(t: string, sep: char)
    requires IsDayFirst(t, sep)
    ensures DigitField(t[..2], 2) && DigitField(t[3..5], 2) && DigitField(t[6..], 4)
    ensures t == t[..2] + [sep] + t[3..5] + [sep] + t[6..]
  {
    assert t[..2] == [t[0], t[1]];
    assert t[3..5] == [t[3], t[4]];
    assert t[6..] == [t[6], t[7], t[8], t[9]];
  }

  /** Joining day, month and year fields by a non-digit separator gives a
      day-first text, which splits back into the fields. */
  lemma DayFirstOfFields(d: string, m: string, y: string, sep: char)
    requires DigitField(d, 2) && DigitField(m, 2) && DigitField(y, 4) && !IsDigit(sep)
    ensures IsDayFirst(d + [sep] + m + [sep] + y, sep)
    ensures Split(d + [sep] + m + [sep] + y, sep) == [d, m, y]
  {
    var t := d + [sep] + m + [sep] + y;
    assert t[..2] == d && t[3..5] == m && t[6..] == y;
    assert t[0] == d[0] && t[1] == d[1] && t[3] == m[0] && t[4] == m[1];
    assert t[6] == y[0] && t[7] == y[1] && t[8] == y[2] && t[9] == y[3];
    DigitsNoSeparator(d, sep);
    DigitsNoSeparator(m, sep);
    DigitsNoSeparator(y, sep);
    SplitThree(d, m, y, sep);
  }

  /** A text in one of the fixed layouts has no whitespace at its ends. */
  lemma FixedLayoutTrimmed(t: string)
    requires IsFixedLayout(t)
    ensures Trim(t) == t
  {
    assert IsDigit(t[0]) && IsDigit(t[9]);
    TrimOfTrimmed(t);
  }

  // ----------------------------------------------- normalizeDate, laws

  /** The argument is trimmed before any layout is tried: a non-blank
      argument and its trimmed text normalise alike. */
  lemma NormalizeTrims(s: string, parse: string -> Option<string>)
    requires Trim(s) != ""
    ensures Normalize(Some(s), parse) == Normalize(Some(Trim(s)), parse)
  {
    TrimIdempotent(s);
  }

  /** A blank but non-empty argument trims to `""`, which is returned since
      `new Date("")` is an invalid date; normalising that again gives `null`,
      so `normalizeDate` is not idempotent on such input. */
  lemma NormalizeBlank(s: string, parse: string -> Option<string>)
    requires s != "" && forall i :: 0 <= i < |s| ==> IsWhitespace(s[i])
    requires parse("") == None
    ensures Normalize(Some(s), parse) == Some("")
    ensures Normalize(Normalize(Some(s), parse), parse) == None
  {
    TrimEmptyIffBlank(s);
  }

  lemma NormalizeOfTrimmed(t: string, parse: string -> Option<string>)
    requires t != "" && Trim(t) == t
    ensures Normalize(Some(t), parse) == Some(Rewrite(t, parse))
  {
  }

  /** A text in a fixed layout needs no trimming. */
  lemma NormalizeFixed(t: string, parse: string -> Option<string>)
    requires IsFixedLayout(t)
    ensures Normalize(Some(t), parse) == Some(Rewrite(t, parse))
  {
    FixedLayoutTrimmed(t);
    NormalizeOfTrimmed(t, parse);
  }

  lemma RewriteIso(t: string, parse: string -> Option<string>)
    requires IsIsoDay(t)
    ensures Rewrite(t, parse) == t
  {
  }

  /** A day already in the ISO layout is returned unchanged. */
  lemma NormalizeIso(t: string, parse: string -> Option<string>)
    requires IsIsoDay(t)
    ensures Normalize(Some(t), parse) == Some(t)
  {
    NormalizeFixed(t, parse);
    RewriteIso(t, parse);
  }

  /** `DD-MM-YYYY` and `DD/MM/YYYY` become `YYYY-MM-DD`, with no check of
      the ranges; the padding of the second changes nothing, the fields
      having two digits already. */
  lemma NormalizeDayFirst(d: string, m: string, y: string, sep: char, parse: string -> Option<string>)
    requires DigitField(d, 2) && DigitField(m, 2) && DigitField(y, 4)
    requires sep == '-' || sep == '/'
    ensures Normalize(Some(d + [sep] + m + [sep] + y), parse) == Some(y + "-" + m + "-" + d)
  {
    var t := d + [sep] + m + [sep] + y;
    DayFirstOfFields(d, m, y, sep);
    NormalizeFixed(t, parse);
    RewriteDayFirst(d, m, y, sep, parse);
  }

  lemma RewriteDayFirst(d: string, m: string, y: string, sep: char, parse: string -> Option<string>)
    requires DigitField(d, 2) && DigitField(m, 2) && DigitField(y, 4)
    requires sep == '-' || sep == '/'
    ensures Rewrite(d + [sep] + m + [sep] + y, parse) == y + "-" + m + "-" + d
  {
    DayFirstOfFields(d, m, y, sep);
  }

  /** Past the fixed layouts, the parser decides: its day when it accepts
      the text (the `M/D/YYYY` test in front of it changes nothing), and the
      trimmed text itself when it rejects it. */
  lemma NormalizeParsed(s: string, parse: string -> Option<string>)
    requires Trim(s) != "" && !IsFixedLayout(Trim(s))
    ensures Normalize(Some(s), parse) == Some(parse(Trim(s)).GetOr(Trim(s)))
  {
  }

  /** Every fixed layout is normalised to the ISO layout. */
  lemma NormalizeFixedIso(t: string, parse: string -> Option<string>)
    requires IsFixedLayout(t)
    ensures Normalize(Some(t), parse).Some? && IsIsoDay(Normalize(Some(t), parse).value)
  {
    if IsIsoDay(t) {
      NormalizeIso(t, parse);
    } else {
      var sep := t[2];
      DayFirstParts(t, sep);
      var d, m, y := t[..2], t[3..5], t[6..];
      IsoDayOfFields(y, m, d);
      NormalizeDayFirst(d, m, y, sep, parse);
    }
  }

  /** Idempotence: once a text in a fixed layout has been normalised,
      normalising again changes nothing (an argument with blanks around it
      normalises as its trimmed text does, by `NormalizeTrims`). */
  lemma NormalizeIdempotent(t: string, parse: string -> Option<string>)
    requires IsFixedLayout(t)
    ensures var n := Normalize(Some(t), parse);
      n.Some? && IsIsoDay(n.value) && Normalize(n, parse) == n
  {
    NormalizeFixedIso(t, parse);
    NormalizeIso(Normalize(Some(t), parse).value, parse);
  }

  // ------------------------------------------------ formatDateForDisplay

  lemma FormatFields(y: string, m: string, d: string)
    requires AllDigits(y) && AllDigits(m) && AllDigits(d)
    ensures FormatDateForDisplay(Some(y + "-" + m + "-" + d)) == d + "-" + m + "-" + y
  {
    DigitsNoSeparator(y, '-');
    DigitsNoSeparator(m, '-');
    DigitsNoSeparator(d, '-');
    SplitThree(y, m, d, '-');
  }

  /** Round trip from the ISO layout: the display form is `DD-MM-YYYY`, and
      normalising it gives the day back. */
  lemma FormatRoundTrip(x: string, parse: string -> Option<string>)
    requires IsIsoDay(x)
    ensures IsDayFirst(FormatDateForDisplay(Some(x)), '-')
    ensures Normalize(Some(FormatDateForDisplay(Some(x))), parse) == Some(x)
  {
    IsoDayParts(x);
    var y, m, d := x[..4], x[5..7], x[8..];
    FormatFields(y, m, d);
    DayFirstOfFields(d, m, y, '-');
    NormalizeDayFirst(d, m, y, '-', parse);
  }

  /** Round trip from the display layout: normalising `DD-MM-YYYY` and
      formatting the result gives the text back. */
  lemma DashRoundTrip(t: string, parse: string -> Option<string>)
    requires IsDayFirst(t, '-')
    ensures FormatDateForDisplay(Normalize(Some(t), parse)) == t
  {
    DayFirstParts(t, '-');
    var d, m, y := t[..2], t[3..5], t[6..];
    NormalizeDayFirst(d, m, y, '-', parse);
    FormatFields(y, m, d);
  }

  /** A text with no dash has only the year field; the missing fields print
      as `undefined`. */
  lemma FormatMissingFields(s: string)
    requires s != "" && '-' !in s
    ensures FormatDateForDisplay(Some(s)) == "undefined-undefined-" + s
  {
  }

  // ------------------------------------------------------- isValidDate

  /** `isValidDate` as written: `new Date(null)` is the epoch, a valid date,
      so a missing or empty argument counts as valid. */
  predicate IsValidDateAsWritten(input: Option<string>, parse: string -> Option<string>) {
    match Normalize(input, parse)
    case None => true
    case Some(n) => parse(n).Some?
  }

  lemma IsValidDateAsWrittenAcceptsNothing(parse: string -> Option<string>)
    ensures IsValidDateAsWritten(None, parse)
    ensures IsValidDateAsWritten(Some(""), parse)
  {
  }

  /** `isValidDate` as intended: an argument is a valid date when its
      normalised text parses. */
  predicate IsValidDate(input: Option<string>, parse: string -> Option<string>) {
    match Normalize(input, parse)
    case None => false
    case Some(n) => parse(n).Some?
  }

  /** Only a present, non-empty argument can be valid; a text in a fixed
      layout is valid exactly when its ISO form is a real day, and the two
      versions differ on the missing and empty arguments only. */
  lemma IsValidDateLaws(input: Option<string>, parse: string -> Option<string>)
    ensures IsValidDate(input, parse) ==> input.Some? && input.value != ""
    ensures input.Some? && input.value != "" ==>
      (IsValidDate(input, parse) <==> IsValidDateAsWritten(input, parse))
    ensures input.Some? && IsFixedLayout(input.value) ==>
      (IsValidDate(input, parse) <==> parse(Normalize(input, parse).value).Some?)
  {
  }

  // ----------------------------------------------------------- isDateInPast

  /** The day `new Date(null)` falls on: 1970-01-01, the epoch. */
  const EpochDay: string := "1970-01-01"

  /** `isDateInPast(dateString)` with the clock supplied as the server's
      local day `today` and the sign of its UTC offset. A valid normalised
      date is midnight UTC of its day, while `today` is local midnight. On
      UTC or east of it local midnight falls after midnight UTC of the day
      before and no later than midnight UTC of the day itself, so the test
      is "day before today". West of UTC local midnight falls after midnight
      UTC of the same day, so the day itself is in the past too. An invalid
      date compares false, and a missing argument stands for the epoch. */
  predicate IsDateInPast(input: Option<string>, today: string, westOfUtc: bool, parse: string -> Option<string>) {
    match Normalize(input, parse)
    case None => DayBefore(EpochDay, today, westOfUtc)
    case Some(n) =>
      match parse(n)
      case None => false
      case Some(day) => DayBefore(day, today, westOfUtc)
  }

  /** Midnight UTC of `day` comes before local midnight of `today`. */
  predicate DayBefore(day: string, today: string, westOfUtc: bool) {
    LexLess(day, today) || (westOfUtc && day == today)
  }

  /** The value of an ISO day as the number YYYYMMDD, which orders days by
      year, then month, then day. */
  function DayKey(s: string): nat
    requires IsIsoDay(s)
  {
    IsoDayParts(s);
    DecimalValue(s[..4]) * 10000 + DecimalValue(s[5..7]) * 100 + DecimalValue(s[8..])
  }

  function Pow10(n: nat): (p: nat)
    ensures p >= 1
  {
    if n == 0 then 1 else 10 * Pow10(n - 1)
  }

  lemma DecimalValueBound(s: string)
    requires AllDigits(s)
    ensures DecimalValue(s) < Pow10(|s|)
    decreases |s|
  {
    if s != [] {
      DecimalValueBound(s[..|s| - 1]);
    }
  }

  lemma {:induction false} DecimalValueAppend(a: string, b: string)
    requires AllDigits(a) && AllDigits(b)
    ensures AllDigits(a + b)
    ensures DecimalValue(a + b) == DecimalValue(a) * Pow10(|b|) + DecimalValue(b)
    decreases |b|
  {
    if b == [] {
      assert a + b == a;
    } else {
      var b' := b[..|b| - 1];
      var c := b[|b| - 1];
      assert (a + b)[..|a + b| - 1] == a + b';
      assert (a + b)[|a + b| - 1] == c;
      DecimalValueAppend(a, b');
      assert DecimalValue(a + b) == DecimalValue(a + b') * 10 + DigitValue(c);
      assert DecimalValue(b) == DecimalValue(b') * 10 + DigitValue(c);
      ShiftStep(DecimalValue(a), Pow10(|b'|), DecimalValue(b'), DigitValue(c));
    }
  }

  lemma ShiftStep(x: nat, p: nat, y: nat, d: nat)
    ensures (x * p + y) * 10 + d == x * (10 * p) + (y * 10 + d)
  {
  }

  /** `a < b` on digit strings of equal length is `<` on their numbers. */
  lemma {:induction false} DigitsLexOrder(a: string, b: string)
    requires |a| == |b| && AllDigits(a) && AllDigits(b)
    ensures LexLess(a, b) <==> DecimalValue(a) < DecimalValue(b)
    ensures a == b <==> DecimalValue(a) == DecimalValue(b)
    decreases |a|
  {
    if a != [] {
      var a', b' := a[1..], b[1..];
      DigitsLexOrder(a', b');
      LeadingDigitValue(a);
      LeadingDigitValue(b);
      DecimalValueBound(a');
      DecimalValueBound(b');
      LeadOrder(DigitValue(a[0]), DigitValue(b[0]), Pow10(|a'|), DecimalValue(a'), DecimalValue(b'));
      assert a == [a[0]] + a' && b == [b[0]] + b';
    }
  }

  lemma LeadingDigitValue(a: string)
    requires a != [] && AllDigits(a)
    ensures DecimalValue(a) == DigitValue(a[0]) * Pow10(|a| - 1) + DecimalValue(a[1..])
  {
    var c, r := a[0], a[1..];
    assert [c] + r == a;
    var p := Pow10(|r|);
    DecimalValueAppend([c], r);
    assert DecimalValue([c]) == DigitValue(c) by {
      assert [c][..0] == [];
    }
    assert DecimalValue(a) == DecimalValue([c]) * p + DecimalValue(r);
  }

  /** Numbers of the form `x * p + r` with `r < p` compare by `x` first. */
  lemma LeadOrder(x: nat, y: nat, p: nat, ra: nat, rb: nat)
    requires ra < p && rb < p
    ensures x * p + ra < y * p + rb <==> x < y || (x == y && ra < rb)
    ensures x * p + ra == y * p + rb <==> x == y && ra == rb
  {
    if x < y {
      MulMono(x + 1, y, p);
    } else if y < x {
      MulMono(y + 1, x, p);
    }
  }

  lemma MulMono(x: nat, y: nat, p: nat)
    requires x <= y
    ensures x * p <= y * p
  {
  }

  /** Comparing two texts that agree in length up to a point is decided by
      the first pieces unless those are equal. */
  lemma {:induction false} LexLessConcat(x: string, y: string, x': string, y': string)
    requires |x| == |x'|
    ensures LexLess(x + y, x' + y') == if x == x' then LexLess(y, y') else LexLess(x, x')
    decreases |x|
  {
    if x != [] {
      assert (x + y)[1..] == x[1..] + y;
      assert (x' + y')[1..] == x'[1..] + y';
      LexLessConcat(x[1..], y, x'[1..], y');
      if x[0] == x'[0] && x[1..] == x'[1..] {
        assert x == x';
      }
    } else {
      assert x + y == y && x' + y' == y';
    }
  }

  lemma LexLessDash(x: string, y: string)
    ensures LexLess("-" + x, "-" + y) == LexLess(x, y)
  {
    assert ("-" + x)[1..] == x && ("-" + y)[1..] == y;
  }

  lemma LexLessDashFields(m: string, d: string, m': string, d': string)
    requires |m| == |m'|
    ensures LexLess("-" + m + "-" + d, "-" + m' + "-" + d') ==
      if m != m' then LexLess(m, m') else LexLess(d, d')
  {
    assert "-" + m + "-" + d == "-" + (m + ("-" + d));
    assert "-" + m' + "-" + d' == "-" + (m' + ("-" + d'));
    LexLessDash(m + ("-" + d), m' + ("-" + d'));
    LexLessConcat(m, "-" + d, m', "-" + d');
    LexLessDash(d, d');
  }

  /** ISO days compare as strings field by field: year, then month, then day. */
  lemma IsoDayLexFields(a: string, b: string)
    requires IsIsoDay(a) && IsIsoDay(b)
    ensures LexLess(a, b) ==
      if a[..4] != b[..4] then LexLess(a[..4], b[..4])
      else if a[5..7] != b[5..7] then LexLess(a[5..7], b[5..7])
      else LexLess(a[8..], b[8..])
  {
    IsoDayParts(a);
    IsoDayParts(b);
    var ra, rb := "-" + a[5..7] + "-" + a[8..], "-" + b[5..7] + "-" + b[8..];
    assert a == a[..4] + ra && b == b[..4] + rb;
    LexLessConcat(a[..4], ra, b[..4], rb);
    LexLessDashFields(a[5..7], a[8..], b[5..7], b[8..]);
  }

  /** The string comparison of ISO days is their chronological order. */
  lemma IsoDayOrder(a: string, b: string)
    requires IsIsoDay(a) && IsIsoDay(b)
    ensures LexLess(a, b) <==> DayKey(a) < DayKey(b)
  {
    IsoDayParts(a);
    IsoDayParts(b);
    IsoDayLexFields(a, b);
    DigitsLexOrder(a[..4], b[..4]);
    DigitsLexOrder(a[5..7], b[5..7]);
    DigitsLexOrder(a[8..], b[8..]);
    DecimalValueBound(a[5..7]);
    DecimalValueBound(b[5..7]);
    DecimalValueBound(a[8..]);
    DecimalValueBound(b[8..]);
    assert Pow10(2) == 100;
  }

  /** Two ISO days with the same value are the same text. */
  lemma DayKeyInjective(a: string, b: string)
    requires IsIsoDay(a) && IsIsoDay(b) && DayKey(a) == DayKey(b)
    ensures a == b
  {
    IsoDayOrder(a, b);
    IsoDayOrder(b, a);
    LexLessTotal(a, b);
  }

  /** Between ISO days, `DayBefore` is the order of their values: strict on
      UTC and east of it, and including the day itself west of UTC. */
  lemma DayBeforeByKey(day: string, today: string, westOfUtc: bool)
    requires IsIsoDay(day) && IsIsoDay(today)
    ensures DayBefore(day, today, westOfUtc) <==>
      if westOfUtc then DayKey(day) <= DayKey(today) else DayKey(day) < DayKey(today)
  {
    IsoDayOrder(day, today);
    if DayKey(day) == DayKey(today) {
      DayKeyInjective(day, today);
    }
  }

  /** With today's day supplied, a date in a fixed layout that names a real
      day is in the past exactly when its day comes before today's, or west
      of UTC when it is today's. */
  lemma IsDateInPastByDay(t: string, today: string, westOfUtc: bool, parse: string -> Option<string>)
    requires IsFixedLayout(t) && IsIsoDay(today)
    requires var n := Normalize(Some(t), parse).value; parse(n) == Some(n)
    ensures var n := Normalize(Some(t), parse).value;
      && IsIsoDay(n)
      && (IsDateInPast(Some(t), today, westOfUtc, parse) <==>
            if westOfUtc then DayKey(n) <= DayKey(today) else DayKey(n) < DayKey(today))
  {
    NormalizeFixedIso(t, parse);
    DayBeforeByKey(Normalize(Some(t), parse).value, today, westOfUtc);
  }

  /** An argument that does not name a real day is never in the past, and
      today itself is in the past exactly west of UTC. */
  lemma IsDateInPastStrict(input: Option<string>, today: string, westOfUtc: bool, parse: string -> Option<string>)
    ensures input.Some? && input.value != "" && parse(Normalize(input, parse).value) == None ==>
      !IsDateInPast(input, today, westOfUtc, parse)
    ensures IsIsoDay(today) && parse(today) == Some(today) ==>
      (IsDateInPast(Some(today), today, westOfUtc, parse) <==> westOfUtc)
  {
    LexLessIrreflexive(today);
    if IsIsoDay(today) {
      NormalizeIso(today, parse);
    }
  }

  /** A missing argument stands for the epoch, so it is in the past on any
      later day, and west of UTC on the epoch day itself. */
  lemma IsDateInPastMissing(today: string, westOfUtc: bool, parse: string -> Option<string>)
    requires IsIsoDay(today)
    ensures IsDateInPast(None, today, westOfUtc, parse) <==>
      if westOfUtc then 19700101 <= DayKey(today) else 19700101 < DayKey(today)
  {
    assert IsIsoDay(EpochDay);
    DayBeforeByKey(EpochDay, today, westOfUtc);
    EpochKey();
  }

  lemma EpochKey()
    ensures IsIsoDay(EpochDay) && DayKey(EpochDay) == 19700101
  {
    assert IsIsoDay(EpochDay);
    DecimalValueTwo('0', '1');
    assert EpochDay[5..7] == "01" && EpochDay[8..] == "01";
    assert EpochDay[..4] == "19" + "70";
    DecimalValueTwo('1', '9');
    DecimalValueTwo('7', '0');
    DecimalValueAppend("19", "70");
    assert Pow10(2) == 100;
  }
}
