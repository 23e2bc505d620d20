/** The two pattern extractors, run on the original-case text: the first CNJ
    process number `\b\d{7}-\d{2}\.\d{4}\.\d\.\d{2}\.\d{4}\b` and the first
    `\b\d{2}/\d{2}/\d{4}\b` date, kept only when it is a valid dd/MM/yyyy
    calendar date. A fixed-length pattern of digits and punctuation is written
    as a layout string in which 'd' stands for one digit and every other
    character for itself. */
module Extractors {

  import opened Options

  /** A decimal digit (`\d`). */
  predicate IsDigit(c: char)
  {
    '0' <= c <= '9'
  }

  /** A character the regular-expression `\b` treats as part of a word: the
      letters of Basic Latin, Latin-1 and the Latin Extended-A/B blocks, the
      ASCII decimal digits, every connector punctuation character (`_`,
      U+203F, U+2040, U+2054, U+FE33, U+FE34, U+FE4D..U+FE4F, U+FF3F), the
      combining diacritical marks, and the two zero-width joiners. */
  predicate IsWordChar(c: char)
  {
    || 'a' <= c <= 'z' || 'A' <= c <= 'Z' || IsDigit(c)
    || c == '\U{00AA}' || c == '\U{00B5}' || c == '\U{00BA}'
    || ('\U{00C0}' <= c <= '\U{024F}' && c != '\U{00D7}' && c != '\U{00F7}')
    || '\U{0300}' <= c <= '\U{036F}'
    || c == '\U{200C}' || c == '\U{200D}'
    || IsConnector(c)
  }

  /** Connector punctuation (Unicode category Pc), all ten characters of it. */
  predicate IsConnector(c: char)
  {
    || c == '_' || c == '\U{203F}' || c == '\U{2040}' || c == '\U{2054}'
    || c == '\U{FE33}' || c == '\U{FE34}' || '\U{FE4D}' <= c <= '\U{FE4F}' || c == '\U{FF3F}'
  }

  /** `\b` at offset `p`: exactly one of the characters around `p` is a word
      character (a text edge counts as a non-word character). */
  predicate WordBoundary(s: string, p: int)
    requires 0 <= p <= |s|
  {
    (p > 0 && IsWordChar(s[p - 1])) != (p < |s| && IsWordChar(s[p]))
  }

  /** The layout of a CNJ process number. */
  const ProcessLayout: string := "ddddddd-dd.dddd.d.dd.dddd"

  /** The layout of a dd/MM/yyyy date. */
  const DateLayout: string := "dd/dd/dddd"

  /** The characters of `s` from offset `i` spell out `layout`. */
  predicate FitsLayout(s: string, layout: string, i: int)
  {
    0 <= i && i + |layout| <= |s|
    && forall j :: 0 <= j < |layout| ==> if layout[j] == 'd' then IsDigit(s[i + j]) else s[i + j] == layout[j]
  }

  /** The bounded pattern matches at offset `i`. */
  predicate MatchAt(s: string, layout: string, i: int)
  {
    FitsLayout(s, layout, i) && WordBoundary(s, i) && WordBoundary(s, i + |layout|)
  }

  /** The leftmost match at or after `from`, as the regular-expression engine's
      left-to-right scan finds it. */
  function FirstMatchFrom(s: string, layout: string, from: nat): (r: Option<nat>)
    decreases |s| + 1 - from
    ensures r.Some? ==> from <= r.value && MatchAt(s, layout, r.value)
    ensures r.Some? ==> forall i :: from <= i < r.value ==> !MatchAt(s, layout, i)
    ensures r.None? ==> forall i :: from <= i ==> !MatchAt(s, layout, i)
  {
    if from > |s| then None
    else if MatchAt(s, layout, from) then Some(from)
    else FirstMatchFrom(s, layout, from + 1)
  }

  /** The pattern matches at offset `i` and nowhere before it. */
  predicate LeftmostMatch(s: string, layout: string, i: int)
  {
    MatchAt(s, layout, i) && forall j :: 0 <= j < i ==> !MatchAt(s, layout, j)
  }

  /** For a layout that begins and ends with a digit, `\b` on both sides means
      the match is preceded and followed by a non-word character or a text
      edge. */
  lemma DigitEdgedMatch(s: string, layout: string, i: int)
    requires |layout| > 0 && layout[0] == 'd' && layout[|layout| - 1] == 'd'
    ensures MatchAt(s, layout, i) <==>
              FitsLayout(s, layout, i)
              && (i == 0 || !IsWordChar(s[i - 1]))
              && (i + |layout| == |s| || !IsWordChar(s[i + |layout|]))
  {
    if FitsLayout(s, layout, i) {
      assert IsDigit(s[i + 0]);
      assert IsDigit(s[i + |layout| - 1]);
    }
  }

  /** The process number: the text of the leftmost match, if any. */
  function ExtractProcessNumber(content: string): (r: Option<string>)
    ensures r.None? <==> forall i :: !MatchAt(content, ProcessLayout, i)
    ensures forall i :: LeftmostMatch(content, ProcessLayout, i) ==> r == Some(content[i..i + |ProcessLayout|])
  {
    match FirstMatchFrom(content, ProcessLayout, 0)
    case None => None
    case Some(i) => Some(content[i..i + |ProcessLayout|])
  }

  /** A text that is exactly a process number yields that process number. */
  lemma ProcessNumberRoundTrip(p: string)
    requires |p| == |ProcessLayout| && FitsLayout(p, ProcessLayout, 0)
    ensures ExtractProcessNumber(p) == Some(p)
  {
    DigitEdgedMatch(p, ProcessLayout, 0);
    assert MatchAt(p, ProcessLayout, 0);
    assert p[0..|ProcessLayout|] == p;
  }

  /** A process number surrounded by non-word characters is found, unless an
      earlier one is. */
  lemma ProcessNumberInContext(prefix: string, p: string, suffix: string)
    requires |p| == |ProcessLayout| && FitsLayout(p, ProcessLayout, 0)
    requires |prefix| == 0 || !IsWordChar(prefix[|prefix| - 1])
    requires |suffix| == 0 || !IsWordChar(suffix[0])
    requires forall i :: !MatchAt(prefix + p + suffix, ProcessLayout, i) || i >= |prefix|
    ensures ExtractProcessNumber(prefix + p + suffix) == Some(p)
  {
    var s := prefix + p + suffix;
    var n := |prefix|;
    assert s[n..n + |p|] == p;
    assert FitsLayout(s, ProcessLayout, n) by {
      forall j | 0 <= j < |ProcessLayout| ensures s[n + j] == p[j] {
      }
    }
    DigitEdgedMatch(s, ProcessLayout, n);
    if n > 0 {
      assert s[n - 1] == prefix[n - 1];
    }
    if |suffix| > 0 {
      assert s[n + |p|] == suffix[0];
    }
    assert MatchAt(s, ProcessLayout, n);
  }

  /** A process number cannot start at a character that is not a digit. */
  lemma NoMatchAtNonDigit(s: string, i: int)
    requires 0 <= i < |s| && !IsDigit(s[i])
    ensures !MatchAt(s, ProcessLayout, i)
  {
    assert ProcessLayout[0] == 'd';
  }

  /** The sample process number has the process-number layout. */
  lemma SampleFitsLayout()
    ensures FitsLayout("1234567-89.2024.1.02.0003", ProcessLayout, 0)
  {
  }

  /** A typical process number on its own is extracted as written. */
  lemma SampleProcessNumber()
    ensures ExtractProcessNumber("1234567-89.2024.1.02.0003") == Some("1234567-89.2024.1.02.0003")
  {
    SampleFitsLayout();
    ProcessNumberRoundTrip("1234567-89.2024.1.02.0003");
  }

  /** No process number starts inside a leading label that has no digits. */
  lemma NoMatchInLabel(lead: string, rest: string)
    requires forall i :: 0 <= i < |lead| ==> !IsDigit(lead[i])
    ensures forall i :: !MatchAt(lead + rest, ProcessLayout, i) || i >= |lead|
  {
    var s := lead + rest;
    forall i | 0 <= i < |lead|
      ensures !MatchAt(s, ProcessLayout, i)
    {
      assert s[i] == lead[i];
      NoMatchAtNonDigit(s, i);
    }
  }

  /** A typical process number after a label and before a full stop is
      extracted as written. */
  lemma SampleLabelledProcessNumber()
    ensures ExtractProcessNumber("Processo: " + "1234567-89.2024.1.02.0003" + ".") == Some("1234567-89.2024.1.02.0003")
  {
    var p := "1234567-89.2024.1.02.0003";
    var prefix := "Processo: ";
    assert prefix + p + "." == prefix + (p + ".");
    NoMatchInLabel(prefix, p + ".");
    SampleFitsLayout();
    ProcessNumberInContext(prefix, p, ".");
  }

  /** A calendar date. */
  datatype Date = Date(year: int, month: int, day: int)

  function DigitValue(c: char): nat
    requires IsDigit(c)
  {
    c as int - '0' as int
  }

  /** The digits and separators of a dd/dd/dddd window at offset `i`. */
  lemma DateShapeAt(s: string, i: nat)
    requires FitsLayout(s, DateLayout, i)
    ensures IsDigit(s[i]) && IsDigit(s[i + 1]) && s[i + 2] == '/' && IsDigit(s[i + 3]) && IsDigit(s[i + 4]) && s[i + 5] == '/'
    ensures IsDigit(s[i + 6]) && IsDigit(s[i + 7]) && IsDigit(s[i + 8]) && IsDigit(s[i + 9])
  {
    assert DateLayout[0] == 'd' && DateLayout[1] == 'd' && DateLayout[2] == '/';
    assert DateLayout[3] == 'd' && DateLayout[4] == 'd' && DateLayout[5] == '/';
    assert DateLayout[6] == 'd' && DateLayout[7] == 'd' && DateLayout[8] == 'd' && DateLayout[9] == 'd';
    assert IsDigit(s[i + 0]);
  }

  predicate IsLeapYear(y: int)
  {
    (y % 4 == 0 && y % 100 != 0) || y % 400 == 0
  }

  function DaysInMonth(y: int, m: int): nat
    requires 1 <= m <= 12
  {
    if m == 2 then (if IsLeapYear(y) then 29 else 28)
    else if m == 4 || m == 6 || m == 9 || m == 11 then 30
    else 31
  }

  /** A day of the Gregorian calendar within the years 1..9999. */
  predicate ValidDate(d: Date)
  {
    1 <= d.year <= 9999 && 1 <= d.month <= 12 && 1 <= d.day <= DaysInMonth(d.year, d.month)
  }

  /** The day, month and year fields of the dd/MM/yyyy window at offset `i`,
      read as decimal numbers. */
  function DateFieldsAt(s: string, i: nat): Date
    requires FitsLayout(s, DateLayout, i)
  {
    DateShapeAt(s, i);
    Date(1000 * DigitValue(s[i + 6]) + 100 * DigitValue(s[i + 7]) + 10 * DigitValue(s[i + 8]) + DigitValue(s[i + 9]),
         10 * DigitValue(s[i + 3]) + DigitValue(s[i + 4]),
         10 * DigitValue(s[i]) + DigitValue(s[i + 1]))
  }

  /** Parses the dd/MM/yyyy window at offset `i` into a date; nothing when its
      fields do not name a calendar day. A parsed date, formatted again, is the
      window it was read from. */
  function ParseDateAt(s: string, i: nat): (r: Option<Date>)
    requires FitsLayout(s, DateLayout, i)
    ensures r.Some? <==> ValidDate(DateFieldsAt(s, i))
    ensures r.Some? ==> ValidDate(r.value) && r.value == DateFieldsAt(s, i)
    ensures r.Some? ==> FormatDate(r.value) == s[i..i + |DateLayout|]
  {
    var d := DateFieldsAt(s, i);
    if ValidDate(d) then
      FieldsFormatBack(s, i);
      Some(d)
    else None
  }

  /** Dividing `10 * a + b` by ten, for a digit `b`, gives `a` and leaves `b`. */
  lemma TensAndUnits(a: int, b: int)
    requires 0 <= a && 0 <= b < 10
    ensures (10 * a + b) / 10 == a && (10 * a + b) % 10 == b
  {
  }

  /** A four-digit number's digits are its thousands, hundreds, tens and units. */
  lemma FourDigitsOf(g: int, h: int, k: int, l: int)
    requires 0 <= g < 10 && 0 <= h < 10 && 0 <= k < 10 && 0 <= l < 10
    ensures var y := 1000 * g + 100 * h + 10 * k + l;
            y / 1000 == g && y / 100 % 10 == h && y / 10 % 10 == k && y % 10 == l
  {
    var y := 1000 * g + 100 * h + 10 * k + l;
    var hundreds := 10 * g + h;
    var tens := 10 * hundreds + k;
    assert y == 10 * tens + l;
    TensAndUnits(tens, l);
    TensAndUnits(hundreds, k);
    TensAndUnits(g, h);
    assert y / 100 == hundreds;
    assert y / 1000 == g;
  }

  /** A digit character is the character of its value. */
  lemma DigitCharOfValue(c: char)
    requires IsDigit(c)
    ensures DigitChar(DigitValue(c)) == c
  {
  }

  /** Formatting the fields read from a window that names a calendar day
      writes the window back. */
  lemma FieldsFormatBack(s: string, i: nat)
    requires FitsLayout(s, DateLayout, i) && ValidDate(DateFieldsAt(s, i))
    ensures FormatDate(DateFieldsAt(s, i)) == s[i..i + |DateLayout|]
  {
    DateShapeAt(s, i);
    var d := DateFieldsAt(s, i);
    var w := FormatDate(d);
    TensAndUnits(DigitValue(s[i]), DigitValue(s[i + 1]));
    TensAndUnits(DigitValue(s[i + 3]), DigitValue(s[i + 4]));
    FourDigitsOf(DigitValue(s[i + 6]), DigitValue(s[i + 7]), DigitValue(s[i + 8]), DigitValue(s[i + 9]));
    forall j | 0 <= j < |DateLayout|
      ensures w[j] == s[i + j]
    {
      if j != 2 && j != 5 {
        DigitCharOfValue(s[i + j]);
      }
    }
  }

  /** The publication date: the leftmost dd/dd/dddd match, parsed; nothing when
      there is no match or when the leftmost match is not a calendar day (a
      later match is then not considered). */
  function ExtractDate(content: string): (r: Option<Date>)
    ensures (forall i :: !MatchAt(content, DateLayout, i)) ==> r.None?
    ensures forall i :: LeftmostMatch(content, DateLayout, i) ==> r == ParseDateAt(content, i)
    ensures r.Some? ==> ValidDate(r.value)
  {
    match FirstMatchFrom(content, DateLayout, 0)
    case None => None
    case Some(i) => ParseDateAt(content, i)
  }

  function DigitChar(n: nat): (c: char)
    requires n < 10
    ensures IsDigit(c) && DigitValue(c) == n
  {
    ('0' as int + n) as char
  }

  /** A date written as dd/MM/yyyy with leading zeros. */
  function FormatDate(d: Date): (w: string)
    requires ValidDate(d)
    ensures |w| == |DateLayout| && FitsLayout(w, DateLayout, 0)
  {
    [DigitChar(d.day / 10), DigitChar(d.day % 10), '/',
     DigitChar(d.month / 10), DigitChar(d.month % 10), '/',
     DigitChar(d.year / 1000), DigitChar(d.year / 100 % 10), DigitChar(d.year / 10 % 10), DigitChar(d.year % 10)]
  }

  /** A four-digit number is its thousands, hundreds, tens and units digits. */
  lemma FourDigits(y: int)
    requires 0 <= y <= 9999
    ensures 1000 * (y / 1000) + 100 * (y / 100 % 10) + 10 * (y / 10 % 10) + y % 10 == y
  {
    var tens, hundreds, thousands := y / 10, y / 100, y / 1000;
    assert tens / 10 == hundreds && hundreds / 10 == thousands;
    assert y == 10 * tens + y % 10;
    assert tens == 10 * hundreds + tens % 10;
    assert hundreds == 10 * thousands + hundreds % 10;
  }

  /** The fields read from a formatted date are the date's own fields. */
  lemma FormattedFields(d: Date)
    requires ValidDate(d)
    ensures DateFieldsAt(FormatDate(d), 0) == d
  {
    var w := FormatDate(d);
    var y := d.year;
    assert DigitValue(w[6]) == y / 1000 && DigitValue(w[7]) == y / 100 % 10;
    assert DigitValue(w[8]) == y / 10 % 10 && DigitValue(w[9]) == y % 10;
    assert DigitValue(w[3]) == d.month / 10 && DigitValue(w[4]) == d.month % 10;
    assert DigitValue(w[0]) == d.day / 10 && DigitValue(w[1]) == d.day % 10;
    FourDigits(y);
  }

  /** Parsing a formatted valid date gives the date back. */
  lemma ParseFormatRoundTrip(d: Date)
    requires ValidDate(d)
    ensures ParseDateAt(FormatDate(d), 0) == Some(d)
  {
    FormattedFields(d);
  }

  /** A text that is exactly a formatted valid date yields that date. */
  lemma DateRoundTrip(d: Date)
    requires ValidDate(d)
    ensures ExtractDate(FormatDate(d)) == Some(d)
  {
    var w := FormatDate(d);
    DigitEdgedMatch(w, DateLayout, 0);
    assert LeftmostMatch(w, DateLayout, 0);
    ParseFormatRoundTrip(d);
  }

  /** A well-formed but impossible date is matched and then discarded. */
  lemma ImpossibleDateIsAbsent()
    ensures ExtractDate("31/02/2024") == None
  {
    var s := "31/02/2024";
    DigitEdgedMatch(s, DateLayout, 0);
    assert LeftmostMatch(s, DateLayout, 0);
    assert DateFieldsAt(s, 0) == Date(2024, 2, 31);
  }
}
