/**
 * Timestamp resolution for a source photo: the EXIF date-time fields are
 * tried in a fixed order and parsed with the `%Y:%m:%d %H:%M:%S` format of
 * `datetime.strptime`; failing that, the file's modification time in UTC is
 * used; failing that, the timestamp is unknown.
 */
module Timestamps {
  import opened Wrappers
  import opened Decimal
  import Utf8
  import Seqs

  /** A calendar date and time of day, as Python's `datetime` holds it. */
  datatype DateTime = DateTime(year: int, month: int, day: int, hour: int, minute: int, second: int)

  predicate IsLeapYear(y: int) {
    y % 4 == 0 && (y % 100 != 0 || y % 400 == 0)
  }

  function DaysInMonth(y: int, m: int): int
    requires 1 <= m <= 12
  {
    if m == 2 then (if IsLeapYear(y) then 29 else 28)
    else if m == 4 || m == 6 || m == 9 || m == 11 then 30
    else 31
  }

  /** The values `datetime` accepts (MINYEAR 1, MAXYEAR 9999, seconds 0..59). */
  predicate ValidDateTime(d: DateTime) {
    1 <= d.year <= 9999 && 1 <= d.month <= 12 && 1 <= d.day <= DaysInMonth(d.year, d.month)
    && 0 <= d.hour <= 23 && 0 <= d.minute <= 59 && 0 <= d.second <= 59
  }

  /** A calendar time `datetime.fromtimestamp(..., tz=timezone.utc)` can produce. */
  type UtcTime = d: DateTime | ValidDateTime(d) witness DateTime(1970, 1, 1, 0, 0, 0)

  /**
   * The fixed-width rendering shared by the ISO and the EXIF forms:
   * `YYYY` `dateSep` `MM` `dateSep` `DD` `midSep` `HH:MM:SS`.
   */
  function DateTimeText(d: DateTime, dateSep: char, midSep: char): string
    requires ValidDateTime(d)
  {
    Pad4(d.year) + ([dateSep] + (Pad2(d.month) + ([dateSep] + (Pad2(d.day) + ([midSep]
      + (Pad2(d.hour) + (":" + (Pad2(d.minute) + (":" + Pad2(d.second))))))))))
  }

  /** `isoformat(timespec="seconds")` of a naive datetime: `YYYY-MM-DDTHH:MM:SS`. */
  function IsoFormat(d: DateTime): string
    requires ValidDateTime(d)
  {
    DateTimeText(d, '-', 'T')
  }

  /** The form cameras write into the EXIF date-time fields: `YYYY:MM:DD HH:MM:SS`. */
  function ExifText(d: DateTime): string
    requires ValidDateTime(d)
  {
    DateTimeText(d, ':', ' ')
  }

  // ---------------------------------------------------------------------
  // The strptime grammar
  // ---------------------------------------------------------------------

  /**
   * The characters Python's regular expressions match with `\s` in a text
   * pattern (the same set `str.isspace` accepts).
   */
  predicate IsSpace(c: char) {
    var n := c as int;
    (0x09 <= n <= 0x0D) || (0x1C <= n <= 0x20) || n == 0x85 || n == 0xA0 || n == 0x1680
    || (0x2000 <= n <= 0x200A) || n == 0x2028 || n == 0x2029 || n == 0x202F || n == 0x205F
    || n == 0x3000
  }

  /** A number read from the head of a string, and what follows it. */
  datatype Field = Field(value: nat, rest: string)

  function LeadingDigits(s: string): (n: nat)
    ensures n <= |s| && AllDigits(s[..n])
    ensures n < |s| ==> !IsDigit(s[n])
  {
    if s == [] || !IsDigit(s[0]) then 0
    else
      var n := 1 + LeadingDigits(s[1..]);
      assert s[..n] == [s[0]] + s[1..][..n - 1];
      n
  }

  function LeadingSpaces(s: string): (n: nat)
    ensures n <= |s|
    ensures forall i :: 0 <= i < n ==> IsSpace(s[i])
    ensures n < |s| ==> !IsSpace(s[n])
  {
    if s == [] || !IsSpace(s[0]) then 0 else 1 + LeadingSpaces(s[1..])
  }

  /**
   * A numeric directive: the whole run of digits at the head of `s`, which
   * must be between `minLen` and `maxLen` digits long (a longer run makes the
   * pattern fail, since the next directive cannot start with a digit).
   */
  function Number(s: string, minLen: nat, maxLen: nat): Option<Field> {
    var n := LeadingDigits(s);
    if minLen <= n <= maxLen then Some(Field(DigitsValue(s[..n]), s[n..])) else None
  }

  function Literal(s: string, c: char): Option<string> {
    if |s| > 0 && s[0] == c then Some(s[1..]) else None
  }

  /** The `\s+` that strptime puts in place of the format's space. */
  function Spaces(s: string): Option<string> {
    var n := LeadingSpaces(s);
    if n >= 1 then Some(s[n..]) else None
  }

  /** `%d` also accepts a space followed by a single non-zero digit. */
  function DayNumber(s: string): Option<Field> {
    if |s| >= 2 && s[0] == ' ' && '1' <= s[1] <= '9' then
      Some(Field(s[1] as int - '0' as int, s[2..]))
    else Number(s, 1, 2)
  }

  /**
   * One directive of a `strptime` format, as the regular expression it
   * compiles to reads it: a run of digits of bounded length, `%d` (which also
   * takes a space before a single digit), a literal character, or the `\s+`
   * a space in the format stands for.
   */
  datatype Directive = Digits(minLen: nat, maxLen: nat) | DayOfMonth | Char(c: char) | Whitespace

  /** `%Y:%m:%d %H:%M:%S` */
  const ExifFormat: seq<Directive> := [
    Digits(4, 4), Char(':'), Digits(1, 2), Char(':'), DayOfMonth,
    Whitespace,
    Digits(1, 2), Char(':'), Digits(1, 2), Char(':'), Digits(1, 2)]

  /**
   * Matches all of `s` against the directives of `format` from position `i`
   * on, giving the numbers its numeric directives read, in order; `None`
   * when the text does not match in full.
   */
  function Match(format: seq<Directive>, i: nat, s: string): Option<seq<nat>>
    requires i <= |format|
    decreases |format| - i
  {
    if i == |format| then (if s == [] then Some([]) else None)
    else
      match format[i]
      case Digits(minLen, maxLen) =>
        var f :- Number(s, minLen, maxLen);
        var vs :- Match(format, i + 1, f.rest);
        Some([f.value] + vs)
      case DayOfMonth =>
        var f :- DayNumber(s);
        var vs :- Match(format, i + 1, f.rest);
        Some([f.value] + vs)
      case Char(c) =>
        var t :- Literal(s, c);
        Match(format, i + 1, t)
      case Whitespace =>
        var t :- Spaces(s);
        Match(format, i + 1, t)
  }

  /**
   * `datetime.strptime(s, "%Y:%m:%d %H:%M:%S")`, `None` where it raises
   * `ValueError`: four-digit year, one- or two-digit month, day, hour, minute
   * and second, any run of whitespace between date and time, nothing after the
   * seconds, and a date and time `datetime` accepts.
   */
  function ParseExifDateTime(s: string): (r: Option<DateTime>)
    ensures r.Some? ==> ValidDateTime(r.value)
  {
    var vs :- Match(ExifFormat, 0, s);
    if |vs| == 6 && ValidDateTime(DateTime(vs[0], vs[1], vs[2], vs[3], vs[4], vs[5]))
    then Some(DateTime(vs[0], vs[1], vs[2], vs[3], vs[4], vs[5]))
    else None
  }

  lemma {:induction false} NumberOfDigits(digits: string, rest: string, minLen: nat, maxLen: nat)
    requires AllDigits(digits) && minLen <= |digits| <= maxLen
    requires rest == [] || !IsDigit(rest[0])
    ensures Number(digits + rest, minLen, maxLen) == Some(Field(DigitsValue(digits), rest))
  {
    var s := digits + rest;
    assert s[..|digits|] == digits;
    LeadingDigitsExact(s, |digits|);
    assert s[|digits|..] == rest;
  }

  /** A run of `m` digits followed by a non-digit (or the end) is exactly what `LeadingDigits` counts. */
  lemma {:induction false} LeadingDigitsExact(s: string, m: nat)
    requires m <= |s| && AllDigits(s[..m])
    requires m < |s| ==> !IsDigit(s[m])
    ensures LeadingDigits(s) == m
  {
    if m > 0 {
      assert IsDigit(s[..m][0]);
      assert s[1..][..m - 1] == s[..m][1..];
      LeadingDigitsExact(s[1..], m - 1);
    }
  }

  /** A numeric directive consumes exactly a maximal run of digits of allowed length. */
  lemma {:induction false} MatchDigits(format: seq<Directive>, i: nat, digits: string, rest: string, vs: seq<nat>)
    requires i < |format| && format[i].Digits?
    requires AllDigits(digits) && format[i].minLen <= |digits| <= format[i].maxLen
    requires rest == [] || !IsDigit(rest[0])
    requires Match(format, i + 1, rest) == Some(vs)
    ensures Match(format, i, digits + rest) == Some([DigitsValue(digits)] + vs)
  {
    NumberOfDigits(digits, rest, format[i].minLen, format[i].maxLen);
  }

  /** `%d` on two digits reads them as a number. */
  lemma {:induction false} MatchDay(format: seq<Directive>, i: nat, digits: string, rest: string, vs: seq<nat>)
    requires i < |format| && format[i] == DayOfMonth
    requires AllDigits(digits) && |digits| == 2
    requires rest == [] || !IsDigit(rest[0])
    requires Match(format, i + 1, rest) == Some(vs)
    ensures Match(format, i, digits + rest) == Some([DigitsValue(digits)] + vs)
  {
    assert (digits + rest)[0] == digits[0];
    NumberOfDigits(digits, rest, 1, 2);
  }

  lemma {:induction false} MatchChar(format: seq<Directive>, i: nat, c: char, rest: string, vs: seq<nat>)
    requires i < |format| && format[i] == Char(c)
    requires Match(format, i + 1, rest) == Some(vs)
    ensures Match(format, i, [c] + rest) == Some(vs)
  {
    assert ([c] + rest)[1..] == rest;
  }

  /** A single space before a digit is a whole `\s+` run. */
  lemma {:induction false} MatchSpace(format: seq<Directive>, i: nat, rest: string, vs: seq<nat>)
    requires i < |format| && format[i] == Whitespace
    requires rest != [] && IsDigit(rest[0])
    requires Match(format, i + 1, rest) == Some(vs)
    ensures Match(format, i, " " + rest) == Some(vs)
  {
    var s := " " + rest;
    assert s[1..] == rest && s[1] == rest[0];
    assert LeadingSpaces(s) == 1;
  }

  /** A numeric directive, of either kind, that reads all of `digits`. */
  predicate ReadsAll(dir: Directive, digits: string) {
    AllDigits(digits)
    && match dir
       case Digits(minLen, maxLen) => minLen <= |digits| <= maxLen
       case DayOfMonth => |digits| == 2
       case _ => false
  }

  /** A `:` then a number: the pair of directives reads the number's value. */
  lemma {:induction false} MatchColonNumber(format: seq<Directive>, i: nat, digits: string, rest: string, vs: seq<nat>)
    requires i + 1 < |format| && format[i] == Char(':') && ReadsAll(format[i + 1], digits)
    requires rest == [] || !IsDigit(rest[0])
    requires Match(format, i + 2, rest) == Some(vs)
    ensures Match(format, i, ":" + (digits + rest)) == Some([DigitsValue(digits)] + vs)
  {
    if format[i + 1] == DayOfMonth {
      MatchDay(format, i + 1, digits, rest, vs);
    } else {
      MatchDigits(format, i + 1, digits, rest, vs);
    }
    MatchChar(format, i, ':', digits + rest, [DigitsValue(digits)] + vs);
  }

  /** The time half of the format reads back one- or two-digit hour, minute and second. */
  lemma {:induction false} MatchTimeText(f: seq<Directive>, hs: string, ms: string, ss: string)
    requires |f| == 11 && f[6] == f[8] == f[10] == Digits(1, 2) && f[7] == f[9] == Char(':')
    requires AllDigits(hs) && AllDigits(ms) && AllDigits(ss)
    requires 1 <= |hs| <= 2 && 1 <= |ms| <= 2 && 1 <= |ss| <= 2
    ensures Match(f, 6, hs + (":" + (ms + (":" + ss))))
      == Some([DigitsValue(hs), DigitsValue(ms), DigitsValue(ss)])
  {
    var v3 := [DigitsValue(ss)];
    var v1 := [DigitsValue(ms)] + v3;
    Seqs.AppendEmpty(ss);
    Seqs.AppendEmpty(v3);
    MatchColonNumber(f, 9, ss, [], []);
    MatchColonNumber(f, 7, ms, ":" + ss, v3);
    MatchDigits(f, 6, hs, ":" + (ms + (":" + ss)), v1);
    Regroup(DigitsValue(hs), DigitsValue(ms), DigitsValue(ss), []);
    Seqs.AppendEmpty([DigitsValue(hs), DigitsValue(ms), DigitsValue(ss)]);
  }

  lemma {:induction false} Regroup(a: nat, b: nat, c: nat, vs: seq<nat>)
    ensures [a] + ([b] + ([c] + vs)) == [a, b, c] + vs
  {
    var l, r := [a] + ([b] + ([c] + vs)), [a, b, c] + vs;
    forall i | 0 <= i < |r| ensures l[i] == r[i] {
      if i >= 3 {
        assert l[i] == vs[i - 3];
      }
    }
  }

  lemma {:induction false} Concat3(a: nat, b: nat, c: nat, x: nat, y: nat, z: nat)
    ensures [a, b, c] + [x, y, z] == [a, b, c, x, y, z]
  {
  }

  /** The date half of the format reads back a four-digit year and two-digit month and day. */
  lemma {:induction false} MatchDateText(f: seq<Directive>, ys: string, ms: string, ds: string, rest: string, vs: seq<nat>)
    requires |f| > 5 && f[0] == Digits(4, 4) && f[1] == f[3] == Char(':') && f[2] == Digits(1, 2)
    requires f[4] == DayOfMonth
    requires AllDigits(ys) && AllDigits(ms) && AllDigits(ds)
    requires |ys| == 4 && |ms| == 2 && |ds| == 2
    requires rest != [] && !IsDigit(rest[0])
    requires Match(f, 5, rest) == Some(vs)
    ensures Match(f, 0, ys + (":" + (ms + (":" + (ds + rest)))))
      == Some([DigitsValue(ys), DigitsValue(ms), DigitsValue(ds)] + vs)
  {
    var v2 := [DigitsValue(ms)] + ([DigitsValue(ds)] + vs);
    MatchMonthDay(f, ms, ds, rest, vs);
    MatchDigits(f, 0, ys, ":" + (ms + (":" + (ds + rest))), v2);
    Regroup(DigitsValue(ys), DigitsValue(ms), DigitsValue(ds), vs);
  }

  /** The `:%m:%d` part of the date reads back the two-digit month and day. */
  lemma {:induction false} MatchMonthDay(f: seq<Directive>, ms: string, ds: string, rest: string, vs: seq<nat>)
    requires |f| > 5 && f[1] == f[3] == Char(':') && f[2] == Digits(1, 2) && f[4] == DayOfMonth
    requires AllDigits(ms) && AllDigits(ds) && |ms| == 2 && |ds| == 2
    requires rest != [] && !IsDigit(rest[0])
    requires Match(f, 5, rest) == Some(vs)
    ensures Match(f, 1, ":" + (ms + (":" + (ds + rest)))) == Some([DigitsValue(ms)] + ([DigitsValue(ds)] + vs))
  {
    MatchColonNumber(f, 3, ds, rest, vs);
    MatchColonNumber(f, 1, ms, ":" + (ds + rest), [DigitsValue(ds)] + vs);
  }

  /** The date half, the space and the time half read back all six numbers. */
  lemma {:induction false} MatchExifText(f: seq<Directive>, d: DateTime)
    requires |f| == 11 && f[0] == Digits(4, 4) && f[1] == f[3] == f[7] == f[9] == Char(':')
    requires f[2] == f[6] == f[8] == f[10] == Digits(1, 2) && f[4] == DayOfMonth && f[5] == Whitespace
    requires ValidDateTime(d)
    ensures Match(f, 0, ExifText(d)) == Some([d.year as nat, d.month, d.day, d.hour, d.minute, d.second])
  {
    var time := Pad2(d.hour) + (":" + (Pad2(d.minute) + (":" + Pad2(d.second))));
    var hs, mis, ss := Pad2(d.hour), Pad2(d.minute), Pad2(d.second);
    var ys, ms, ds := Pad4(d.year), Pad2(d.month), Pad2(d.day);
    assert DigitsValue(hs) == d.hour && DigitsValue(mis) == d.minute && DigitsValue(ss) == d.second;
    assert DigitsValue(ys) == d.year && DigitsValue(ms) == d.month && DigitsValue(ds) == d.day;
    var v: seq<nat> := [d.hour, d.minute, d.second];
    MatchTimeText(f, hs, mis, ss);
    assert Match(f, 6, time) == Some(v);
    MatchSpace(f, 5, time, v);
    MatchDateText(f, ys, ms, ds, " " + time, v);
    assert ExifText(d) == ys + (":" + (ms + (":" + (ds + (" " + time)))));
    Concat3(d.year, d.month, d.day, d.hour, d.minute, d.second);
  }

  /** Parsing what a camera writes gives back the date and time it encodes. */
  lemma {:induction false} ParseExifText(d: DateTime)
    requires ValidDateTime(d)
    ensures ParseExifDateTime(ExifText(d)) == Some(d)
  {
    MatchExifText(ExifFormat, d);
  }

  /** Where each part sits in the fixed-width rendering. */
  lemma {:induction false} Layout(y: string, m: string, dd: string, a: char, b: char, c: char, time: string)
    requires |y| == 4 && |m| == 2 && |dd| == 2
    ensures var x := y + ([a] + (m + ([b] + (dd + ([c] + time)))));
      |x| == 11 + |time| && x[4] == a && x[7] == b && x[10] == c
      && (forall k :: 0 <= k < 4 ==> x[k] == y[k])
      && x[5] == m[0] && x[6] == m[1] && x[8] == dd[0] && x[9] == dd[1]
      && (forall k :: 11 <= k < |x| ==> x[k] == time[k - 11])
  {
  }

  /**
   * The ISO text is 19 characters long and differs from the EXIF text only
   * in its separators: `-` instead of `:` in the date and `T` instead of the
   * space.
   */
  lemma {:induction false} IsoReplacesSeparators(d: DateTime)
    requires ValidDateTime(d)
    ensures var e, i := ExifText(d), IsoFormat(d);
      |i| == |e| == 19
      && i[4] == '-' && i[7] == '-' && i[10] == 'T' && e[4] == ':' && e[7] == ':' && e[10] == ' '
      && forall k :: 0 <= k < 19 && k != 4 && k != 7 && k != 10 ==> i[k] == e[k]
  {
    var y, m, dd := Pad4(d.year), Pad2(d.month), Pad2(d.day);
    var time := Pad2(d.hour) + (":" + (Pad2(d.minute) + (":" + Pad2(d.second))));
    Layout(y, m, dd, '-', '-', 'T', time);
    Layout(y, m, dd, ':', ':', ' ', time);
  }

  // ---------------------------------------------------------------------
  // The EXIF scan
  // ---------------------------------------------------------------------

  /** What a PIL EXIF dictionary may hold under a date-time tag. */
  datatype ExifValue =
    | Text(text: string)
    | Raw(bytes: seq<Utf8.byte>)
    /** Any other Python value; `truthy` is its truth value. */
    | NonText(truthy: bool)

  /** The keys tried, in order. */
  const DateTimeKeys: seq<string> := ["DateTimeOriginal", "DateTimeDigitized", "DateTime"]

  /** What one key contributes to the scan. */
  datatype KeyOutcome = Skip | Parsed(d: DateTime) | RaisesTypeError

  /**
   * The text a value offers `strptime`: `None` for a falsy value (empty text
   * or bytes) and for bytes that are not valid UTF-8, both of which are
   * skipped. Only meaningful for `Text` and `Raw`.
   */
  function ValueText(v: ExifValue): Option<string> {
    match v
    case Text(t) => if t == [] then None else Some(t)
    case Raw(b) => if b == [] then None else Utf8.Decode(b)
    case NonText(_) => None
  }

  /**
   * One iteration of the scan: a missing or falsy value, undecodable bytes or
   * text that does not parse are skipped; a truthy value that is neither text
   * nor bytes reaches `strptime`, which raises `TypeError`, an exception the
   * `except ValueError` does not catch.
   */
  function TryKey(exif: map<string, ExifValue>, key: string): (r: KeyOutcome)
    ensures r.Parsed? ==> ValidDateTime(r.d)
  {
    if key !in exif then Skip
    else if exif[key].NonText? then (if exif[key].truthy then RaisesTypeError else Skip)
    else
      match ValueText(exif[key])
      case None => Skip
      case Some(t) => (match ParseExifDateTime(t) case Some(d) => Parsed(d) case None => Skip)
  }

  /**
   * When a key raises, gives a date, or is skipped: it raises exactly for a
   * truthy value that is neither text nor bytes; it gives a date exactly when
   * it is present with non-empty text, or non-empty valid UTF-8 bytes, that
   * parse, the date being the parse result; every other key is skipped.
   */
  lemma {:induction false} TryKeyOutcome(exif: map<string, ExifValue>, key: string)
    ensures var r := TryKey(exif, key);
      (r.RaisesTypeError? <==> key in exif && exif[key].NonText? && exif[key].truthy)
      && (r.Parsed? <==>
            key in exif && ValueText(exif[key]).Some? && ParseExifDateTime(ValueText(exif[key]).value).Some?)
      && (r.Parsed? ==> ParseExifDateTime(ValueText(exif[key]).value) == Some(r.d))
  {
  }

  /** The result of `_read_exif_timestamp`, with the escaping exception made explicit. */
  datatype ExifLookup = Found(iso: string) | NotFound | Raised

  /** What each key contributes, in scan order. */
  function Outcomes(exif: map<string, ExifValue>, keys: seq<string>): (r: seq<KeyOutcome>)
    ensures |r| == |keys| && forall i :: 0 <= i < |keys| ==> r[i] == TryKey(exif, keys[i])
  {
    if keys == [] then [] else [TryKey(exif, keys[0])] + Outcomes(exif, keys[1..])
  }

  /** The loop's decision: the first outcome that is not a skip. */
  function FirstDecisive(outcomes: seq<KeyOutcome>): ExifLookup
    requires forall i :: 0 <= i < |outcomes| && outcomes[i].Parsed? ==> ValidDateTime(outcomes[i].d)
  {
    if outcomes == [] then NotFound
    else
      match outcomes[0]
      case Skip => FirstDecisive(outcomes[1..])
      case Parsed(d) => Found(IsoFormat(d))
      case RaisesTypeError => Raised
  }

  /** `exif` is `None` when the image cannot be opened or its EXIF cannot be read. */
  function ExifTimestamp(exif: Option<map<string, ExifValue>>): ExifLookup {
    match exif
    case None => NotFound
    case Some(m) => FirstDecisive(Outcomes(m, DateTimeKeys))
  }

  /**
   * The scan stops at the first key that does not skip: the result is that
   * key's ISO text or exception, and it is "not found" when every key skips.
   */
  lemma {:induction false} FirstDecisiveAt(outcomes: seq<KeyOutcome>, k: nat)
    requires forall i :: 0 <= i < |outcomes| && outcomes[i].Parsed? ==> ValidDateTime(outcomes[i].d)
    requires k <= |outcomes|
    requires forall j :: 0 <= j < k ==> outcomes[j].Skip?
    requires k < |outcomes| ==> !outcomes[k].Skip?
    ensures k == |outcomes| ==> FirstDecisive(outcomes) == NotFound
    ensures k < |outcomes| && outcomes[k].Parsed? ==> FirstDecisive(outcomes) == Found(IsoFormat(outcomes[k].d))
    ensures k < |outcomes| && outcomes[k].RaisesTypeError? ==> FirstDecisive(outcomes) == Raised
  {
    if k > 0 {
      assert outcomes[0].Skip?;
      FirstDecisiveAt(outcomes[1..], k - 1);
    }
  }

  /**
   * A date written the way cameras write it, as text or as UTF-8 bytes,
   * under the first key that does not skip, is the one the scan returns, in
   * ISO form.
   */
  lemma {:induction false} FoundAtKey(m: map<string, ExifValue>, k: nat, d: DateTime)
    requires k < |DateTimeKeys| && ValidDateTime(d)
    requires forall j :: 0 <= j < k ==> TryKey(m, DateTimeKeys[j]).Skip?
    requires DateTimeKeys[k] in m
    requires m[DateTimeKeys[k]] == Text(ExifText(d)) || m[DateTimeKeys[k]] == Raw(Utf8.Encode(ExifText(d)))
    ensures ExifTimestamp(Some(m)) == Found(IsoFormat(d))
  {
    var text := ExifText(d);
    ParseExifText(d);
    Utf8.DecodeEncode(text);
    assert text != [] by {
      assert |Pad4(d.year)| == 4;
    }
    assert Utf8.Encode(text) != [] by {
      assert |Utf8.EncodeChar(text[0])| >= 1;
    }
    TryKeyOutcome(m, DateTimeKeys[k]);
    var outcomes := Outcomes(m, DateTimeKeys);
    assert outcomes[k] == Parsed(d);
    FirstDecisiveAt(outcomes, k);
  }

  /** `_read_exif_timestamp`: the loop over the keys with `continue` and early return. */
  method ReadExifTimestamp(exif: Option<map<string, ExifValue>>) returns (r: ExifLookup)
    ensures r == ExifTimestamp(exif)
  {
    if exif.None? {
      return NotFound;
    }
    var m := exif.value;
    ghost var outcomes := Outcomes(m, DateTimeKeys);
    var i := 0;
    while i < |DateTimeKeys|
      invariant 0 <= i <= |DateTimeKeys|
      invariant ExifTimestamp(exif) == FirstDecisive(outcomes[i..])
    {
      var outcome := TryKey(m, DateTimeKeys[i]);
      assert outcomes[i..][0] == outcome && outcomes[i..][1..] == outcomes[i + 1..];
      if outcome.Parsed? {
        return Found(IsoFormat(outcome.d));
      } else if outcome.RaisesTypeError? {
        return Raised;
      }
      i := i + 1;
    }
    return NotFound;
  }

  // ---------------------------------------------------------------------
  // The three-way fallback
  // ---------------------------------------------------------------------

  datatype TimestampSource = Exif | FileModified | Unknown

  datatype Stamp = Stamp(takenAt: Option<string>, source: TimestampSource)

  /**
   * `_determine_photo_timestamp`. `mtime` is the modification time already
   * converted to a UTC calendar time, `None` when `getmtime` or the conversion
   * raises. The result is `None` exactly when the EXIF scan raises, since that
   * exception is not caught here.
   */
  function DetermineTimestamp(exif: Option<map<string, ExifValue>>, mtime: Option<UtcTime>): Option<Stamp> {
    match ExifTimestamp(exif)
    case Raised => None
    case Found(iso) => Some(Stamp(Some(iso), Exif))
    case NotFound =>
      match mtime
      case Some(t) => Some(Stamp(Some(IsoFormat(t) + "+00:00"), FileModified))
      case None => Some(Stamp(None, Unknown))
  }

  /**
   * Which source a resolved timestamp comes from, and what it holds: EXIF
   * exactly when the scan finds a value, the modification time in UTC
   * otherwise, and no time at all only when there is no modification time.
   */
  lemma {:induction false} StampSources(exif: Option<map<string, ExifValue>>, mtime: Option<UtcTime>)
    ensures var r := DetermineTimestamp(exif, mtime);
      (r.None? <==> ExifTimestamp(exif).Raised?)
      && (r.Some? ==> (r.value.source == Exif <==> ExifTimestamp(exif).Found?))
      && (r.Some? ==> (r.value.takenAt.None? <==> r.value.source == Unknown))
      && (r.Some? && r.value.source == Unknown ==> mtime.None?)
      && (r.Some? && r.value.source == FileModified ==>
            mtime.Some? && r.value.takenAt == Some(IsoFormat(mtime.value) + "+00:00"))
  {
  }

  /** The EXIF result wins whenever one parses, whatever the modification time. */
  lemma {:induction false} ExifWins(exif: Option<map<string, ExifValue>>, mtime: Option<UtcTime>)
    requires ExifTimestamp(exif).Found?
    ensures DetermineTimestamp(exif, mtime) == Some(Stamp(Some(ExifTimestamp(exif).iso), Exif))
  {
  }

  predicate TextOnly(exif: Option<map<string, ExifValue>>) {
    exif.Some? ==> forall k :: k in exif.value ==> !exif.value[k].NonText?
  }

  /** With only text or byte values in the EXIF data, resolution never raises. */
  lemma {:induction false} TextOnlyNeverRaises(exif: Option<map<string, ExifValue>>, mtime: Option<UtcTime>)
    requires TextOnly(exif)
    ensures DetermineTimestamp(exif, mtime).Some?
  {
    if exif.Some? {
      var outcomes := Outcomes(exif.value, DateTimeKeys);
      var k: nat := 0;
      while k < |outcomes| && outcomes[k].Skip?
        invariant k <= |outcomes|
        invariant forall j :: 0 <= j < k ==> outcomes[j].Skip?
      {
        k := k + 1;
      }
      FirstDecisiveAt(outcomes, k);
    }
  }
}
