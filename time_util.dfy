// Duration formatting and parsing, progress bars and elapsed-time checks
// (util/TimeUtil.java). Times are Java longs: seconds or milliseconds; the
// clock is a parameter `now`.

module TimeUtil {
  import opened JavaNum
  import opened Text
  import opened Wrappers

  // ---------------------------------------------------------------------
  // formatTime

  const SECONDS_PER_DAY: int := 86400
  const SECONDS_PER_HOUR: int := 3600
  const SECONDS_PER_MINUTE: int := 60

  /** The suffixes parseTime recognises, and the ones formatTime puts before a space. */
  const UNIT_LETTERS: set<char> := {'d', 'h', 'm', 's'}
  const FIELD_LETTERS: set<char> := {'d', 'h', 'm'}

  /** "Nd Nh Nm Ns" with zero fields left out; a non-positive input is "0s". */
  function FormatTime(seconds: int): (r: string)
    ensures seconds <= 0 ==> r == "0s"
    ensures |r| > 0 && IsDigit(r[0]) && r[|r| - 1] in UNIT_LETTERS
  {
    if seconds <= 0 then "0s"
    else
      var days := seconds / SECONDS_PER_DAY;
      var hours := (seconds % SECONDS_PER_DAY) / SECONDS_PER_HOUR;
      var minutes := (seconds % SECONDS_PER_HOUR) / SECONDS_PER_MINUTE;
      var secs := seconds % SECONDS_PER_MINUTE;
      TrimmedFields(days, hours, minutes, secs);
      Trim(JoinedFields(days, hours, minutes, secs))
  }

  /** The fields before the final trim: the seconds field is added when
      positive or when no other field was. */
  function JoinedFields(days: int, hours: int, minutes: int, secs: int): string
  {
    var sb := FieldText(days, "d ") + FieldText(hours, "h ") + FieldText(minutes, "m ");
    if secs > 0 || |sb| == 0 then sb + IntToString(secs) + "s" else sb
  }

  /** One "N<unit> " field, present only when its count is positive. */
  function FieldText(n: int, unit: string): (r: string)
    ensures n <= 0 <==> r == ""
    ensures n > 0 ==> r == IntToString(n) + unit
  {
    if n > 0 then IntToString(n) + unit else ""
  }

  /** The shape of the fields so far: empty, or a digit first and a unit
      letter and a space last. */
  predicate FieldsShape(a: string)
  {
    a == "" || (|a| >= 2 && IsDigit(a[0]) && a[|a| - 1] == ' ' && a[|a| - 2] in FIELD_LETTERS)
  }

  lemma AppendField(a: string, n: int, unit: char)
    requires FieldsShape(a) && unit in FIELD_LETTERS
    ensures FieldsShape(a + FieldText(n, [unit, ' ']))
  {
    var f := FieldText(n, [unit, ' ']);
    if n > 0 {
      var b := a + f;
      assert f[0] == IntToString(n)[0];
      assert b[|b| - 1] == ' ' && b[|b| - 2] == unit;
      if a == "" { assert b == f; } else { assert b[0] == a[0]; }
    } else {
      assert a + f == a;
    }
  }

  /** Trimming removes exactly the one trailing space after the last field. */
  lemma TrimFinalSpace(x: string)
    requires |x| > 0 && x[0] > ' ' && x[|x| - 1] > ' '
    ensures Trim(x + " ") == x
  {
    var y := x + " ";
    assert TrimStart(y) == y;
    assert y[..|y| - 1] == x;
    assert TrimEnd(y) == TrimEnd(x);
  }

  lemma TrimmedFields(days: int, hours: int, minutes: int, secs: int)
    requires days >= 0 && hours >= 0 && minutes >= 0 && secs >= 0
    ensures var t := Trim(JoinedFields(days, hours, minutes, secs)); |t| > 0 && IsDigit(t[0]) && t[|t| - 1] in UNIT_LETTERS
  {
    var sb := FieldText(days, "d ") + FieldText(hours, "h ") + FieldText(minutes, "m ");
    FieldsShapeOf(days, hours, minutes);
    if secs > 0 || |sb| == 0 {
      assert JoinedFields(days, hours, minutes, secs) == sb + IntToString(secs) + "s";
      SecondsLast(sb, secs);
    } else {
      assert JoinedFields(days, hours, minutes, secs) == sb;
      TrimLastField(sb);
    }
  }

  lemma FieldsShapeOf(days: int, hours: int, minutes: int)
    ensures FieldsShape(FieldText(days, "d ") + FieldText(hours, "h ") + FieldText(minutes, "m "))
  {
    AppendField("", days, 'd');
    assert "" + FieldText(days, "d ") == FieldText(days, "d ");
    AppendField(FieldText(days, "d "), hours, 'h');
    AppendField(FieldText(days, "d ") + FieldText(hours, "h "), minutes, 'm');
  }

  lemma SecondsLast(sb: string, secs: int)
    requires FieldsShape(sb) && secs >= 0
    ensures var t := Trim(sb + IntToString(secs) + "s"); |t| > 0 && IsDigit(t[0]) && t[|t| - 1] in UNIT_LETTERS
  {
    var full := sb + IntToString(secs) + "s";
    var n := IntToString(secs);
    assert full[|full| - 1] == 's';
    if sb == "" { assert full[0] == n[0]; } else { assert full[0] == sb[0]; }
  }

  lemma TrimLastField(sb: string)
    requires FieldsShape(sb) && sb != ""
    ensures var t := Trim(sb); |t| > 0 && IsDigit(t[0]) && t[|t| - 1] in UNIT_LETTERS
  {
    var x := sb[..|sb| - 1];
    assert x + " " == sb;
    assert x[0] == sb[0] && x[|x| - 1] == sb[|sb| - 2];
    TrimFinalSpace(x);
  }

  /** The four fields formatTime prints recompose the input: whole days,
      then hours below 24, and minutes and seconds below 60. */
  lemma FormatTimeFieldsRecompose(seconds: int)
    requires seconds > 0
    ensures var days := seconds / SECONDS_PER_DAY;
      var hours := (seconds % SECONDS_PER_DAY) / SECONDS_PER_HOUR;
      var minutes := (seconds % SECONDS_PER_HOUR) / SECONDS_PER_MINUTE;
      var secs := seconds % SECONDS_PER_MINUTE;
      seconds == days * SECONDS_PER_DAY + hours * SECONDS_PER_HOUR + minutes * SECONDS_PER_MINUTE + secs &&
      0 <= hours < 24 && 0 <= minutes < 60 && 0 <= secs < 60
  {
    var q := seconds / 86400;
    var r := seconds % 86400;
    var h := r / 3600;
    var r2 := r % 3600;
    var m := r2 / 60;
    var s := r2 % 60;
    assert seconds == 86400 * q + r;
    assert r == 3600 * h + r2;
    assert r2 == 60 * m + s;
    ModOfHour(seconds, 24 * q + h, r2);
    ModOfMinute(seconds, 1440 * q + 60 * h + m, s);
  }

  lemma ModOfHour(n: int, q: int, r: int)
    requires n == 3600 * q + r && 0 <= r < 3600
    ensures n % 3600 == r
  {
  }

  lemma ModOfMinute(n: int, q: int, r: int)
    requires n == 60 * q + r && 0 <= r < 60
    ensures n % 60 == r
  {
  }

  /** `formatTime(long)` applied to `milliseconds / 1000` (Java division). */
  function FormatTimeMillis(milliseconds: int): (r: string)
    ensures milliseconds < 1000 ==> r == "0s"
    ensures r == FormatTime(JavaDiv(milliseconds, 1000))
  {
    FormatTime(JavaDiv(milliseconds, 1000))
  }

  /** The pattern overload: "{days}", "{hours}", "{minutes}" and "{seconds}"
      are replaced, in that order, by the four fields. */
  function FormatTimePattern(seconds: int, format: string): (r: string)
    ensures seconds <= 0 ==> r == "0s"
    ensures seconds > 0 && !Occurs(format, "{") ==> r == format
    ensures seconds > 0 ==> r == ReplaceFields(format, seconds / SECONDS_PER_DAY,
      (seconds % SECONDS_PER_DAY) / SECONDS_PER_HOUR, (seconds % SECONDS_PER_HOUR) / SECONDS_PER_MINUTE,
      seconds % SECONDS_PER_MINUTE)
  {
    if seconds <= 0 then "0s"
    else
      var days := seconds / SECONDS_PER_DAY;
      var hours := (seconds % SECONDS_PER_DAY) / SECONDS_PER_HOUR;
      var minutes := (seconds % SECONDS_PER_HOUR) / SECONDS_PER_MINUTE;
      var secs := seconds % SECONDS_PER_MINUTE;
      if !Occurs(format, "{") then
        NoBraceNoPlaceholder(format, "{days}");
        NoBraceNoPlaceholder(format, "{hours}");
        NoBraceNoPlaceholder(format, "{minutes}");
        NoBraceNoPlaceholder(format, "{seconds}");
        ReplaceAbsent(format, "{days}", IntToString(days));
        ReplaceAbsent(format, "{hours}", IntToString(hours));
        ReplaceAbsent(format, "{minutes}", IntToString(minutes));
        ReplaceAbsent(format, "{seconds}", IntToString(secs));
        ReplaceFields(format, days, hours, minutes, secs)
      else
        ReplaceFields(format, days, hours, minutes, secs)
  }

  function ReplaceFields(format: string, days: int, hours: int, minutes: int, secs: int): string
  {
    Replace(Replace(Replace(Replace(format, "{days}", IntToString(days)),
      "{hours}", IntToString(hours)), "{minutes}", IntToString(minutes)),
      "{seconds}", IntToString(secs))
  }

  /** Each placeholder alone is replaced by its own field. */
  lemma PatternSingleField(seconds: int)
    requires seconds > 0
    ensures FormatTimePattern(seconds, "{days}") == IntToString(seconds / SECONDS_PER_DAY)
    ensures FormatTimePattern(seconds, "{hours}") == IntToString((seconds % SECONDS_PER_DAY) / SECONDS_PER_HOUR)
    ensures FormatTimePattern(seconds, "{minutes}") == IntToString((seconds % SECONDS_PER_HOUR) / SECONDS_PER_MINUTE)
    ensures FormatTimePattern(seconds, "{seconds}") == IntToString(seconds % SECONDS_PER_MINUTE)
  {
    var days := seconds / SECONDS_PER_DAY;
    var hours := (seconds % SECONDS_PER_DAY) / SECONDS_PER_HOUR;
    var minutes := (seconds % SECONDS_PER_HOUR) / SECONDS_PER_MINUTE;
    var secs := seconds % SECONDS_PER_MINUTE;
    ReplaceDaysAlone(days, hours, minutes, secs);
    ReplaceHoursAlone(days, hours, minutes, secs);
    ReplaceMinutesAlone(days, hours, minutes, secs);
    ReplaceSecondsAlone(days, hours, minutes, secs);
  }

  lemma ReplaceDaysAlone(days: nat, hours: nat, minutes: nat, secs: nat)
    ensures ReplaceFields("{days}", days, hours, minutes, secs) == IntToString(days)
  {
    var d := IntToString(days);
    ReplaceWhole("{days}", d);
    DigitsNoBrace(d);
    NoBraceNoPlaceholder(d, "{hours}");
    NoBraceNoPlaceholder(d, "{minutes}");
    NoBraceNoPlaceholder(d, "{seconds}");
    ReplaceAbsent(d, "{hours}", IntToString(hours));
    ReplaceAbsent(d, "{minutes}", IntToString(minutes));
    ReplaceAbsent(d, "{seconds}", IntToString(secs));
  }

  lemma ReplaceHoursAlone(days: nat, hours: nat, minutes: nat, secs: nat)
    ensures ReplaceFields("{hours}", days, hours, minutes, secs) == IntToString(hours)
  {
    var h := IntToString(hours);
    PlaceholderAbsent("{hours}", "{days}");
    ReplaceAbsent("{hours}", "{days}", IntToString(days));
    ReplaceWhole("{hours}", h);
    DigitsNoBrace(h);
    NoBraceNoPlaceholder(h, "{minutes}");
    NoBraceNoPlaceholder(h, "{seconds}");
    ReplaceAbsent(h, "{minutes}", IntToString(minutes));
    ReplaceAbsent(h, "{seconds}", IntToString(secs));
  }

  lemma ReplaceMinutesAlone(days: nat, hours: nat, minutes: nat, secs: nat)
    ensures ReplaceFields("{minutes}", days, hours, minutes, secs) == IntToString(minutes)
  {
    var m := IntToString(minutes);
    PlaceholderAbsent("{minutes}", "{days}");
    ReplaceAbsent("{minutes}", "{days}", IntToString(days));
    PlaceholderAbsent("{minutes}", "{hours}");
    ReplaceAbsent("{minutes}", "{hours}", IntToString(hours));
    ReplaceWhole("{minutes}", m);
    DigitsNoBrace(m);
    NoBraceNoPlaceholder(m, "{seconds}");
    ReplaceAbsent(m, "{seconds}", IntToString(secs));
  }

  lemma ReplaceSecondsAlone(days: nat, hours: nat, minutes: nat, secs: nat)
    ensures ReplaceFields("{seconds}", days, hours, minutes, secs) == IntToString(secs)
  {
    PlaceholderAbsent("{seconds}", "{days}");
    ReplaceAbsent("{seconds}", "{days}", IntToString(days));
    PlaceholderAbsent("{seconds}", "{hours}");
    ReplaceAbsent("{seconds}", "{hours}", IntToString(hours));
    PlaceholderAbsent("{seconds}", "{minutes}");
    ReplaceAbsent("{seconds}", "{minutes}", IntToString(minutes));
    ReplaceWhole("{seconds}", IntToString(secs));
  }

  /** One placeholder never occurs inside another with a different first letter. */
  lemma PlaceholderAbsent(a: string, b: string)
    requires |a| >= 2 && |b| >= 2 && a[0] == '{' && b[0] == '{' && a[1] != b[1]
    requires forall k :: 1 <= k < |a| ==> a[k] != '{'
    ensures !Occurs(a, b)
  {
    forall i | 0 <= i <= |a| ensures !OccursAt(a, b, i) {
      if i == 0 {
        assert i + |b| <= |a| ==> a[i..i + |b|][1] == a[1];
      } else if i + |b| <= |a| {
        assert a[i..i + |b|][0] == a[i];
      }
    }
  }

  /** A number's digits hold no opening brace. */
  lemma DigitsNoBrace(s: string)
    requires AllDigits(s)
    ensures !Occurs(s, "{")
  {
    forall i | 0 <= i <= |s| ensures !OccursAt(s, "{", i) {
      if i + 1 <= |s| {
        assert s[i..i + 1][0] == s[i];
      }
    }
  }

  // ---------------------------------------------------------------------
  // formatTimeShort

  /** The largest unit among day, hour, minute and second: the number shown
      is the input divided by that unit, truncated. */
  function FormatTimeShort(seconds: int): (r: string)
    ensures seconds <= 0 ==> r == "0s"
    ensures seconds > 0 ==>
      var (unit, letter) := ShortUnit(seconds);
      |r| > 1 && r[|r| - 1] == letter &&
      ParseDecimal(r[..|r| - 1], 0, seconds) == Some(seconds / unit) &&
      unit <= seconds && (seconds / unit) * unit <= seconds < (seconds / unit + 1) * unit
  {
    if seconds <= 0 then "0s"
    else
      var (unit, letter) := ShortUnit(seconds);
      var shown := seconds / unit;
      ParseIntToString(shown, 0, seconds);
      assert (IntToString(shown) + [letter])[..|IntToString(shown)|] == IntToString(shown);
      IntToString(shown) + [letter]
  }

  /** The unit formatTimeShort picks: the largest of 1 s, 1 min, 1 h and
      1 day that does not exceed the input (a day for anything longer). */
  function ShortUnit(seconds: int): (u: (int, char))
    requires seconds > 0
    ensures u.0 in {1, SECONDS_PER_MINUTE, SECONDS_PER_HOUR, SECONDS_PER_DAY}
    ensures u.0 <= seconds
    ensures u.0 < SECONDS_PER_DAY ==> seconds < u.0 * (if u.0 == 1 then 60 else if u.0 == 60 then 60 else 24)
  {
    if seconds < 60 then (1, 's')
    else if seconds < 3600 then (60, 'm')
    else if seconds < 86400 then (3600, 'h')
    else (86400, 'd')
  }

  // ---------------------------------------------------------------------
  // parseTime

  /** The pieces of `s` between the cuts the regex `(?<=\d)(?=\D)` makes: a
      cut falls between a digit and a following non-digit. */
  function SplitAfterDigits(s: string): (r: seq<string>)
    ensures |r| >= 1
    ensures |s| > 0 ==> |r[0]| > 0 && r[0][0] == s[0]
    ensures forall i :: 0 <= i < |r| ==> NoDigitThenOther(r[i])
    decreases |s|
  {
    if |s| <= 1 then [s]
    else
      var rest := SplitAfterDigits(s[1..]);
      if IsDigit(s[0]) && !IsDigit(s[1]) then [[s[0]]] + rest
      else
        var first := [s[0]] + rest[0];
        assert NoDigitThenOther(first) by {
          forall j | 0 <= j < |first| - 1 ensures !(IsDigit(first[j]) && !IsDigit(first[j + 1])) {
            if j > 0 { assert first[j] == rest[0][j - 1] && first[j + 1] == rest[0][j]; }
          }
        }
        [first] + rest[1..]
  }

  /** No digit is followed by a non-digit inside `p`. */
  predicate NoDigitThenOther(p: string)
  {
    forall j :: 0 <= j < |p| - 1 ==> !(IsDigit(p[j]) && !IsDigit(p[j + 1]))
  }

  /** The seconds a trimmed, non-empty piece adds, or None where
      `Long.parseLong` throws; `mult` is the unit's factor. */
  function PieceValue(part: string): (r: Option<int>)
    ensures r.Some? ==> InLongRange(r.value)
  {
    if EndsWithChar(part, 'd') then Scaled(ParseLong(part[..|part| - 1]), SECONDS_PER_DAY)
    else if EndsWithChar(part, 'h') then Scaled(ParseLong(part[..|part| - 1]), SECONDS_PER_HOUR)
    else if EndsWithChar(part, 'm') then Scaled(ParseLong(part[..|part| - 1]), SECONDS_PER_MINUTE)
    else if EndsWithChar(part, 's') then ParseLong(part[..|part| - 1])
    else ParseLong(part)
  }

  function Scaled(n: Option<int>, factor: int): (r: Option<int>)
    ensures r.Some? ==> InLongRange(r.value)
    ensures r.Some? <==> n.Some?
  {
    if n.Some? then Some(Wrap64(n.value * factor)) else None
  }

  /** One iteration of the loop over the pieces: a piece that is blank after
      trimming, or that fails to parse, leaves the total unchanged; the
      others are added with 64-bit wrap-around. */
  function Step(total: int, rawPart: string): int
  {
    AddTrimmed(total, Trim(rawPart))
  }

  /** The same iteration once the piece is trimmed. */
  function AddTrimmed(total: int, part: string): int
  {
    if part == "" then total
    else match PieceValue(part)
      case None => total
      case Some(v) => Wrap64(total + v)
  }

  /** The running total after the given pieces. */
  function TotalOf(parts: seq<string>): (t: int)
    ensures InLongRange(t)
  {
    if |parts| == 0 then 0
    else
      var t := Step(TotalOf(parts[..|parts| - 1]), parts[|parts| - 1]);
      assert InLongRange(t) by {
        var p := Trim(parts[|parts| - 1]);
        if p != "" && PieceValue(p).Some? { }
      }
      t
  }

  lemma TotalOfSnoc(parts: seq<string>, i: int)
    requires 0 <= i < |parts|
    ensures TotalOf(parts[..i + 1]) == Step(TotalOf(parts[..i]), parts[i])
  {
    assert parts[..i + 1][..i] == parts[..i];
  }

  /** The input as parseTime normalises it before splitting. */
  function Normalised(timeString: string): string
  {
    Trim(ToLower(timeString))
  }

  /** `parseTime`: null or blank input is 0; otherwise the pieces of the
      lower-cased, trimmed text are summed as they parse. */
  method ParseTime(timeString: Option<string>) returns (totalSeconds: int)
    ensures timeString.None? ==> totalSeconds == 0
    ensures timeString.Some? && Trim(timeString.value) == "" ==> totalSeconds == 0
    ensures timeString.Some? && Trim(timeString.value) != "" ==>
      totalSeconds == TotalOf(SplitAfterDigits(Normalised(timeString.value)))
    ensures InLongRange(totalSeconds)
  {
    if timeString.None? || Trim(timeString.value) == "" {
      return 0;
    }
    var parts := SplitAfterDigits(Normalised(timeString.value));
    totalSeconds := SumPieces(parts);
  }

  /** The loop of parseTime over the pieces of the split input. */
  method SumPieces(parts: seq<string>) returns (totalSeconds: int)
    ensures totalSeconds == TotalOf(parts)
  {
    totalSeconds := 0;
    var i := 0;
    while i < |parts|
      invariant 0 <= i <= |parts|
      invariant totalSeconds == TotalOf(parts[..i])
    {
      TotalOfSnoc(parts, i);
      var part := Trim(parts[i]);
      totalSeconds := AddPiece(totalSeconds, part);
      i := i + 1;
    }
    assert parts[..|parts|] == parts;
  }

  /** The body of that loop: a piece blank after trimming, or one that does
      not parse, is skipped; the others are added with 64-bit wrap-around. */
  method AddPiece(total: int, part: string) returns (t: int)
    ensures t == AddTrimmed(total, part)
  {
    if part == "" {
      t := total;
    } else {
      match PieceValue(part)
      case None =>
        t := total;
      case Some(v) =>
        t := Wrap64(total + v);
    }
  }

  /** Trimming keeps a piece free of digit-then-other pairs. */
  lemma TrimKeepsNoDigitThenOther(p: string)
    requires NoDigitThenOther(p)
    ensures NoDigitThenOther(Trim(p))
  {
    var a := TrimStart(p);
    var b := TrimEnd(a);
    assert a == p[|p| - |a|..];
    assert b == a[..|b|];
    forall j | 0 <= j < |b| - 1 ensures !(IsDigit(b[j]) && !IsDigit(b[j + 1])) {
      assert b[j] == p[|p| - |a| + j] && b[j + 1] == p[|p| - |a| + j + 1];
    }
  }

  /** A unit suffix can never take effect: the piece before a final d, h, m
      or s would have to end in a digit, and the split always cuts between
      that digit and the letter. */
  lemma UnitSuffixNeverParses(part: string)
    requires NoDigitThenOther(part) && |part| > 0
    requires part[|part| - 1] in UNIT_LETTERS
    ensures ParseLong(part[..|part| - 1]).None?
  {
    var body := part[..|part| - 1];
    if ParseLong(body).Some? {
      ParseNeedsDigit(body, LONG_MIN, LONG_MAX);
      assert false;
    }
  }

  /** What parseTime actually computes: only pieces that are plain signed
      numbers count, as seconds; no unit letter ever multiplies anything. */
  lemma {:induction false} TotalIgnoresUnits(parts: seq<string>)
    requires forall i :: 0 <= i < |parts| ==> NoDigitThenOther(parts[i])
    ensures TotalOf(parts) == PlainTotal(parts)
  {
    if |parts| > 0 {
      var init := parts[..|parts| - 1];
      TotalIgnoresUnits(init);
      StepIgnoresUnits(TotalOf(init), parts[|parts| - 1]);
    }
  }

  lemma StepIgnoresUnits(total: int, rawPart: string)
    requires NoDigitThenOther(rawPart)
    ensures Step(total, rawPart) == PlainStep(total, rawPart)
  {
    TrimKeepsNoDigitThenOther(rawPart);
    AddIgnoresUnits(total, Trim(rawPart));
  }

  lemma AddIgnoresUnits(total: int, p: string)
    requires NoDigitThenOther(p)
    ensures AddTrimmed(total, p) == PlainAdd(total, p)
  {
    PieceIgnoresUnit(p);
  }

  /** A piece of the split parses as a plain number or not at all. */
  lemma PieceIgnoresUnit(p: string)
    requires NoDigitThenOther(p)
    ensures p != "" ==> PieceValue(p) == if p[|p| - 1] in UNIT_LETTERS then None else ParseLong(p)
  {
    if p != "" {
      if p[|p| - 1] in UNIT_LETTERS {
        UnitSuffixNeverParses(p);
        PieceValueWithUnit(p);
      } else {
        PieceValueWithoutUnit(p);
      }
    }
  }

  lemma PieceValueWithUnit(p: string)
    requires p != "" && p[|p| - 1] in UNIT_LETTERS && ParseLong(p[..|p| - 1]).None?
    ensures PieceValue(p).None?
  {
  }

  lemma PieceValueWithoutUnit(p: string)
    requires p != "" && p[|p| - 1] !in UNIT_LETTERS
    ensures PieceValue(p) == ParseLong(p)
  {
  }

  /** The reference reading of one piece: a trimmed piece that ends in a
      unit letter adds nothing; any other adds its value when it parses. */
  function PlainStep(total: int, rawPart: string): int
  {
    PlainAdd(total, Trim(rawPart))
  }

  /** The same iteration once the piece is trimmed. */
  function PlainAdd(total: int, p: string): int
  {
    if p == "" || p[|p| - 1] in UNIT_LETTERS then total
    else match ParseLong(p)
      case None => total
      case Some(v) => Wrap64(total + v)
  }

  function PlainTotal(parts: seq<string>): int
  {
    if |parts| == 0 then 0 else PlainStep(PlainTotal(parts[..|parts| - 1]), parts[|parts| - 1])
  }

  /** Applied to any input, parseTime equals the plain-number total. */
  lemma ParseTimeIgnoresUnits(s: string)
    ensures TotalOf(SplitAfterDigits(s)) == PlainTotal(SplitAfterDigits(s))
  {
    TotalIgnoresUnits(SplitAfterDigits(s));
  }

  lemma ExampleSplit()
    ensures SplitAfterDigits("1h30m") == ["1", "h30", "m"]
  {
    assert "1h30m"[1..] == "h30m";
    assert "h30m"[1..] == "30m";
    assert "30m"[1..] == "0m";
    assert "0m"[1..] == "m";
    assert SplitAfterDigits("m") == ["m"];
    assert SplitAfterDigits("0m") == ["0", "m"];
    assert ['3'] + "0" == "30";
    assert ["0", "m"][1..] == ["m"];
    assert SplitAfterDigits("30m") == ["30", "m"];
    assert ['h'] + "30" == "h30";
    assert ["30", "m"][1..] == ["m"];
    assert SplitAfterDigits("h30m") == ["h30", "m"];
  }

  lemma ExampleNormalised()
    ensures Normalised("1h30m") == "1h30m"
  {
    var s := "1h30m";
    assert ToLower(s) == s;
    assert TrimStart(s) == s;
    assert TrimEnd(s) == s;
  }

  lemma ExampleTotal()
    ensures TotalOf(["1", "h30", "m"]) == 1
  {
    ExampleStepOne();
    ExampleStepLetters();
    TotalOfThree("1", "h30", "m");
  }

  lemma TotalOfThree(a: string, b: string, c: string)
    ensures TotalOf([a, b, c]) == Step(Step(Step(0, a), b), c)
  {
    var parts := [a, b, c];
    TotalOfSnoc(parts, 0);
    TotalOfSnoc(parts, 1);
    TotalOfSnoc(parts, 2);
    assert parts[..0] == [];
    assert parts[..3] == parts;
  }

  lemma ExampleStepOne()
    ensures Step(0, "1") == 1
  {
    assert Trim("1") == "1";
    assert DigitsValue("1") == DigitsValue("") * 10 + DigitValue('1');
    assert ParseLong("1") == Some(1);
  }

  lemma ExampleStepLetters()
    ensures Step(1, "h30") == 1 && Step(1, "m") == 1
  {
    ExampleStepH30();
    ExampleStepM();
  }

  lemma ExampleStepH30()
    ensures Step(1, "h30") == 1
  {
    assert Trim("h30") == "h30";
    assert !AllDigits("h30");
    assert ParseLong("h30") == None;
    PieceValueWithoutUnit("h30");
  }

  lemma ExampleStepM()
    ensures Step(1, "m") == 1
  {
    assert Trim("m") == "m";
    assert ParseLong("m"[..0]) == None;
    PieceValueWithUnit("m");
  }

  /** The source's own example "1h30m" yields one second, not 5400. */
  lemma ParseTimeHourMinuteExample()
    ensures TotalOf(SplitAfterDigits(Normalised("1h30m"))) == 1
  {
    ExampleNormalised();
    ExampleSplit();
    ExampleTotal();
  }

  // The parse the comment in parseTime describes ("1h30m", "1d12h30m45s"):
  // the cut falls where a digit follows a non-digit, `(?<=\D)(?=\d)`, so
  // each number keeps the unit letter after it.

  /** The pieces of `s` between the cuts `(?<=\D)(?=\d)` makes. */
  function SplitBeforeDigits(s: string): (r: seq<string>)
    ensures |r| >= 1
    decreases |s|
  {
    if |s| <= 1 then [s]
    else
      var rest := SplitBeforeDigits(s[1..]);
      if !IsDigit(s[0]) && IsDigit(s[1]) then [[s[0]]] + rest
      else [[s[0]] + rest[0]] + rest[1..]
  }

  /** No non-digit is followed by a digit inside `p`. */
  predicate NoOtherThenDigit(p: string)
  {
    forall j :: 0 <= j < |p| - 1 ==> !(!IsDigit(p[j]) && IsDigit(p[j + 1]))
  }

  /** `parseTime` with the intended split; the rest of the loop is unchanged. */
  method ParseTimeIntended(timeString: Option<string>) returns (totalSeconds: int)
    ensures timeString.None? ==> totalSeconds == 0
    ensures timeString.Some? && Trim(timeString.value) == "" ==> totalSeconds == 0
    ensures timeString.Some? && Trim(timeString.value) != "" ==>
      totalSeconds == TotalOf(SplitBeforeDigits(Normalised(timeString.value)))
    ensures InLongRange(totalSeconds)
  {
    if timeString.None? || Trim(timeString.value) == "" {
      return 0;
    }
    var parts := SplitBeforeDigits(Normalised(timeString.value));
    totalSeconds := SumPieces(parts);
  }

  /** A count followed by one of the unit letters, such as "30m". */
  datatype Term = Term(count: nat, unit: char)

  /** The largest count and the most terms the intended-parse lemma covers,
      so that no sum leaves the long range. */
  const MAX_TERM_COUNT: nat := 1_000_000
  const MAX_TERMS: nat := 1000

  predicate ValidTerm(t: Term)
  {
    t.unit in UNIT_LETTERS && t.count <= MAX_TERM_COUNT
  }

  function UnitFactor(u: char): int
  {
    if u == 'd' then SECONDS_PER_DAY
    else if u == 'h' then SECONDS_PER_HOUR
    else if u == 'm' then SECONDS_PER_MINUTE
    else 1
  }

  function TermText(t: Term): string
  {
    NatToString(t.count) + [t.unit]
  }

  function TermsText(ts: seq<Term>): string
  {
    if |ts| == 0 then "" else TermsText(ts[..|ts| - 1]) + TermText(ts[|ts| - 1])
  }

  /** The seconds one term denotes. */
  function TermSeconds(t: Term): int
  {
    t.count * UnitFactor(t.unit)
  }

  /** The seconds the terms denote. */
  function TermsSeconds(ts: seq<Term>): int
  {
    if |ts| == 0 then 0 else TermsSeconds(ts[..|ts| - 1]) + TermSeconds(ts[|ts| - 1])
  }

  lemma {:induction false} TermsSecondsBound(ts: seq<Term>)
    requires forall i :: 0 <= i < |ts| ==> ValidTerm(ts[i])
    ensures 0 <= TermsSeconds(ts) <= |ts| * (MAX_TERM_COUNT * SECONDS_PER_DAY)
  {
    if |ts| > 0 {
      var t := ts[|ts| - 1];
      TermsSecondsBound(ts[..|ts| - 1]);
      TermSecondsBound(t);
    }
  }

  lemma TermSecondsBound(t: Term)
    requires ValidTerm(t)
    ensures 0 <= TermSeconds(t) <= MAX_TERM_COUNT * SECONDS_PER_DAY
  {
    if t.unit == 'd' {
      assert TermSeconds(t) == t.count * 86400;
    } else if t.unit == 'h' {
      assert TermSeconds(t) == t.count * 3600;
    } else if t.unit == 'm' {
      assert TermSeconds(t) == t.count * 60;
    }
  }

  /** Only digits and unit letters. */
  predicate TermChars(s: string)
  {
    forall i :: 0 <= i < |s| ==> IsDigit(s[i]) || s[i] in UNIT_LETTERS
  }

  /** The text of terms: digits and unit letters, starting with a digit and
      ending with a unit letter. */
  lemma {:induction false} TermsTextShape(ts: seq<Term>)
    requires forall i :: 0 <= i < |ts| ==> ValidTerm(ts[i])
    requires |ts| > 0
    ensures var s := TermsText(ts);
      |s| > 0 && IsDigit(s[0]) && s[|s| - 1] in UNIT_LETTERS && TermChars(s)
  {
    var init := ts[..|ts| - 1];
    var a := TermsText(init);
    var b := TermText(ts[|ts| - 1]);
    assert TermsText(ts) == a + b;
    if |init| > 0 {
      TermsTextShape(init);
    }
    assert TermChars(b);
  }

  /** A piece with no cut inside is not split. */
  lemma {:induction false} SplitBeforeDigitsWhole(s: string)
    requires NoOtherThenDigit(s)
    ensures SplitBeforeDigits(s) == [s]
    decreases |s|
  {
    if |s| > 1 {
      assert NoOtherThenDigit(s[1..]) by {
        forall j | 0 <= j < |s[1..]| - 1 ensures !(!IsDigit(s[1..][j]) && IsDigit(s[1..][j + 1])) {
          assert s[1..][j] == s[j + 1] && s[1..][j + 1] == s[j + 2];
        }
      }
      SplitBeforeDigitsWhole(s[1..]);
      assert [s[0]] + s[1..] == s;
    }
  }

  /** Where a non-digit meets a digit the split cuts, and the pieces on
      either side are those of each half. */
  lemma {:induction false} SplitBeforeDigitsConcat(a: string, b: string)
    requires |a| > 0 && !IsDigit(a[|a| - 1])
    requires |b| > 0 && IsDigit(b[0])
    ensures SplitBeforeDigits(a + b) == SplitBeforeDigits(a) + SplitBeforeDigits(b)
    decreases |a|
  {
    var s := a + b;
    assert s[0] == a[0];
    if |a| == 1 {
      assert s[1] == b[0] && s[1..] == b;
      assert a == [a[0]];
    } else {
      assert s[1] == a[1] && s[1..] == a[1..] + b;
      SplitBeforeDigitsConcat(a[1..], b);
    }
  }

  lemma TermTextWhole(t: Term)
    ensures NoOtherThenDigit(TermText(t))
  {
    var s := TermText(t);
    assert forall j :: 0 <= j < |s| - 1 ==> IsDigit(s[j]);
  }

  /** The value a term's piece adds: its count times its unit's factor. */
  lemma TermPieceValue(t: Term)
    requires t.unit in UNIT_LETTERS && TermSeconds(t) <= LONG_MAX
    ensures PieceValue(TermText(t)) == Some(TermSeconds(t))
  {
    var s := TermText(t);
    var digits := NatToString(t.count);
    assert s[..|s| - 1] == digits && s[|s| - 1] == t.unit;
    TermSecondsAtLeastCount(t);
    ParseIntToString(t.count, LONG_MIN, LONG_MAX);
    assert ParseLong(digits) == Some(t.count);
    if t.unit == 'd' {
      assert TermSeconds(t) == t.count * 86400;
    } else if t.unit == 'h' {
      assert TermSeconds(t) == t.count * 3600;
    } else if t.unit == 'm' {
      assert TermSeconds(t) == t.count * 60;
    }
  }

  /** A single term adds its seconds to the running total. */
  lemma TermStep(total: int, t: Term)
    requires ValidTerm(t)
    ensures Step(total, TermText(t)) == Wrap64(total + TermSeconds(t))
  {
    var s := TermText(t);
    assert s[0] == NatToString(t.count)[0] && IsDigit(s[0]);
    assert Trim(s) == s;
    TermSecondsBound(t);
    TermPieceValue(t);
  }

  /** A term denotes at least its count, and never a negative number. */
  lemma TermSecondsAtLeastCount(t: Term)
    ensures 0 <= t.count <= TermSeconds(t)
  {
    if t.unit == 'd' {
      assert TermSeconds(t) == t.count * 86400;
    } else if t.unit == 'h' {
      assert TermSeconds(t) == t.count * 3600;
    } else if t.unit == 'm' {
      assert TermSeconds(t) == t.count * 60;
    }
  }

  lemma TotalOfSnocAll(parts: seq<string>, x: string)
    ensures TotalOf(parts + [x]) == Step(TotalOf(parts), x)
  {
    assert (parts + [x])[..|parts|] == parts;
  }

  /** The text of terms is already lower-case and trimmed. */
  lemma TermsNormalised(ts: seq<Term>)
    requires forall i :: 0 <= i < |ts| ==> ValidTerm(ts[i])
    ensures Normalised(TermsText(ts)) == TermsText(ts)
  {
    if |ts| > 0 {
      TermsTextShape(ts);
      TermCharsNormalised(TermsText(ts));
    }
  }

  lemma TermCharsNormalised(s: string)
    requires |s| > 0 && IsDigit(s[0]) && s[|s| - 1] in UNIT_LETTERS && TermChars(s)
    ensures Normalised(s) == s
  {
    forall i | 0 <= i < |s| ensures !('A' <= s[i] <= 'Z') {
      TermCharBounds(s[i]);
    }
    ToLowerNoUpper(s);
    TermCharBounds(s[0]);
    TermCharBounds(s[|s| - 1]);
  }

  /** A digit or unit letter is printable and not upper case. */
  lemma TermCharBounds(c: char)
    requires IsDigit(c) || c in UNIT_LETTERS
    ensures ' ' < c && !('A' <= c <= 'Z')
  {
  }

  /** The intended split applied to a run of terms parses to the seconds
      they denote: "1d12h30m45s" is 131445. */
  lemma {:induction false} TermsParse(ts: seq<Term>)
    requires forall i :: 0 <= i < |ts| ==> ValidTerm(ts[i])
    requires |ts| <= MAX_TERMS
    ensures TotalOf(SplitBeforeDigits(TermsText(ts))) == TermsSeconds(ts)
  {
    if |ts| == 0 {
      assert SplitBeforeDigits("") == [""];
      TotalOfSnocAll([], "");
      assert [] + [""] == [""];
    } else {
      var init := ts[..|ts| - 1];
      var t := ts[|ts| - 1];
      assert ts == init + [t];
      TermsParse(init);
      TermsParseStep(init, t);
    }
  }

  /** One more term adds its seconds to the parsed total. */
  lemma TermsParseStep(init: seq<Term>, t: Term)
    requires forall i :: 0 <= i < |init| ==> ValidTerm(init[i])
    requires ValidTerm(t) && |init| < MAX_TERMS
    requires TotalOf(SplitBeforeDigits(TermsText(init))) == TermsSeconds(init)
    ensures TotalOf(SplitBeforeDigits(TermsText(init + [t]))) == TermsSeconds(init + [t])
  {
    if |init| == 0 {
      FirstTermParse(init, t);
    } else {
      TermsSplit(init, t);
      PiecesSnocTerm(SplitBeforeDigits(TermsText(init)), init, t);
    }
  }

  /** The first term alone is one piece worth its seconds. */
  lemma FirstTermParse(init: seq<Term>, t: Term)
    requires |init| == 0 && ValidTerm(t)
    ensures TotalOf(SplitBeforeDigits(TermsText(init + [t]))) == TermsSeconds(init + [t])
  {
    TermsSplit(init, t);
    assert [] + [TermText(t)] == [TermText(t)];
    PiecesSnocTerm([], init, t);
  }

  /** Pieces worth the seconds of some terms, and one more term's text. */
  lemma PiecesSnocTerm(prior: seq<string>, init: seq<Term>, t: Term)
    requires forall i :: 0 <= i < |init| ==> ValidTerm(init[i])
    requires ValidTerm(t) && |init| < MAX_TERMS
    requires TotalOf(prior) == TermsSeconds(init)
    ensures TotalOf(prior + [TermText(t)]) == TermsSeconds(init + [t])
  {
    TermsSecondsNoWrap(init, t);
    SnocTerm(prior, TermsSeconds(init), t);
  }

  /** Within the bounds the sum of the terms' seconds does not wrap. */
  lemma TermsSecondsNoWrap(init: seq<Term>, t: Term)
    requires forall i :: 0 <= i < |init| ==> ValidTerm(init[i])
    requires ValidTerm(t) && |init| < MAX_TERMS
    ensures InLongRange(TermsSeconds(init) + TermSeconds(t))
    ensures TermsSeconds(init + [t]) == TermsSeconds(init) + TermSeconds(t)
  {
    var ts := init + [t];
    assert forall i :: 0 <= i < |ts| ==> ValidTerm(ts[i]) by {
      forall i | 0 <= i < |ts| ensures ValidTerm(ts[i]) {
        if i < |init| { assert ts[i] == init[i]; }
      }
    }
    TermsSecondsSnoc(init, t);
    TermsSecondsBound(ts);
  }

  /** The pieces so far and one more term: the term's seconds are added. */
  lemma SnocTerm(prior: seq<string>, total: int, t: Term)
    requires ValidTerm(t) && TotalOf(prior) == total
    requires InLongRange(total + TermSeconds(t))
    ensures TotalOf(prior + [TermText(t)]) == total + TermSeconds(t)
  {
    TotalOfSnocAll(prior, TermText(t));
    TermStep(total, t);
  }

  lemma TermsSecondsSnoc(init: seq<Term>, t: Term)
    ensures TermsSeconds(init + [t]) == TermsSeconds(init) + TermSeconds(t)
  {
    var ts := init + [t];
    assert ts[..|ts| - 1] == init && ts[|ts| - 1] == t;
  }

  /** The split of one more term: the pieces so far and the new term. */
  lemma TermsSplit(init: seq<Term>, t: Term)
    requires forall i :: 0 <= i < |init| ==> ValidTerm(init[i])
    requires ValidTerm(t)
    ensures |init| == 0 ==> SplitBeforeDigits(TermsText(init + [t])) == [TermText(t)]
    ensures |init| > 0 ==>
      SplitBeforeDigits(TermsText(init + [t])) == SplitBeforeDigits(TermsText(init)) + [TermText(t)]
  {
    TermsTextSnoc(init, t);
    var b := TermText(t);
    TermTextWhole(t);
    SplitBeforeDigitsWhole(b);
    if |init| > 0 {
      TermsTextShape(init);
      SplitAfterUnit(TermsText(init), t);
    } else {
      assert TermsText(init) + b == b;
    }
  }

  lemma TermsTextSnoc(init: seq<Term>, t: Term)
    ensures TermsText(init + [t]) == TermsText(init) + TermText(t)
  {
    var ts := init + [t];
    assert ts[..|ts| - 1] == init && ts[|ts| - 1] == t;
  }

  /** A term after text ending in a unit letter starts a piece of its own. */
  lemma SplitAfterUnit(a: string, t: Term)
    requires |a| > 0 && a[|a| - 1] in UNIT_LETTERS
    requires SplitBeforeDigits(TermText(t)) == [TermText(t)]
    ensures SplitBeforeDigits(a + TermText(t)) == SplitBeforeDigits(a) + [TermText(t)]
  {
    var b := TermText(t);
    assert b[0] == NatToString(t.count)[0];
    SplitBeforeDigitsConcat(a, b);
  }

  /** With the intended split the source's example "1h30m" is 5400 seconds. */
  lemma ParseTimeIntendedHourMinuteExample()
    ensures TotalOf(SplitBeforeDigits(Normalised("1h30m"))) == 5400
  {
    ExampleTermsText();
    ExampleTermsTotal();
  }

  lemma ExampleTermsTotal()
    ensures var ts := [Term(1, 'h'), Term(30, 'm')];
      TotalOf(SplitBeforeDigits(Normalised(TermsText(ts)))) == 5400
  {
    var ts := [Term(1, 'h'), Term(30, 'm')];
    ExampleTermsSeconds();
    assert ValidTerm(ts[0]) && ValidTerm(ts[1]);
    TermsNormalised(ts);
    TermsParse(ts);
  }

  lemma ExampleTermsText()
    ensures TermsText([Term(1, 'h'), Term(30, 'm')]) == "1h30m"
  {
    assert DigitChar(0) == '0' && DigitChar(1) == '1' && DigitChar(3) == '3';
    assert NatToString(1) == "1";
    assert NatToString(30) == NatToString(3) + [DigitChar(0)] == "30";
    TermsTextSnoc([], Term(1, 'h'));
    TermsTextSnoc([Term(1, 'h')], Term(30, 'm'));
    assert [] + [Term(1, 'h')] == [Term(1, 'h')];
    assert [Term(1, 'h')] + [Term(30, 'm')] == [Term(1, 'h'), Term(30, 'm')];
  }

  lemma ExampleTermsSeconds()
    ensures TermsSeconds([Term(1, 'h'), Term(30, 'm')]) == 5400
  {
    var ts := [Term(1, 'h'), Term(30, 'm')];
    assert ts[..1] == [Term(1, 'h')] && ts[..1][..0] == [];
    assert TermSeconds(Term(1, 'h')) == 3600;
    assert TermSeconds(Term(30, 'm')) == 1800;
  }


  // ---------------------------------------------------------------------
  // formatTime read back by the intended parse

  /** A field formatTime prints, as a term, when `present`. */
  function OptionalTerm(present: bool, count: nat, unit: char): seq<Term>
  {
    if present then [Term(count, unit)] else []
  }

  /** The fields formatTime prints, as terms: days, hours and minutes when
      positive, then the seconds when positive or when no other field is. */
  function FieldTerms(days: nat, hours: nat, minutes: nat, secs: nat): seq<Term>
  {
    OptionalTerm(days > 0, days, 'd') + OptionalTerm(hours > 0, hours, 'h') +
    OptionalTerm(minutes > 0, minutes, 'm') + OptionalTerm(secs > 0 || days + hours + minutes == 0, secs, 's')
  }

  /** The terms of a positive number of seconds, split as formatTime splits it. */
  function FormatTerms(seconds: int): seq<Term>
    requires seconds > 0
  {
    FieldTerms(seconds / SECONDS_PER_DAY, (seconds % SECONDS_PER_DAY) / SECONDS_PER_HOUR,
      (seconds % SECONDS_PER_HOUR) / SECONDS_PER_MINUTE, seconds % SECONDS_PER_MINUTE)
  }

  /** Terms each followed by a space. */
  function SpacedTerms(ts: seq<Term>): string
  {
    if |ts| == 0 then "" else SpacedTerms(ts[..|ts| - 1]) + (TermText(ts[|ts| - 1]) + " ")
  }

  /** Terms separated by single spaces. */
  function SpacedText(ts: seq<Term>): string
    requires |ts| > 0
  {
    SpacedTerms(ts[..|ts| - 1]) + TermText(ts[|ts| - 1])
  }

  /** The pieces the intended split makes of `SpacedTerms(ts)`. */
  function SpacedPieces(ts: seq<Term>): seq<string>
  {
    if |ts| == 0 then [] else SpacedPieces(ts[..|ts| - 1]) + [TermText(ts[|ts| - 1]) + " "]
  }

  predicate UnitTerms(ts: seq<Term>)
  {
    forall i :: 0 <= i < |ts| ==> ts[i].unit in UNIT_LETTERS
  }

  /** formatTime prints its fields as terms separated by spaces. */
  lemma FormatTimeSpaced(seconds: int)
    requires seconds > 0
    ensures var ts := FormatTerms(seconds);
      |ts| > 0 && UnitTerms(ts) && FormatTime(seconds) == SpacedText(ts)
  {
    var days := seconds / SECONDS_PER_DAY;
    var hours := (seconds % SECONDS_PER_DAY) / SECONDS_PER_HOUR;
    var minutes := (seconds % SECONDS_PER_HOUR) / SECONDS_PER_MINUTE;
    var secs := seconds % SECONDS_PER_MINUTE;
    FieldTermsText(days, hours, minutes, secs);
    FieldTermsUnits(days, hours, minutes, secs);
  }

  /** The terms formatTime prints denote the input. */
  lemma FormatTermsSeconds(seconds: int)
    requires seconds > 0
    ensures TermsSeconds(FormatTerms(seconds)) == seconds
  {
    var days := seconds / SECONDS_PER_DAY;
    var hours := (seconds % SECONDS_PER_DAY) / SECONDS_PER_HOUR;
    var minutes := (seconds % SECONDS_PER_HOUR) / SECONDS_PER_MINUTE;
    var secs := seconds % SECONDS_PER_MINUTE;
    FormatTimeFieldsRecompose(seconds);
    FieldTermsSeconds(days, hours, minutes, secs);
  }

  lemma FieldTermsUnits(days: nat, hours: nat, minutes: nat, secs: nat)
    ensures UnitTerms(FieldTerms(days, hours, minutes, secs))
  {
    var a := OptionalTerm(days > 0, days, 'd');
    var b := OptionalTerm(hours > 0, hours, 'h');
    var c := OptionalTerm(minutes > 0, minutes, 'm');
    var d := OptionalTerm(secs > 0 || days + hours + minutes == 0, secs, 's');
    var ts := FieldTerms(days, hours, minutes, secs);
    forall i | 0 <= i < |ts| ensures ts[i].unit in UNIT_LETTERS {
      assert ts[i] in a || ts[i] in b || ts[i] in c || ts[i] in d;
    }
  }

  /** The terms of the fields denote the sum of the fields. */
  lemma FieldTermsSeconds(days: nat, hours: nat, minutes: nat, secs: nat)
    ensures TermsSeconds(FieldTerms(days, hours, minutes, secs)) ==
      days * SECONDS_PER_DAY + hours * SECONDS_PER_HOUR + minutes * SECONDS_PER_MINUTE + secs
  {
    var a := OptionalTerm(days > 0, days, 'd');
    var b := OptionalTerm(hours > 0, hours, 'h');
    var c := OptionalTerm(minutes > 0, minutes, 'm');
    var last := secs > 0 || days + hours + minutes == 0;
    assert [] + a == a;
    OptionalTermSeconds([], days > 0, days, 'd');
    OptionalTermSeconds(a, hours > 0, hours, 'h');
    OptionalTermSeconds(a + b, minutes > 0, minutes, 'm');
    OptionalTermSeconds(a + b + c, last, secs, 's');
  }

  lemma OptionalTermSeconds(ts: seq<Term>, present: bool, count: nat, unit: char)
    requires !present ==> count == 0
    ensures TermsSeconds(ts + OptionalTerm(present, count, unit)) == TermsSeconds(ts) + count * UnitFactor(unit)
  {
    if present {
      TermsSecondsSnoc(ts, Term(count, unit));
    } else {
      assert ts + [] == ts;
    }
  }

  /** The text formatTime builds is the spaced text of the terms. */
  lemma FieldTermsText(days: nat, hours: nat, minutes: nat, secs: nat)
    ensures var ts := FieldTerms(days, hours, minutes, secs);
      |ts| > 0 && Trim(JoinedFields(days, hours, minutes, secs)) == SpacedText(ts)
  {
    var dhm := OptionalTerm(days > 0, days, 'd') + OptionalTerm(hours > 0, hours, 'h') +
      OptionalTerm(minutes > 0, minutes, 'm');
    var sb := FieldText(days, "d ") + FieldText(hours, "h ") + FieldText(minutes, "m ");
    if secs > 0 || days + hours + minutes == 0 {
      assert JoinedFields(days, hours, minutes, secs) == sb + IntToString(secs) + "s";
      assert FieldTerms(days, hours, minutes, secs) == dhm + [Term(secs, 's')];
      FieldsSpaced(days, hours, minutes);
      FieldsShapeOf(days, hours, minutes);
      SecondsFieldText(dhm, sb, secs);
      assert Trim(JoinedFields(days, hours, minutes, secs)) == SpacedText(FieldTerms(days, hours, minutes, secs));
    } else {
      FieldsNonEmpty(days, hours, minutes);
      assert JoinedFields(days, hours, minutes, secs) == sb;
      assert FieldTerms(days, hours, minutes, secs) == dhm;
      FieldsSpaced(days, hours, minutes);
      FieldsShapeOf(days, hours, minutes);
      NoSecondsFieldText(dhm, sb);
      assert Trim(JoinedFields(days, hours, minutes, secs)) == SpacedText(FieldTerms(days, hours, minutes, secs));
    }
  }

  lemma FieldsNonEmpty(days: nat, hours: nat, minutes: nat)
    requires days + hours + minutes > 0
    ensures |FieldText(days, "d ") + FieldText(hours, "h ") + FieldText(minutes, "m ")| > 0
  {
    if days > 0 {
      assert |FieldText(days, "d ")| > 0;
    } else if hours > 0 {
      assert |FieldText(hours, "h ")| > 0;
    } else {
      assert |FieldText(minutes, "m ")| > 0;
    }
  }

  /** The seconds field closes the text; nothing is trimmed. */
  lemma SecondsFieldText(dhm: seq<Term>, sb: string, secs: nat)
    requires FieldsShape(sb) && SpacedTerms(dhm) == sb
    ensures Trim(sb + IntToString(secs) + "s") == SpacedText(dhm + [Term(secs, 's')])
  {
    var ts := dhm + [Term(secs, 's')];
    assert ts[..|ts| - 1] == dhm;
    var full := sb + IntToString(secs) + "s";
    assert full == sb + TermText(Term(secs, 's'));
    var n := IntToString(secs);
    if sb == "" { assert full[0] == n[0]; } else { assert full[0] == sb[0]; }
  }

  /** Without a seconds field the final space is the only thing trimmed. */
  lemma NoSecondsFieldText(dhm: seq<Term>, sb: string)
    requires FieldsShape(sb) && SpacedTerms(dhm) == sb && sb != ""
    ensures |dhm| > 0 && Trim(sb) == SpacedText(dhm)
  {
    var x := sb[..|sb| - 1];
    assert x + " " == sb;
    assert x[0] == sb[0] && x[|x| - 1] == sb[|sb| - 2];
    TrimFinalSpace(x);
    SpacedFinalSpace(dhm);
  }

  /** The day, hour and minute fields are their terms, each with its space. */
  lemma FieldsSpaced(days: nat, hours: nat, minutes: nat)
    ensures SpacedTerms(OptionalTerm(days > 0, days, 'd') + OptionalTerm(hours > 0, hours, 'h') +
      OptionalTerm(minutes > 0, minutes, 'm')) ==
      FieldText(days, "d ") + FieldText(hours, "h ") + FieldText(minutes, "m ")
  {
    var a := OptionalTerm(days > 0, days, 'd');
    var b := OptionalTerm(hours > 0, hours, 'h');
    assert "d " == ['d', ' '] && "h " == ['h', ' '] && "m " == ['m', ' '];
    FirstTermText(days, 'd');
    OptionalTermText(a, hours, 'h');
    OptionalTermText(a + b, minutes, 'm');
  }

  lemma FirstTermText(count: nat, unit: char)
    ensures SpacedTerms(OptionalTerm(count > 0, count, unit)) == FieldText(count, [unit, ' '])
  {
    if count > 0 {
      var ts := [Term(count, unit)];
      assert ts[..0] == [];
    }
  }

  /** Spaced terms are the spaced text and its final space. */
  lemma SpacedFinalSpace(ts: seq<Term>)
    requires |ts| > 0
    ensures SpacedTerms(ts) == SpacedText(ts) + " "
    ensures SpacedTerms(ts)[..|SpacedTerms(ts)| - 1] == SpacedText(ts)
  {
  }

  lemma OptionalTermText(ts: seq<Term>, count: nat, unit: char)
    ensures SpacedTerms(ts + OptionalTerm(count > 0, count, unit)) == SpacedTerms(ts) + FieldText(count, [unit, ' '])
  {
    if count > 0 {
      var t := Term(count, unit);
      var u := ts + [t];
      assert u[..|u| - 1] == ts && u[|u| - 1] == t;
      assert TermText(t) + " " == FieldText(count, [unit, ' ']);
    } else {
      assert ts + [] == ts;
    }
  }

  /** The intended split cuts spaced terms into one piece per term. */
  lemma {:induction false} SplitSpaced(ts: seq<Term>)
    requires |ts| > 0
    ensures SplitBeforeDigits(SpacedTerms(ts)) == SpacedPieces(ts)
  {
    var init := ts[..|ts| - 1];
    var t := ts[|ts| - 1];
    var b := TermText(t) + " ";
    SpacedPieceWhole(t);
    if |init| == 0 {
      assert SpacedTerms(ts) == b;
      assert SpacedPieces(ts) == [b];
    } else {
      SplitSpaced(init);
      var a := SpacedTerms(init);
      SpacedFinalSpace(init);
      assert a[|a| - 1] == ' ';
      assert b[0] == NatToString(t.count)[0];
      SplitBeforeDigitsConcat(a, b);
    }
  }

  /** A term followed by a space is not cut. */
  lemma SpacedPieceWhole(t: Term)
    ensures SplitBeforeDigits(TermText(t) + " ") == [TermText(t) + " "]
  {
    var b := TermText(t) + " ";
    var digits := NatToString(t.count);
    forall j | 0 <= j < |b| - 1 ensures !(!IsDigit(b[j]) && IsDigit(b[j + 1])) {
      if j < |digits| {
        assert b[j] == digits[j];
      } else {
        assert b[j + 1] == ' ';
      }
    }
    SplitBeforeDigitsWhole(b);
  }

  /** The pieces of spaced text: a spaced piece per term but the last, which
      has no space after it. */
  lemma SplitSpacedText(ts: seq<Term>)
    requires |ts| > 0
    ensures SplitBeforeDigits(SpacedText(ts)) == SpacedPieces(ts[..|ts| - 1]) + [TermText(ts[|ts| - 1])]
  {
    var init := ts[..|ts| - 1];
    var t := ts[|ts| - 1];
    var b := TermText(t);
    TermTextWhole(t);
    SplitBeforeDigitsWhole(b);
    if |init| == 0 {
      assert SpacedText(ts) == b;
    } else {
      SplitSpaced(init);
      var a := SpacedTerms(init);
      SpacedFinalSpace(init);
      assert a[|a| - 1] == ' ';
      assert b[0] == NatToString(t.count)[0];
      SplitBeforeDigitsConcat(a, b);
    }
  }

  lemma {:induction false} TermsSecondsNonNegative(ts: seq<Term>)
    ensures TermsSeconds(ts) >= 0
  {
    if |ts| > 0 {
      TermsSecondsNonNegative(ts[..|ts| - 1]);
      TermSecondsAtLeastCount(ts[|ts| - 1]);
    }
  }

  /** A term adds the seconds it denotes. */
  lemma TermTextStep(total: int, t: Term)
    requires t.unit in UNIT_LETTERS && TermSeconds(t) <= LONG_MAX
    ensures Step(total, TermText(t)) == Wrap64(total + TermSeconds(t))
  {
    var s := TermText(t);
    assert s[0] == NatToString(t.count)[0] && IsDigit(s[0]);
    assert Trim(s) == s;
    TermPieceValue(t);
  }

  /** A term followed by a space adds the seconds the term denotes. */
  lemma TermSpacedStep(total: int, t: Term)
    requires t.unit in UNIT_LETTERS && TermSeconds(t) <= LONG_MAX
    ensures Step(total, TermText(t) + " ") == Wrap64(total + TermSeconds(t))
  {
    var s := TermText(t);
    assert s[0] == NatToString(t.count)[0] && IsDigit(s[0]);
    StepTrailingSpace(total, s);
    TermTextStep(total, t);
  }

  /** A trailing space does not change what a piece adds. */
  lemma StepTrailingSpace(total: int, x: string)
    requires |x| > 0 && x[0] > ' ' && x[|x| - 1] > ' '
    ensures Step(total, x + " ") == Step(total, x)
  {
    TrimFinalSpace(x);
  }

  /** The spaced pieces of terms that denote a long add up to it. */
  lemma {:induction false} TotalSpaced(ts: seq<Term>)
    requires UnitTerms(ts) && TermsSeconds(ts) <= LONG_MAX
    ensures TotalOf(SpacedPieces(ts)) == TermsSeconds(ts)
  {
    if |ts| > 0 {
      var init := ts[..|ts| - 1];
      var t := ts[|ts| - 1];
      assert UnitTerms(init) by {
        forall i | 0 <= i < |init| ensures init[i].unit in UNIT_LETTERS { assert init[i] == ts[i]; }
      }
      TermsSecondsNonNegative(init);
      TermSecondsAtLeastCount(t);
      TotalSpaced(init);
      TotalOfSnocAll(SpacedPieces(init), TermText(t) + " ");
      TermSpacedStep(TermsSeconds(init), t);
    } else {
      assert SpacedPieces(ts) == [];
    }
  }

  /** Terms separated by spaces, read with the intended split, give the
      seconds they denote. */
  lemma SpacedParse(ts: seq<Term>)
    requires |ts| > 0 && UnitTerms(ts) && TermsSeconds(ts) <= LONG_MAX
    ensures TotalOf(SplitBeforeDigits(SpacedText(ts))) == TermsSeconds(ts)
  {
    var init := ts[..|ts| - 1];
    var t := ts[|ts| - 1];
    assert UnitTerms(init) by {
      forall i | 0 <= i < |init| ensures init[i].unit in UNIT_LETTERS { assert init[i] == ts[i]; }
    }
    TermsSecondsNonNegative(init);
    TermSecondsAtLeastCount(t);
    var pieces := SpacedPieces(init);
    var before := TermsSeconds(init);
    SplitSpacedText(ts);
    TotalSpaced(init);
    TotalOfSnocAll(pieces, TermText(t));
    TermTextStep(before, t);
    assert TermsSeconds(ts) == before + TermSeconds(t);
  }

  /** Spaced text has no upper-case letter. */
  lemma {:induction false} SpacedTermsNoUpper(ts: seq<Term>)
    requires UnitTerms(ts)
    ensures forall i :: 0 <= i < |SpacedTerms(ts)| ==> !('A' <= SpacedTerms(ts)[i] <= 'Z')
  {
    if |ts| > 0 {
      var init := ts[..|ts| - 1];
      assert UnitTerms(init) by {
        forall i | 0 <= i < |init| ensures init[i].unit in UNIT_LETTERS { assert init[i] == ts[i]; }
      }
      SpacedTermsNoUpper(init);
      TermTextNoUpper(ts[|ts| - 1]);
    }
  }

  lemma TermTextNoUpper(t: Term)
    requires t.unit in UNIT_LETTERS
    ensures forall i :: 0 <= i < |TermText(t) + " "| ==> !('A' <= (TermText(t) + " ")[i] <= 'Z')
  {
    var digits := NatToString(t.count);
    forall i | 0 <= i < |TermText(t) + " "| ensures !('A' <= (TermText(t) + " ")[i] <= 'Z') {
      if i < |digits| {
        assert (TermText(t) + " ")[i] == digits[i];
      }
    }
  }

  lemma SpacedTextNoUpper(ts: seq<Term>)
    requires |ts| > 0 && UnitTerms(ts)
    ensures forall i :: 0 <= i < |SpacedText(ts)| ==> !('A' <= SpacedText(ts)[i] <= 'Z')
  {
    SpacedTermsNoUpper(ts);
    SpacedFinalSpace(ts);
    assert forall i :: 0 <= i < |SpacedText(ts)| ==> SpacedText(ts)[i] == SpacedTerms(ts)[i];
  }

  /** formatTime's text is already lower-case and trimmed. */
  lemma FormatTimeNormalised(seconds: int)
    requires seconds > 0
    ensures Normalised(FormatTime(seconds)) == FormatTime(seconds)
  {
    FormatTimeSpaced(seconds);
    SpacedNormalised(FormatTime(seconds), FormatTerms(seconds));
  }

  /** Spaced text that starts with a digit and ends with a unit is normalised. */
  lemma SpacedNormalised(r: string, ts: seq<Term>)
    requires |ts| > 0 && UnitTerms(ts) && r == SpacedText(ts)
    requires |r| > 0 && IsDigit(r[0]) && r[|r| - 1] in UNIT_LETTERS
    ensures Normalised(r) == r
  {
    SpacedTextNoUpper(ts);
    ToLowerNoUpper(r);
  }

  /** formatTime's text, read back with the intended split of parseTime,
      gives the seconds it was made from. */
  lemma FormatTimeParsesBack(seconds: int)
    requires 0 < seconds <= LONG_MAX
    ensures TotalOf(SplitBeforeDigits(Normalised(FormatTime(seconds)))) == seconds
  {
    FormatTimeSpaced(seconds);
    FormatTermsSeconds(seconds);
    FormatTimeNormalised(seconds);
    SpacedParse(FormatTerms(seconds));
  }

  // ---------------------------------------------------------------------
  // createProgressBar

  /** The number of completed cells: `(int) ((current * length) / total)`
      with long wrap-around and truncating division, clamped to [0, length]. */
  function CompletedCells(current: int, total: int, length: int): (c: int)
    requires total > 0
    ensures length >= 0 ==> 0 <= c <= length
    ensures length < 0 ==> c == 0
  {
    var raw := Wrap32(JavaDiv(Wrap64(current * length), total));
    Max(0, Min(raw, length))
  }

  /** `createProgressBar`: a non-positive total gives `length` remaining
      cells (a negative length there is the IllegalArgumentException of
      `String.repeat`, here None); otherwise the completed cells followed by
      the remaining ones. */
  method CreateProgressBar(current: int, total: int, length: int, completedChar: string, remainingChar: string)
    returns (bar: Option<string>)
    ensures total <= 0 && length < 0 <==> bar.None?
    ensures total <= 0 && length >= 0 ==> bar == Some(Repeat(remainingChar, length))
    ensures total > 0 ==>
      var c := CompletedCells(current, total, length);
      bar == Some(Repeat(completedChar, c) + Repeat(remainingChar, if length >= c then length - c else 0))
  {
    if total <= 0 {
      if length < 0 {
        return None;
      }
      return Some(Repeat(remainingChar, length));
    }
    var completed := CompletedCells(current, total, length);
    var sb := "";
    var i := 0;
    while i < completed
      invariant 0 <= i <= completed
      invariant sb == Repeat(completedChar, i)
    {
      RepeatSnoc(completedChar, i);
      sb := sb + completedChar;
      i := i + 1;
    }
    ghost var done := sb;
    i := completed;
    while i < length
      invariant completed <= i <= Max(completed, length)
      invariant sb == done + Repeat(remainingChar, i - completed)
    {
      RepeatSnoc(remainingChar, i - completed);
      sb := sb + remainingChar;
      i := i + 1;
    }
    return Some(sb);
  }

  lemma {:induction false} RepeatSnoc(s: string, n: nat)
    ensures Repeat(s, n + 1) == Repeat(s, n) + s
  {
    if n > 0 {
      RepeatSnoc(s, n - 1);
    }
  }

  /** A full bar: when current equals a positive total, every cell is
      completed. */
  lemma ProgressBarFull(total: int, length: int)
    requires total > 0 && 0 <= length <= INT_MAX && InLongRange(total * length)
    ensures CompletedCells(total, total, length) == length
  {
    MulDivCancel(length, total);
  }

  lemma MulDivCancel(a: nat, b: int)
    requires b > 0
    ensures (b * a) / b == a
  {
    var x := b * a;
    var q := x / b;
    var r := x % b;
    Distribute(q, a, b);
    assert (q - a) * b == -r;
    if q - a > 0 {
      ScaleAtLeast(q - a, b);
    } else if q - a < 0 {
      ScaleAtLeast(a - q, b);
      Distribute(a, q, b);
    }
  }

  lemma Distribute(p: int, q: int, b: int)
    ensures (p - q) * b == p * b - q * b
  {
  }

  lemma ScaleAtLeast(k: int, b: int)
    requires k >= 1 && b > 0
    ensures k * b >= b
  {
  }

  /** An empty bar: a non-positive current never completes a cell. */
  lemma ProgressBarEmpty(current: int, total: int, length: int)
    requires total > 0 && current <= 0 && length >= 0 && InIntRange(current * length)
    ensures CompletedCells(current, total, length) == 0
  {
    var x := current * length;
    assert x <= 0 by { NonPositiveProduct(current, length); }
    var q := JavaDiv(x, total);
    assert q == -((-x) / total);
    assert (-x) / total <= -x by {
      if -x > 0 {
        ScaleAtLeast(total, -x);
      }
      DivAtMost(-x, total, -x);
    }
  }

  lemma NonPositiveProduct(a: int, b: int)
    requires a <= 0 && b >= 0
    ensures a * b <= 0
  {
  }

  lemma DivAtMost(a: int, b: int, k: int)
    requires b > 0 && 0 <= a <= b * k
    ensures a / b <= k
  {
  }

  // ---------------------------------------------------------------------
  // elapsed time

  /** `hasTimePassed`: at least `duration` ms since `startTime`. */
  predicate HasTimePassed(startTime: int, duration: int, now: int)
  {
    now - startTime >= duration
  }

  /** Once the time has passed it stays passed. */
  lemma TimePassedPersists(startTime: int, duration: int, now: int, later: int)
    requires now <= later
    ensures HasTimePassed(startTime, duration, now) ==> HasTimePassed(startTime, duration, later)
    ensures HasTimePassed(startTime, duration, startTime + duration)
  {
  }

  /** `getRemainingTime`: the milliseconds still to wait, never negative. */
  function RemainingTime(startTime: int, duration: int, now: int): (r: int)
    ensures r >= 0
    ensures r == 0 <==> HasTimePassed(startTime, duration, now)
    ensures r > 0 ==> startTime + duration == now + r
  {
    Max(0, duration - (now - startTime))
  }

  /** `getRemainingTimeSeconds`: the same, in whole seconds. */
  function RemainingTimeSeconds(startTime: int, duration: int, now: int): (r: int)
    ensures r >= 0
    ensures r * 1000 <= RemainingTime(startTime, duration, now) < (r + 1) * 1000
  {
    RemainingTime(startTime, duration, now) / 1000
  }
}
