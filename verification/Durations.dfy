// The duration parser: a combined grammar ("1h30m") tried before a single component ("30 s").
// Durations are counted in nanoseconds. Floating-point arithmetic and the Unicode alphabet are parameters.

module Durations {
  import opened Common
  import opened Decimal
  import opened Text

  datatype Error = EmptyString | InvalidFormat | InvalidNumber | UnknownUnit | NegativeDuration

  /** Arithmetic on durations panics when the result does not fit. */
  datatype Parsed = Time(value: nat) | Refused(error: Error) | Panic

  /** The longest duration: 2^64 - 1 seconds and all but one of the nanoseconds of another. */
  const DURATION_MAX: nat := 1_000_000_000 * U64_MAX + 999_999_999

  datatype Unit = Millis | Seconds | Minutes | Hours

  /** `parses` says whether a text of digits and dots is a number, `whole` is its integral part and `nanos` the
      length of that many seconds, minutes or hours; `alphabetic` matters beyond ASCII. */
  datatype Library = Library(
    parses: string -> bool, whole: string -> nat, nanos: (string, Unit) -> nat, alphabetic: char -> bool)

  predicate NumChar(c: char) { '0' <= c <= '9' || c == '.' }

  /** `char::is_alphabetic`. */
  predicate Letter(f: Library, c: char) {
    'a' <= c <= 'z' || 'A' <= c <= 'Z' || (c as int >= 128 && !IsWhitespace(c) && f.alphabetic(c))
  }

  /** No unit means seconds. */
  function UnitOf(s: string): Option<Unit> {
    if s in {"ms", "millis", "millisecond", "milliseconds"} then Some(Millis)
    else if s in {"", "s", "sec", "secs", "second", "seconds"} then Some(Seconds)
    else if s in {"m", "min", "mins", "minute", "minutes"} then Some(Minutes)
    else if s in {"h", "hr", "hrs", "hour", "hours"} then Some(Hours)
    else None
  }

  /** Length of the longest prefix of number characters, or of letters. */
  function NumLen(s: string): (n: nat)
    ensures n <= |s| && (forall i :: 0 <= i < n ==> NumChar(s[i])) && (n < |s| ==> !NumChar(s[n]))
  {
    if s == [] || !NumChar(s[0]) then 0 else 1 + NumLen(s[1..])
  }

  function LetterLen(f: Library, s: string): (n: nat)
    ensures n <= |s| && (forall i :: 0 <= i < n ==> Letter(f, s[i])) && (n < |s| ==> !Letter(f, s[n]))
  {
    if s == [] || !Letter(f, s[0]) then 0 else 1 + LetterLen(f, s[1..])
  }

  /** That many units; milliseconds are cut to 64 bits, which always fit. */
  function Span(f: Library, num: string, u: Unit): (r: Parsed)
    ensures r.Time? ==> r.value <= DURATION_MAX
  {
    if u.Millis? then Time(1_000_000 * (if f.whole(num) < U64_MAX then f.whole(num) else U64_MAX))
    else if f.nanos(num, u) > DURATION_MAX then Panic
    else Time(f.nanos(num, u))
  }

  /** `parse_single_duration`. */
  function ParseSingle(f: Library, text: string): (r: Parsed)
    ensures r.Time? ==> r.value <= DURATION_MAX
  {
    var s := Trim(text);
    var num, unit := s[..NumLen(s)], Trim(s[NumLen(s)..]);
    if s != [] && s[0] == '-' then Refused(NegativeDuration)
    else if num == "" then Refused(InvalidFormat)
    else if !f.parses(num) then Refused(InvalidNumber)
    else
      match UnitOf(unit)
      case None => Refused(UnknownUnit)
      case Some(u) => Span(f, num, u)
  }

  /** The combined grammar: `num` holds the number read so far, `total` the components before it. */
  function Scan(f: Library, s: string, num: string, total: nat): Parsed
    decreases |s|
  {
    if s == [] then (if num != "" || total == 0 then Refused(InvalidFormat) else Time(total))
    else if NumChar(s[0]) then Scan(f, s[1..], num + [s[0]], total)
    else if Letter(f, s[0]) then
      if num == "" then Refused(InvalidFormat)
      else
        match ParseSingle(f, num + s[..LetterLen(f, s)])
        case Refused(e) => Refused(e)
        case Panic => Panic
        case Time(d) => if total + d > DURATION_MAX then Panic else Scan(f, s[LetterLen(f, s)..], "", total + d)
    else if IsWhitespace(s[0]) then Scan(f, s[1..], num, total)
    else Refused(InvalidFormat)
  }

  function ParseCombined(f: Library, text: string): Parsed { Scan(f, Trim(text), "", 0) }

  /** `parse_duration`. */
  function ParseDuration(f: Library, text: string): Parsed {
    var s := Trim(text);
    if s == "" then Refused(EmptyString)
    else
      var combined := ParseCombined(f, s);
      if combined.Refused? then ParseSingle(f, s) else combined
  }

  lemma LetterLenNext(f: Library, s: string, i: nat)
    requires i < |s| && Letter(f, s[i])
    ensures LetterLen(f, s[i..]) == 1 + LetterLen(f, s[i + 1..])
  {
    assert s[i..][1..] == s[i + 1..];
  }

  /** The inner loop that reads a whole unit. */
  method UnitFrom(f: Library, s: string, start: nat) returns (unit: string, end: nat)
    requires start <= |s|
    ensures end == start + LetterLen(f, s[start..]) <= |s| && unit == s[start..end]
  {
    hide LetterLen, Letter;
    unit, end := "", start;
    while end < |s| && Letter(f, s[end])
      invariant start <= end <= |s| && LetterLen(f, s[start..]) == (end - start) + LetterLen(f, s[end..]) && unit == s[start..end]
    {
      LetterLenNext(f, s, end);
      unit, end := unit + [s[end]], end + 1;
    }
  }

  /** The loop of `parse_combined_duration`. */
  method ParseCombinedLoop(f: Library, text: string) returns (r: Parsed)
    ensures r == ParseCombined(f, text)
  {
    hide ParseSingle, Trim, LetterLen;
    var s := Trim(text);
    var total: nat, num, i := 0, "", 0;
    assert s[0..] == s;
    while i < |s|
      invariant i <= |s| && Scan(f, s[i..], num, total) == Scan(f, s, "", 0)
      decreases |s| - i
    {
      var c := s[i];
      ghost var rest := s[i..];
      assert rest[0] == c && rest[1..] == s[i + 1..];
      if NumChar(c) {
        num, i := num + [c], i + 1;
      } else if Letter(f, c) {
        if num == "" {
          return Refused(InvalidFormat);
        }
        LetterLenPositive(f, rest);
        var unit, end := UnitFrom(f, s, i);
        assert rest[..end - i] == unit && rest[end - i..] == s[end..];
        var component := ParseSingle(f, num + unit);
        if !component.Time? {
          return component;
        }
        if total + component.value > DURATION_MAX {
          return Panic;
        }
        total, num, i := total + component.value, "", end;
      } else if IsWhitespace(c) {
        i := i + 1;
      } else {
        return Refused(InvalidFormat);
      }
    }
    if num != "" || total == 0 {
      return Refused(InvalidFormat);
    }
    return Time(total);
  }

  // ---------- Scanning pieces ----------

  lemma {:induction false} LetterLenAppend(f: Library, a: string, b: string)
    requires b == "" || !Letter(f, b[0])
    ensures LetterLen(f, a + b) == LetterLen(f, a)
  {
    if a == "" {
      assert a + b == b;
    } else {
      assert (a + b)[1..] == a[1..] + b;
      LetterLenAppend(f, a[1..], b);
    }
  }

  /** What follows an accepted text continues from its total. */
  lemma {:induction false} ScanAppend(f: Library, a: string, b: string, num: string, total: nat)
    requires Scan(f, a, num, total).Time? && (b == "" || !Letter(f, b[0]))
    ensures Scan(f, a + b, num, total) == Scan(f, b, "", Scan(f, a, num, total).value)
    decreases |a|
  {
    hide ParseSingle, LetterLen;
    if a == "" {
      assert a + b == b;
    } else {
      var s := a + b;
      assert s[0] == a[0] && s[1..] == a[1..] + b;
      if NumChar(a[0]) {
        ScanAppend(f, a[1..], b, num + [a[0]], total);
      } else if Letter(f, a[0]) {
        LetterLenAppend(f, a, b);
        LetterLenPositive(f, a);
        var n := LetterLen(f, a);
        assert s[..n] == a[..n] && s[n..] == a[n..] + b;
        ScanAppend(f, a[n..], b, "", total + ParseSingle(f, num + a[..n]).value);
      } else {
        ScanAppend(f, a[1..], b, num, total);
      }
    }
  }

  lemma LetterLenPositive(f: Library, s: string)
    requires s != "" && Letter(f, s[0])
    ensures LetterLen(f, s) > 0
  {
  }

  /** Totals only grow, and what is accepted fits. */
  lemma {:induction false} ScanBounds(f: Library, s: string, num: string, total: nat)
    requires total <= DURATION_MAX && Scan(f, s, num, total).Time?
    ensures total <= Scan(f, s, num, total).value <= DURATION_MAX
    decreases |s|
  {
    hide ParseSingle, LetterLen;
    if s != "" {
      if NumChar(s[0]) {
        ScanBounds(f, s[1..], num + [s[0]], total);
      } else if Letter(f, s[0]) {
        LetterLenPositive(f, s);
        var n := LetterLen(f, s);
        ScanBounds(f, s[n..], "", total + ParseSingle(f, num + s[..n]).value);
      } else {
        ScanBounds(f, s[1..], num, total);
      }
    }
  }

  /** The value `r` plus `more`, if that fits. */
  function Plus(r: Parsed, more: nat): Parsed
    requires r.Time?
  {
    if r.value + more > DURATION_MAX then Panic else Time(r.value + more)
  }

  /** A start value is simply added. */
  lemma {:induction false} ScanShift(f: Library, s: string, num: string, total: nat, more: nat)
    requires total + more <= DURATION_MAX && Scan(f, s, num, total).Time?
    ensures Scan(f, s, num, total + more) == Plus(Scan(f, s, num, total), more)
    decreases |s|
  {
    hide ParseSingle, LetterLen;
    if s != "" {
      if NumChar(s[0]) {
        ScanShift(f, s[1..], num + [s[0]], total, more);
      } else if Letter(f, s[0]) {
        LetterLenPositive(f, s);
        var n := LetterLen(f, s);
        var d := ParseSingle(f, num + s[..n]).value;
        assert total + d + more == total + more + d;
        if total + d + more <= DURATION_MAX {
          ScanShift(f, s[n..], "", total + d, more);
        } else {
          ScanBounds(f, s[n..], "", total + d);
        }
      } else {
        ScanShift(f, s[1..], num, total, more);
      }
    }
  }

  lemma {:induction false} ScanTrimStart(f: Library, s: string, num: string, total: nat)
    ensures Scan(f, TrimStart(s), num, total) == Scan(f, s, num, total)
  {
    hide ParseSingle;
    if s != "" && IsWhitespace(s[0]) {
      ScanTrimStart(f, s[1..], num, total);
    }
  }

  lemma {:induction false} ScanSpaceLast(f: Library, s: string, c: char, num: string, total: nat)
    requires IsWhitespace(c)
    ensures Scan(f, s + [c], num, total) == Scan(f, s, num, total)
    decreases |s|
  {
    hide ParseSingle, LetterLen;
    var t := s + [c];
    if s == "" {
      assert t[1..] == "";
    } else {
      assert t[0] == s[0] && t[1..] == s[1..] + [c];
      if NumChar(s[0]) {
        ScanSpaceLast(f, s[1..], c, num + [s[0]], total);
      } else if Letter(f, s[0]) {
        LetterLenAppend(f, s, [c]);
        LetterLenPositive(f, s);
        var n := LetterLen(f, s);
        assert t[..n] == s[..n] && t[n..] == s[n..] + [c];
        var d := ParseSingle(f, num + s[..n]);
        if num != "" && d.Time? && total + d.value <= DURATION_MAX {
          ScanSpaceLast(f, s[n..], c, "", total + d.value);
        }
      } else if IsWhitespace(s[0]) {
        ScanSpaceLast(f, s[1..], c, num, total);
      }
    }
  }

  lemma {:induction false} ScanTrimEnd(f: Library, s: string, num: string, total: nat)
    ensures Scan(f, TrimEnd(s), num, total) == Scan(f, s, num, total)
  {
    hide Scan;
    if s != "" && IsWhitespace(s[|s| - 1]) {
      ScanTrimEnd(f, s[..|s| - 1], num, total);
      ScanSpaceLast(f, s[..|s| - 1], s[|s| - 1], num, total);
      assert s[..|s| - 1] + [s[|s| - 1]] == s;
    }
  }

  /** Surrounding white space means nothing to the combined grammar. */
  lemma ScanTrim(f: Library, s: string, num: string, total: nat)
    ensures Scan(f, Trim(s), num, total) == Scan(f, s, num, total)
  {
    hide Scan;
    ScanTrimStart(f, s, num, total);
    ScanTrimEnd(f, TrimStart(s), num, total);
  }

  lemma {:induction false} ScanNumber(f: Library, digits: string, rest: string, num: string, total: nat)
    requires forall i :: 0 <= i < |digits| ==> NumChar(digits[i])
    ensures Scan(f, digits + rest, num, total) == Scan(f, rest, num + digits, total)
  {
    hide ParseSingle;
    if digits == "" {
      assert digits + rest == rest && num + digits == num;
    } else {
      var s := digits + rest;
      assert s[0] == digits[0] && s[1..] == digits[1..] + rest;
      ScanNumber(f, digits[1..], rest, num + [digits[0]], total);
      assert num + [digits[0]] + digits[1..] == num + digits;
    }
  }

  // ---------- Concatenation ----------

  /** The combined grammar turns concatenation into addition, exactly as far as the sum fits a duration. */
  lemma Concatenation(f: Library, a: string, b: string)
    requires ParseCombined(f, a).Time? && ParseCombined(f, b).Time?
    ensures var sum := ParseCombined(f, a).value + ParseCombined(f, b).value;
      var both := if sum <= DURATION_MAX then Time(sum) else Panic;
      ParseCombined(f, a + b) == both && ParseDuration(f, a + b) == both
  {
    hide Scan, Trim;
    ScanTrim(f, a, "", 0);
    ScanTrim(f, b, "", 0);
    ScanTrim(f, a + b, "", 0);
    StartsWell(f, b);
    ScanAppend(f, a, b, "", 0);
    var x := ParseCombined(f, a).value;
    ScanBounds(f, a, "", 0);
    ScanShift(f, b, "", 0, x);
    StartsWell(f, Trim(a + b));
    ScanTrim(f, Trim(a + b), "", 0);
  }

  lemma StartsWell(f: Library, s: string)
    requires !Scan(f, s, "", 0).Refused?
    ensures s != "" && !Letter(f, s[0])
  {
    hide ParseSingle;
  }

  // ---------- One component ----------

  predicate Number(num: string) { num != "" && forall i :: 0 <= i < |num| ==> NumChar(num[i]) }

  predicate Word(f: Library, unit: string) { forall i :: 0 <= i < |unit| ==> Letter(f, unit[i]) }

  lemma TrimNone(s: string)
    requires s != "" ==> !IsWhitespace(s[0]) && !IsWhitespace(s[|s| - 1])
    ensures Trim(s) == s
  {
  }

  lemma {:induction false} NumLenOf(num: string, rest: string)
    requires forall i :: 0 <= i < |num| ==> NumChar(num[i])
    requires rest == "" || !NumChar(rest[0])
    ensures NumLen(num + rest) == |num|
  {
    if num == "" {
      assert num + rest == rest;
    } else {
      assert (num + rest)[1..] == num[1..] + rest;
      NumLenOf(num[1..], rest);
    }
  }

  lemma UnitsAreWords(f: Library, unit: string)
    requires UnitOf(unit).Some?
    ensures Word(f, unit)
  {
  }

  /** What the single grammar makes of a number and what directly follows it. */
  lemma SingleOf(f: Library, num: string, rest: string)
    requires Number(num) && (rest != "" ==> !NumChar(rest[0]) && !IsWhitespace(rest[0]) && !IsWhitespace(rest[|rest| - 1]))
    ensures ParseSingle(f, num + rest) ==
      if !f.parses(num) then Refused(InvalidNumber) else if UnitOf(rest).None? then Refused(UnknownUnit)
      else Span(f, num, UnitOf(rest).value)
  {
    hide UnitOf, Span;
    var s := num + rest;
    assert s[0] == num[0] && s[|s| - 1] == if rest == "" then num[|num| - 1] else rest[|rest| - 1];
    TrimNone(s);
    TrimNone(rest);
    NumLenOf(num, rest);
    assert s[..|num|] == num && s[|num|..] == rest;
  }

  lemma {:induction false} LetterLenOfWord(f: Library, s: string)
    requires Word(f, s)
    ensures LetterLen(f, s) == |s|
  {
    if s != "" {
      LetterLenOfWord(f, s[1..]);
    }
  }

  /** The combined grammar on a number followed by letters: the single grammar, except that zero is refused. */
  lemma CombinedOf(f: Library, num: string, unit: string)
    requires Number(num) && Word(f, unit)
    ensures var single := ParseSingle(f, num + unit);
      Scan(f, unit, num, 0) == if unit == "" || single == Time(0) then Refused(InvalidFormat) else single
  {
    hide ParseSingle;
    if unit != "" {
      LetterLenOfWord(f, unit);
      assert unit[..|unit|] == unit && unit[|unit|..] == "";
    }
  }

  /** On a number followed by letters, accepted or not, the two grammars together are the single one. */
  lemma SingleComponent(f: Library, num: string, unit: string)
    requires Number(num) && Word(f, unit)
    ensures ParseDuration(f, num + unit) == ParseSingle(f, num + unit)
  {
    hide ParseSingle;
    var s := num + unit;
    assert s[0] == num[0] && s[|s| - 1] == if unit == "" then num[|num| - 1] else unit[|unit| - 1];
    TrimNone(s);
    ScanNumber(f, num, unit, "", 0);
    assert "" + num == num;
    CombinedOf(f, num, unit);
  }

  /** One component panics exactly when that many seconds, minutes or hours are more than a duration holds. */
  lemma SinglePanicsIff(f: Library, num: string, unit: string)
    requires Number(num) && Word(f, unit)
    ensures ParseDuration(f, num + unit) == Panic <==>
      f.parses(num) && UnitOf(unit).Some? && !UnitOf(unit).value.Millis? && f.nanos(num, UnitOf(unit).value) > DURATION_MAX
  {
    hide UnitOf, ParseDuration, ParseSingle, IsWhitespace;
    SingleComponent(f, num, unit);
    if unit != "" {
      LettersAreNotSpace(f, unit[0]);
      LettersAreNotSpace(f, unit[|unit| - 1]);
    }
    SingleOf(f, num, unit);
  }

  /** Whatever the single grammar accepts or panics on, also with white space before the unit, the parser does alike. */
  lemma SingleAccepted(f: Library, text: string)
    requires !ParseSingle(f, text).Refused?
    ensures ParseDuration(f, text) == ParseSingle(f, text)
  {
    hide UnitOf, Scan, Trim;
    var s := Trim(text);
    var num, rest := s[..NumLen(s)], s[NumLen(s)..];
    var unit := Trim(rest);
    UnitsAreWords(f, unit);
    SingleOf(f, num, unit);
    TrimNone(s);
    assert num + rest == s && "" + num == num;
    ScanNumber(f, num, rest, "", 0);
    ScanTrim(f, rest, num, 0);
    CombinedOf(f, num, unit);
  }

  // ---------- Printed durations ----------

  datatype Component = Component(amount: nat, unit: Unit)

  function UnitName(u: Unit): string {
    match u case Millis => "ms" case Seconds => "s" case Minutes => "m" case Hours => "h"
  }

  function Length(c: Component): nat {
    match c.unit
    case Millis => 1_000_000 * c.amount
    case Seconds => 1_000_000_000 * c.amount
    case Minutes => 60_000_000_000 * c.amount
    case Hours => 3_600_000_000_000 * c.amount
  }

  function Total(cs: seq<Component>): nat { if cs == [] then 0 else Length(cs[0]) + Total(cs[1..]) }

  function PrintOne(c: Component): string { Print(c.amount) + UnitName(c.unit) }

  function PrintAll(cs: seq<Component>): string { if cs == [] then "" else PrintOne(cs[0]) + PrintAll(cs[1..]) }

  function Pow2(e: nat): nat { if e == 0 then 1 else 2 * Pow2(e - 1) }

  /** A whole number that a double holds: at most 53 significant bits. */
  ghost predicate Double(n: nat) { exists m: nat, e: nat :: m <= 0x20_0000_0000_0000 && n == Shifted(m, e) }

  function Shifted(m: nat, e: nat): nat { m * Pow2(e) }

  /** The amount, in seconds where it is not milliseconds, is a double. */
  ghost predicate Representable(c: Component) {
    Double(c.amount) && (c.unit.Minutes? ==> Double(60 * c.amount)) && (c.unit.Hours? ==> Double(3600 * c.amount))
  }

  /** Arithmetic is exact on representable whole amounts. */
  ghost predicate ExactOn(f: Library, c: Component) {
    f.parses(Print(c.amount)) &&
    if c.unit.Millis? then f.whole(Print(c.amount)) == c.amount else f.nanos(Print(c.amount), c.unit) == Length(c)
  }

  ghost predicate Exact(f: Library) { forall c: Component :: Representable(c) ==> ExactOn(f, c) }

  /** What is read of a component: milliseconds beyond 64 bits are cut off. */
  predicate Whole(c: Component) { c.unit.Millis? ==> c.amount <= U64_MAX }

  function Read(c: Component): nat { if Whole(c) then Length(c) else 1_000_000 * U64_MAX }

  function ReadTotal(cs: seq<Component>): nat { if cs == [] then 0 else Read(cs[0]) + ReadTotal(cs[1..]) }

  lemma {:induction false} ReadTotalIff(cs: seq<Component>)
    ensures ReadTotal(cs) <= Total(cs)
    ensures ReadTotal(cs) == Total(cs) <==> forall i :: 0 <= i < |cs| ==> Whole(cs[i])
  {
    if cs != [] {
      ReadTotalIff(cs[1..]);
      if ReadTotal(cs) == Total(cs) {
        forall i | 0 <= i < |cs| ensures Whole(cs[i]) {
          assert i > 0 ==> cs[i] == cs[1..][i - 1];
        }
      }
    }
  }

  lemma PrintedNumber(n: nat)
    ensures Number(Print(n))
  {
    assert forall i :: 0 <= i < |Print(n)| ==> IsDigit(Print(n)[i]);
  }

  lemma NameIsUnit(f: Library, u: Unit)
    ensures UnitOf(UnitName(u)) == Some(u) && UnitName(u) != "" && Word(f, UnitName(u))
  {
  }

  lemma PrintedSingle(f: Library, c: Component)
    requires ExactOn(f, c)
    ensures ParseSingle(f, PrintOne(c)) == Plus(Time(0), Read(c))
  {
    PrintedNumber(c.amount);
    NameIsUnit(f, c.unit);
    hide UnitOf, UnitName;
    SingleOf(f, Print(c.amount), UnitName(c.unit));
  }

  lemma ScanUnit(f: Library, num: string, unit: string, rest: string, total: nat)
    requires num != "" && unit != "" && Word(f, unit) && (rest != "" ==> !Letter(f, rest[0]))
    requires !ParseSingle(f, num + unit).Refused?
    ensures var d := ParseSingle(f, num + unit);
      Scan(f, unit + rest, num, total) ==
        if d.Panic? || total + d.value > DURATION_MAX then Panic else Scan(f, rest, "", total + d.value)
  {
    hide ParseSingle, LetterLen;
    var s := unit + rest;
    LetterLenAppend(f, unit, rest);
    LetterLenOfWord(f, unit);
    assert s[0] == unit[0] && s[..|unit|] == unit && s[|unit|..] == rest;
  }

  /** A printed component adds its length. */
  lemma ScanPrinted(f: Library, c: Component, rest: string, total: nat)
    requires ExactOn(f, c) && (rest != "" ==> !Letter(f, rest[0]))
    ensures Scan(f, PrintOne(c) + rest, "", total) ==
      if total + Read(c) > DURATION_MAX then Panic else Scan(f, rest, "", total + Read(c))
  {
    hide ParseSingle, UnitName, Print, ExactOn, Length, Scan, UnitOf, Read, Letter;
    var num, unit := Print(c.amount), UnitName(c.unit);
    PrintedSingle(f, c);
    PrintedNumber(c.amount);
    NameIsUnit(f, c.unit);
    ScanNumber(f, num, unit + rest, "", total);
    assert PrintOne(c) + rest == num + (unit + rest) && "" + num == num;
    ScanUnit(f, num, unit, rest, total);
  }

  lemma PrintedOneEnds(f: Library, c: Component)
    ensures var s := PrintOne(c); s != "" && IsDigit(s[0]) && Letter(f, s[|s| - 1])
  {
    hide Print;
    NameIsUnit(f, c.unit);
    assert IsDigit(Print(c.amount)[0]);
  }

  lemma EndsTrimmed(f: Library, s: string)
    requires s != "" && IsDigit(s[0]) && Letter(f, s[|s| - 1])
    ensures Trim(s) == s
  {
    TrimNone(s);
  }

  /** Printed text starts with a digit, ends with a letter, and needs no trimming. */
  lemma {:induction false} PrintedEnds(f: Library, cs: seq<Component>)
    requires cs != []
    ensures var s := PrintAll(cs); s != "" && IsDigit(s[0]) && Letter(f, s[|s| - 1]) && Trim(s) == s
  {
    hide PrintOne, Trim;
    PrintedOneEnds(f, cs[0]);
    if |cs| > 1 {
      PrintedEnds(f, cs[1..]);
    }
    EndsTrimmed(f, PrintAll(cs));
  }

  /** A total, as the combined grammar ends with it. */
  function Summed(total: nat): Parsed {
    if total > DURATION_MAX then Panic else if total == 0 then Refused(InvalidFormat) else Time(total)
  }

  lemma {:induction false} ScanPrintedAll(f: Library, cs: seq<Component>, total: nat)
    requires total <= DURATION_MAX && forall i :: 0 <= i < |cs| ==> ExactOn(f, cs[i])
    ensures Scan(f, PrintAll(cs), "", total) == Summed(total + ReadTotal(cs))
  {
    hide ParseSingle, ExactOn, PrintOne, Read, Letter;
    if cs != [] {
      var rest := PrintAll(cs[1..]);
      if cs[1..] != [] {
        PrintedEnds(f, cs[1..]);
        DigitsAreNotLetters(f, rest[0]);
      }
      ScanPrinted(f, cs[0], rest, total);
      if total + Read(cs[0]) <= DURATION_MAX {
        ScanPrintedAll(f, cs[1..], total + Read(cs[0]));
      }
    }
  }

  lemma DigitsAreNotLetters(f: Library, c: char)
    requires IsDigit(c)
    ensures !Letter(f, c)
  {
  }

  /** What the parser makes of printed hours, minutes, seconds and milliseconds, in any order and number. */
  lemma PrintedResult(f: Library, cs: seq<Component>)
    requires Exact(f) && cs != [] && forall i :: 0 <= i < |cs| ==> Representable(cs[i])
    ensures var r := ParseDuration(f, PrintAll(cs));
      if ReadTotal(cs) == 0 && |cs| > 1 then r.Refused? else r == Plus(Time(0), ReadTotal(cs))
  {
    hide ExactOn, Representable, Read, Scan, ParseSingle, Trim, PrintOne, PrintAll, ReadTotal, Letter;
    assert forall i :: 0 <= i < |cs| ==> ExactOn(f, cs[i]);
    PrintedEnds(f, cs);
    ScanPrintedAll(f, cs, 0);
    if ReadTotal(cs) == 0 {
      if |cs| == 1 {
        PrintedSingle(f, cs[0]);
        JustOne(cs);
      } else {
        SeveralAreNotSingle(f, cs);
      }
    }
  }

  /** They are read back exactly, unless they are several and all zero, or do not fit: milliseconds 64 bits, and
      the sum a duration. In the last case, and only then, the parser panics. */
  lemma PrintedRoundTrip(f: Library, cs: seq<Component>)
    requires Exact(f) && cs != [] && forall i :: 0 <= i < |cs| ==> Representable(cs[i])
    ensures ParseDuration(f, PrintAll(cs)) == Time(Total(cs)) <==>
      (Total(cs) > 0 || |cs| == 1) && Total(cs) <= DURATION_MAX && forall i :: 0 <= i < |cs| ==> Whole(cs[i])
    ensures ParseDuration(f, PrintAll(cs)) == Panic <==> ReadTotal(cs) > DURATION_MAX
  {
    hide Exact, Representable, Length, Read, Scan, ParseSingle, ParseDuration, PrintOne, PrintAll, ReadTotal, Total, Whole;
    PrintedResult(f, cs);
    ReadTotalIff(cs);
  }

  lemma JustOne(cs: seq<Component>)
    requires |cs| == 1
    ensures PrintAll(cs) == PrintOne(cs[0]) && ReadTotal(cs) == Read(cs[0])
  {
    hide PrintOne, Read;
    assert PrintOne(cs[0]) + "" == PrintOne(cs[0]);
  }

  /** The single grammar does not read two components. */
  lemma SeveralAreNotSingle(f: Library, cs: seq<Component>)
    requires |cs| > 1
    ensures ParseSingle(f, PrintAll(cs)).Refused?
  {
    hide UnitOf, UnitName, Print, ParseSingle, Trim, IsWhitespace;
    var num, name, more := Print(cs[0].amount), UnitName(cs[0].unit), PrintAll(cs[1..]);
    PrintedNumber(cs[0].amount);
    NameIsUnit(f, cs[0].unit);
    PrintedEnds(f, cs[1..]);
    var rest := name + more;
    assert PrintAll(cs) == num + rest;
    assert rest[0] == name[0] && rest[|rest| - 1] == more[|more| - 1] && rest[|name|] == more[0];
    LettersAreNotSpace(f, rest[0]);
    LettersAreNotSpace(f, rest[|rest| - 1]);
    SingleOf(f, num, rest);
    if UnitOf(rest).Some? {
      UnitsAreWords(f, rest);
    }
  }

  lemma LettersAreNotSpace(f: Library, c: char)
    requires Letter(f, c)
    ensures !IsWhitespace(c)
  {
  }

  // ---------- Where the guarantees stop ----------

  lemma EightMore(e: nat)
    ensures Pow2(e + 8) == 0x100 * Pow2(e)
  {
    assert Pow2(e + 2) == 4 * Pow2(e) && Pow2(e + 4) == 4 * Pow2(e + 2);
    assert Pow2(e + 6) == 4 * Pow2(e + 4) && Pow2(e + 8) == 4 * Pow2(e + 6);
  }

  lemma SmallIsDouble(n: nat)
    requires n <= 0x20_0000_0000_0000
    ensures Double(n)
  {
    assert n == Shifted(n, 0);
  }

  lemma ZeroTexts()
    ensures PrintAll([Component(0, Hours)]) == "0h" && PrintAll([Component(0, Hours), Component(0, Minutes)]) == "0h0m"
  {
    var hours, minutes := Component(0, Hours), Component(0, Minutes);
    assert PrintOne(hours) == "0h" && PrintOne(minutes) == "0m";
    assert [hours][1..] == [] && [hours, minutes][1..] == [minutes] && [minutes][1..] == [];
    assert PrintAll([hours]) == PrintOne(hours) + "" == "0h";
    assert PrintAll([minutes]) == PrintOne(minutes) + "" == "0m";
    assert PrintAll([hours, minutes]) == PrintOne(hours) + PrintAll([minutes]) == "0h0m";
  }

  /** "0h" is read as zero, "0h0m" is refused. */
  lemma ZeroesRefused(f: Library)
    requires Exact(f)
    ensures ParseDuration(f, "0h") == Time(0) && ParseDuration(f, "0h0m").Refused?
  {
    hide Exact, ParseDuration, PrintAll;
    ZeroTexts();
    SmallIsDouble(0);
    var hours, minutes := Component(0, Hours), Component(0, Minutes);
    assert [hours, minutes][1..] == [minutes];
    PrintedResult(f, [hours]);
    PrintedResult(f, [hours, minutes]);
  }

  lemma OneComponent(f: Library, c: Component)
    requires Exact(f) && Representable(c)
    ensures ParseDuration(f, PrintOne(c)) == Plus(Time(0), Read(c))
  {
    hide Exact, ParseDuration, Representable, Read, PrintOne;
    JustOne([c]);
    PrintedResult(f, [c]);
  }

  lemma TwoComponents(f: Library, c: Component)
    requires Exact(f) && Representable(c) && Read(c) > 0
    ensures ParseDuration(f, PrintOne(c) + PrintOne(c)) == Plus(Time(0), 2 * Read(c))
  {
    hide Exact, ParseDuration, Representable, Read, PrintOne;
    JustOne([c]);
    assert [c, c][1..] == [c];
    PrintedResult(f, [c, c]);
  }

  lemma TenToNineteen()
    ensures Double(10_000_000_000_000_000_000)
  {
    EightMore(3);
    EightMore(11);
    assert 10_000_000_000_000_000_000 == Shifted(19_073_486_328_125, 19);
  }

  lemma TenToTwenty()
    ensures Double(100_000_000_000_000_000_000)
  {
    EightMore(4);
    EightMore(12);
    assert 100_000_000_000_000_000_000 == Shifted(95_367_431_640_625, 20);
  }

  /** 10^20 seconds are more than a duration holds, and the parser panics. */
  lemma OneTooLong(f: Library)
    requires Exact(f)
    ensures ParseDuration(f, PrintOne(Component(100_000_000_000_000_000_000, Seconds))) == Panic
  {
    hide Exact, ParseDuration, PrintOne, Double;
    TenToTwenty();
    OneComponent(f, Component(100_000_000_000_000_000_000, Seconds));
  }

  /** 10^19 seconds fit a duration; written twice they are accepted by the grammar, and the sum panics. */
  lemma TwiceTooLong(f: Library)
    requires Exact(f)
    ensures var half := PrintOne(Component(10_000_000_000_000_000_000, Seconds));
      ParseDuration(f, half) == Time(10_000_000_000_000_000_000_000_000_000) && ParseDuration(f, half + half) == Panic
  {
    hide Exact, ParseDuration, PrintOne, Double;
    var c := Component(10_000_000_000_000_000_000, Seconds);
    TenToNineteen();
    OneComponent(f, c);
    TwoComponents(f, c);
  }

  lemma TwoToSixtyFour()
    ensures Double(U64_MAX + 1)
  {
    hide Pow2;
    SixtyFour();
    assert U64_MAX + 1 == Shifted(1, 64);
  }

  lemma EightBits()
    ensures Pow2(8) == 0x100
  {
    EightMore(0);
  }

  lemma SixtyFour()
    ensures Pow2(64) == U64_MAX + 1
  {
    hide Pow2;
    EightBits();
    EightMore(8);
    EightMore(16);
    EightMore(24);
    EightMore(32);
    EightMore(40);
    EightMore(48);
    EightMore(56);
  }

  /** 2^64 milliseconds fit a duration, and are read as one millisecond less. */
  lemma MillisCutOff(f: Library)
    requires Exact(f)
    ensures var c := Component(U64_MAX + 1, Millis);
      Length(c) <= DURATION_MAX && ParseDuration(f, PrintOne(c)) == Time(Length(c) - 1_000_000)
  {
    hide Exact, ParseDuration, PrintOne, Double;
    TwoToSixtyFour();
    OneComponent(f, Component(U64_MAX + 1, Millis));
  }
}
