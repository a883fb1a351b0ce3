/**
  * radish/utils.py: `TimeTaken`, a duration that adds, subtracts and compares with other
  * durations and with plain numbers of seconds, and prints itself in English
  * ("1 hour, 1 minute, and 2.19 seconds").
  *
  * A duration is what `datetime.timedelta` holds: a whole number of microseconds, possibly
  * negative. A Python number of seconds is modelled as an exact `real`; `timedelta(seconds=x)`
  * rounds it to the nearest microsecond, ties to even. Python's integer `//` and `%` floor,
  * which is what Dafny's `/` and `%` do for a positive divisor, so the `divmod` steps of
  * `__str__` are written with them.
  */
module Durations {
  import opened Wrappers
  import opened Results
  import Text

  /** `TimeTaken(elapsed_time)`: the elapsed time in microseconds. */
  datatype TimeTaken = TimeTaken(micros: int)

  /**
    * The right-hand operand of `+`, `-` and `==`: another `TimeTaken` (anything with an
    * `elapsed_time`), an `int` or `float` of seconds, a `timedelta`, or any other object,
    * named by its type.
    */
  datatype Operand = Taken(t: TimeTaken) | Seconds(x: real) | Delta(micros: int) | Other(typeName: string)

  /** Rounds to the nearest integer, a tie to the even neighbour: how `timedelta` and `round` settle ties. */
  function RoundHalfEven(x: real): (r: int)
    ensures x - 0.5 <= r as real <= x + 0.5
    ensures (r as real == x - 0.5 || r as real == x + 0.5) ==> r % 2 == 0
    ensures x == x.Floor as real ==> r == x.Floor
  {
    var f := x.Floor;
    var frac := x - f as real;
    if frac < 0.5 then f
    else if frac > 0.5 then f + 1
    else if f % 2 == 0 then f
    else f + 1
  }

  /** `timedelta(seconds=x)`: a number of seconds to microseconds. */
  function FromSeconds(x: real): (t: TimeTaken)
    ensures x * 1000000.0 - 0.5 <= t.micros as real <= x * 1000000.0 + 0.5
  {
    TimeTaken(RoundHalfEven(x * 1000000.0))
  }

  /** The message `timedelta` gives for an operand it cannot combine with. */
  function Unsupported(op: string, typeName: string): PyError
  {
    TypeError("unsupported operand type(s) for " + op + ": 'datetime.timedelta' and '" + typeName + "'")
  }

  /** The operand as a duration: numbers are seconds; anything else has none. */
  function AsDuration(o: Operand): (r: Option<int>)
    ensures r.None? <==> o.Other?
  {
    match o
    case Taken(t) => Some(t.micros)
    case Seconds(x) => Some(FromSeconds(x).micros)
    case Delta(micros) => Some(micros)
    case Other(_) => None
  }

  /**
    * `__sub__`: this duration less the operand's, or TypeError when the operand is not a
    * duration or a number.
    */
  function Sub(a: TimeTaken, o: Operand): (r: Result<TimeTaken, PyError>)
    ensures o.Other? <==> r.Failure?
    ensures r.Failure? ==> r.error == Unsupported("-", o.typeName)
    ensures o.Taken? ==> r == Success(TimeTaken(a.micros - o.t.micros))
    ensures o.Seconds? ==> r == Success(TimeTaken(a.micros - FromSeconds(o.x).micros))
    ensures o.Delta? ==> r == Success(TimeTaken(a.micros - o.micros))
  {
    match AsDuration(o)
    case Some(d) => Success(TimeTaken(a.micros - d))
    case None => Failure(Unsupported("-", o.typeName))
  }

  /**
    * `__add__`: the sum of the two durations, a number taken as seconds, or TypeError when
    * the operand is neither. Subtracting the same operand again gives back `a`.
    */
  function Add(a: TimeTaken, o: Operand): (r: Result<TimeTaken, PyError>)
    ensures o.Other? <==> r.Failure?
    ensures r.Failure? ==> r.error == Unsupported("+", o.typeName)
    ensures o.Taken? ==> r == Success(TimeTaken(a.micros + o.t.micros))
    ensures o.Seconds? ==> r == Success(TimeTaken(a.micros + FromSeconds(o.x).micros))
    ensures o.Delta? ==> r == Success(TimeTaken(a.micros + o.micros))
    ensures r.Success? ==> Sub(r.value, o) == Success(a)
  {
    match AsDuration(o)
    case Some(d) => Success(TimeTaken(a.micros + d))
    case None => Failure(Unsupported("+", o.typeName))
  }

  /**
    * `__eq__`: equal elapsed times, a number taken as seconds; never equal to anything
    * else. Equality is exactly a zero difference.
    */
  function Eq(a: TimeTaken, o: Operand): (r: bool)
    ensures o.Other? ==> !r
    ensures !o.Other? ==> (r <==> Sub(a, o) == Success(TimeTaken(0)))
    ensures o.Taken? ==> (r <==> a == o.t)
  {
    match AsDuration(o)
    case Some(d) => a.micros == d
    case None => false
  }

  /** Adding durations does not depend on their order, and a number of seconds adds as its duration. */
  lemma AddCommutes(a: TimeTaken, b: TimeTaken, x: real)
    ensures Add(a, Taken(b)) == Add(b, Taken(a))
    ensures Add(a, Seconds(x)) == Add(a, Taken(FromSeconds(x)))
    ensures Eq(a, Seconds(x)) == Eq(a, Taken(FromSeconds(x)))
  {
  }

  /**
    * The arithmetic and equality the tests exercise. An int and a float of seconds are both
    * `Seconds`, so `TimeTaken(2) - 1` and `TimeTaken(2) - 1.0` are one case here.
    */
  lemma ArithmeticExamples()
    ensures Add(FromSeconds(1.0), Taken(FromSeconds(1.0))) == Success(FromSeconds(2.0))
    ensures Add(FromSeconds(1.0), Seconds(1.0)) == Success(FromSeconds(2.0))
    ensures Sub(FromSeconds(2.0), Taken(FromSeconds(1.0))) == Success(FromSeconds(1.0))
    ensures Sub(FromSeconds(2.0), Seconds(1.0)) == Success(FromSeconds(1.0))
    ensures Sub(FromSeconds(1.0), Other("str")).Failure?
    ensures Eq(FromSeconds(1.0), Taken(FromSeconds(1.0)))
    ensures Add(FromSeconds(1.0), Other("str")).Failure?
    ensures Eq(FromSeconds(2.0), Seconds(2.0)) && !Eq(FromSeconds(2.3), Seconds(2.0)) && Eq(FromSeconds(2.3), Seconds(2.3))
    ensures !Eq(FromSeconds(1.0), Other("str"))
  {
  }

  /** The `divmod` steps of `__str__`: whole hours, whole minutes, and the microseconds left. */
  datatype Parts = Parts(hours: int, minutes: int, micros: int)

  const MicrosPerHour := 3600000000
  const MicrosPerMinute := 60000000

  /**
    * `divmod(total_seconds, 3600)` then `divmod(seconds, 60)`: the parts add back up to the
    * duration, the minutes are below 60 and the seconds below 60 (also when the duration is
    * negative: then only the hours are).
    */
  function Decompose(micros: int): (p: Parts)
    ensures micros == p.hours * MicrosPerHour + p.minutes * MicrosPerMinute + p.micros
    ensures 0 <= p.minutes < 60 && 0 <= p.micros < MicrosPerMinute
    ensures micros >= 0 ==> p.hours >= 0
  {
    var rest := micros % MicrosPerHour;
    Parts(micros / MicrosPerHour, rest / MicrosPerMinute, rest % MicrosPerMinute)
  }

  /** A value `_pluralize` is given: a whole number of hours or minutes, or seconds rounded to milliseconds. */
  datatype Quantity = Whole(n: int) | Millis(ms: nat)

  /** The quantity's numeric value. */
  function Value(q: Quantity): real
  {
    match q
    case Whole(n) => n as real
    case Millis(ms) => ms as real / 1000.0
  }

  /**
    * The digits after the point for `k` thousandths, as the shortest `repr` of a float
    * writes them: trailing zeros dropped, but at least one digit.
    */
  function Fraction(k: nat): (f: string)
    requires k < 1000
    ensures 1 <= |f| <= 3 && Text.AllDigits(f)
    ensures f[|f| - 1] != '0' || f == "0"
  {
    if k % 100 == 0 then [Text.DigitChar(k / 100)]
    else if k % 10 == 0 then [Text.DigitChar(k / 100), Text.DigitChar(k / 10 % 10)]
    else [Text.DigitChar(k / 100), Text.DigitChar(k / 10 % 10), Text.DigitChar(k % 10)]
  }

  /** `str(round(seconds, 3))` for a non-negative number of milliseconds: `2.19`, `30.4`, `1.0`. */
  function MillisText(ms: nat): string
  {
    Text.NatToString(ms / 1000) + "." + Fraction(ms % 1000)
  }

  /** How the quantity prints in `'{} {}'.format(value, word)`. */
  function Render(q: Quantity): string
  {
    match q
    case Whole(n) => Text.IntToString(n)
    case Millis(ms) => MillisText(ms)
  }

  /** The power of ten that turns `n` digits after the point into thousandths. */
  function Scale(n: nat): nat
    requires 1 <= n <= 3
  {
    if n == 1 then 100 else if n == 2 then 10 else 1
  }

  /**
    * Reads a seconds text back to milliseconds: digits, a point, and one to three digits.
    * An independent reading of `MillisText`, so that the two can be checked against each other.
    */
  function ReadMillis(s: string): Option<nat>
  {
    var i := Text.IndexOf(s, '.');
    if i == |s| then None
    else
      var whole, frac := s[..i], s[i + 1..];
      if Text.AllDigits(whole) && 1 <= |frac| <= 3 && Text.AllDigits(frac) then
        Some(Text.DigitsValue(whole) * 1000 + Text.DigitsValue(frac) * Scale(|frac|))
      else None
  }

  /** The fraction digits, scaled to thousandths, are worth exactly `k`. */
  lemma FractionValue(k: nat)
    requires k < 1000
    ensures Text.DigitsValue(Fraction(k)) * Scale(|Fraction(k)|) == k
  {
    var a, b, c := ThousandthsDigits(k);
    var f := Fraction(k);
    DigitsValueOfShort(f);
    if c != 0 {
      assert f == [Text.DigitChar(a), Text.DigitChar(b), Text.DigitChar(c)];
    } else if b != 0 {
      assert f == [Text.DigitChar(a), Text.DigitChar(b)];
    } else {
      assert f == [Text.DigitChar(a)];
    }
  }

  /** The three decimal digits of a number of thousandths. */
  lemma ThousandthsDigits(k: nat) returns (a: nat, b: nat, c: nat)
    requires k < 1000
    ensures a == k / 100 && b == k / 10 % 10 && c == k % 10
    ensures a < 10 && b < 10 && c < 10 && k == a * 100 + b * 10 + c
    ensures (k % 100 == 0) == (b == 0 && c == 0) && (k % 10 == 0) == (c == 0)
  {
    a, b, c := k / 100, k / 10 % 10, k % 10;
  }

  /** The value of one to three digits, written out. */
  lemma DigitsValueOfShort(f: string)
    requires 1 <= |f| <= 3 && Text.AllDigits(f)
    ensures |f| == 1 ==> Text.DigitsValue(f) == f[0] as int - '0' as int
    ensures |f| == 2 ==> Text.DigitsValue(f) == (f[0] as int - '0' as int) * 10 + (f[1] as int - '0' as int)
    ensures |f| == 3 ==> Text.DigitsValue(f) == ((f[0] as int - '0' as int) * 10 + (f[1] as int - '0' as int)) * 10 + (f[2] as int - '0' as int)
  {
    assert f[..1][..0] == [];
    if |f| >= 2 {
      assert f[..2][..1] == f[..1];
    }
    if |f| == 3 {
      assert f[..3] == f;
    } else if |f| == 2 {
      assert f[..2] == f;
    } else {
      assert f[..1] == f;
    }
  }

  /** The seconds text reads back to the milliseconds it was written from. */
  lemma {:induction false} MillisTextReadsBack(ms: nat)
    ensures ReadMillis(MillisText(ms)) == Some(ms)
  {
    var whole, f := Text.NatToString(ms / 1000), Fraction(ms % 1000);
    assert MillisText(ms) == whole + "." + f;
    PointAfterDigits(whole, f);
    Text.DigitsOfNat(ms / 1000);
    FractionValue(ms % 1000);
  }

  /** In digits, a point and more text, the first point is the one after the digits. */
  lemma PointAfterDigits(whole: string, f: string)
    requires Text.AllDigits(whole)
    ensures var s := whole + "." + f;
            Text.IndexOf(s, '.') == |whole| && s[..|whole|] == whole && s[|whole| + 1..] == f
  {
    var s := whole + "." + f;
    assert forall k :: 0 <= k < |whole| ==> s[k] == whole[k] && Text.IsDigit(s[k]);
    assert s[|whole|] == '.';
    assert s[..|whole|] == whole && s[|whole| + 1..] == f;
  }

  /** `_pluralize(value, singular, plural)`: nothing for a zero value, otherwise the value and the word. */
  function Pluralize(q: Quantity, singular: string, plural: string): (r: Option<string>)
    ensures r.None? <==> Value(q) == 0.0
  {
    if Value(q) == 0.0 then None
    else Some(Render(q) + " " + (if Value(q) > 1.0 || (1.0 > Value(q) > 0.0) then plural else singular))
  }

  /**
    * The word is the singular one exactly when the value is 1 or negative, the plural one
    * when it is above 1 or strictly between 0 and 1.
    */
  lemma PluralizeWord(q: Quantity, singular: string, plural: string)
    requires Value(q) != 0.0 && singular != plural
    ensures Pluralize(q, singular, plural) == Some(Render(q) + " " + singular) <==> Value(q) == 1.0 || Value(q) < 0.0
    ensures Pluralize(q, singular, plural) == Some(Render(q) + " " + plural) <==> Value(q) > 0.0 && Value(q) != 1.0
  {
    var pre := Render(q) + " ";
    assert (pre + singular)[|pre|..] == singular && (pre + plural)[|pre|..] == plural;
  }

  /** `filter(lambda x: x, parts)`: the parts that were given, in order. */
  function Present(parts: seq<Option<string>>): (r: seq<string>)
    ensures |r| <= |parts|
    ensures forall s :: s in r <==> Some(s) in parts && s != ""
  {
    if parts == [] then []
    else
      var last := |parts| - 1;
      var p := parts[last];
      assert forall x :: x in parts <==> x in parts[..last] || x == p by {
        assert parts == parts[..last] + [p];
      }
      Present(parts[..last]) + Keep(p)
  }

  /** One part kept by the filter, or none. */
  function Keep(p: Option<string>): seq<string>
  {
    if p.Some? && p.value != "" then [p.value] else []
  }

  /** The filter over the three parts of `__str__`. */
  lemma PresentThree(a: Option<string>, b: Option<string>, c: Option<string>)
    ensures Present([a, b, c]) == Keep(a) + Keep(b) + Keep(c)
  {
    assert [a, b, c][..2] == [a, b] && [a, b][..1] == [a] && [a][..0] == [];
    assert Present([a]) == Keep(a);
    assert Present([a, b]) == Keep(a) + Keep(b);
  }

  /** `_join_output(times)`: "a", "a and b", "a, b, and c". */
  function JoinOutput(times: seq<string>): string
  {
    if |times| > 2 then Text.JoinWith(times[..|times| - 1], ", ") + ", and " + times[|times| - 1]
    else if |times| == 2 then times[0] + " and " + times[1]
    else if times == [] then ""
    else times[0]
  }

  /** An English list with the serial comma, built from the front: "a, " before the list of the rest. */
  function SerialList(times: seq<string>): string
    requires |times| >= 2
  {
    if |times| == 2 then times[0] + ", and " + times[1] else times[0] + ", " + SerialList(times[1..])
  }

  /** Three or more parts are joined as an English list with the serial comma. */
  lemma {:induction false} JoinOutputIsSerialList(times: seq<string>)
    requires |times| > 2
    ensures JoinOutput(times) == SerialList(times)
  {
    if |times| > 3 {
      JoinOutputIsSerialList(times[1..]);
      JoinOutputStep(times);
    } else {
      assert times == [times[0], times[1], times[2]];
      JoinThree(times[0], times[1], times[2]);
      assert SerialList(times) == times[0] + ", " + (times[1] + ", and " + times[2]);
    }
  }

  /** Past three parts, the join is the first part, a comma, and the join of the rest. */
  lemma JoinOutputStep(times: seq<string>)
    requires |times| > 3
    ensures JoinOutput(times) == times[0] + ", " + JoinOutput(times[1..])
  {
    var n := |times|;
    var rest, last := times[1..], times[n - 1];
    var inner := Text.JoinWith(rest[..n - 2], ", ");
    assert rest[..n - 2] == times[..n - 1][1..];
    assert Text.JoinWith(times[..n - 1], ", ") == times[0] + ", " + inner;
    assert JoinOutput(rest) == inner + ", and " + last;
  }

  /** Every join starts with the first part and adds its connectives' length and no more. */
  lemma {:induction false} JoinOutputLength(times: seq<string>)
    requires times != []
    ensures |JoinOutput(times)| == Text.SumLengths(times) + (if |times| == 1 then 0 else if |times| == 2 then 5 else 2 * |times| + 2)
    ensures JoinOutput(times)[..|times[0]|] == times[0]
  {
    var n := |times|;
    if n > 2 {
      Text.JoinWithLength(times[..n - 1], ", ");
      Text.JoinWithStartsWithFirst(times[..n - 1], ", ");
      SumLengthsLast(times);
    } else if n == 2 {
      assert times[1..][1..] == [];
      assert Text.SumLengths(times[1..]) == |times[1]|;
      assert JoinOutput(times) == times[0] + (" and " + times[1]);
    }
  }

  /** The total length splits off the last part. */
  lemma {:induction false} SumLengthsLast(xs: seq<string>)
    requires xs != []
    ensures Text.SumLengths(xs) == Text.SumLengths(xs[..|xs| - 1]) + |xs[|xs| - 1]|
  {
    if |xs| > 1 {
      SumLengthsLast(xs[1..]);
      assert xs[1..][..|xs| - 2] == xs[..|xs| - 1][1..];
    }
  }

  /** The seconds of the decomposition, rounded to milliseconds as `round(seconds, 3)` does. */
  function RoundMillis(micros: nat): (ms: nat)
    ensures micros as real / 1000.0 - 0.5 <= ms as real <= micros as real / 1000.0 + 0.5
  {
    var r := RoundHalfEven(micros as real / 1000.0);
    assert r as real >= -0.5;
    r
  }

  /** The three parts `__str__` prints, or leaves out when zero. */
  function Phrases(hours: int, minutes: int, ms: nat): seq<Option<string>>
  {
    [Pluralize(Whole(hours), "hour", "hours"), Pluralize(Whole(minutes), "minute", "minutes"),
     Pluralize(Millis(ms), "second", "seconds")]
  }

  /** `__str__`, as written: decompose first, then round the seconds to milliseconds. */
  function Str(t: TimeTaken): string
  {
    var p := Decompose(t.micros);
    JoinOutput(Present(Phrases(p.hours, p.minutes, RoundMillis(p.micros))))
  }

  /** A duration prints as nothing exactly when every printed part is zero. */
  lemma StrEmpty(t: TimeTaken)
    ensures var p := Decompose(t.micros);
            Str(t) == "" <==> p.hours == 0 && p.minutes == 0 && RoundMillis(p.micros) == 0
  {
    var p := Decompose(t.micros);
    var parts := Present(Phrases(p.hours, p.minutes, RoundMillis(p.micros)));
    if parts != [] {
      JoinOutputLength(parts);
      assert parts[0] in parts;
      assert |parts[0]| > 0;
    }
  }

  /** A whole number of seconds needs no rounding. */
  lemma FromWholeMicros(x: real, n: int)
    requires x * 1000000.0 == n as real
    ensures FromSeconds(x) == TimeTaken(n)
  {
    assert (n as real).Floor == n;
  }

  /** Seconds that are whole milliseconds need no rounding either. */
  lemma RoundWholeMillis(micros: nat, ms: nat)
    requires micros == ms * 1000
    ensures RoundMillis(micros) == ms
  {
    assert micros as real / 1000.0 == ms as real;
    assert (ms as real).Floor == ms;
  }

  /** One of a unit is singular; two are plural. */
  lemma PluralizeSmall(singular: string, plural: string)
    ensures Pluralize(Whole(1), singular, plural) == Some("1 " + singular)
    ensures Pluralize(Whole(2), singular, plural) == Some("2 " + plural)
  {
    assert Text.IntToString(1) == "1" && Text.IntToString(2) == "2";
    assert "1" + " " + singular == "1 " + singular;
    assert "2" + " " + plural == "2 " + plural;
  }

  /** Seconds other than exactly one are plural. */
  lemma PluralizeSeconds(ms: nat)
    requires ms != 0
    ensures Pluralize(Millis(ms), "second", "seconds") == Some(MillisText(ms) + (if ms == 1000 then " second" else " seconds"))
  {
    assert MillisText(ms) + " " + "second" == MillisText(ms) + " second";
    assert MillisText(ms) + " " + "seconds" == MillisText(ms) + " seconds";
  }

  /** `TimeTaken(3600)` and `TimeTaken(7200)`: whole hours print alone, singular then plural. */
  lemma StrWholeHours()
    ensures Str(FromSeconds(3600.0)) == "1 hour"
    ensures Str(FromSeconds(7200.0)) == "2 hours"
  {
    FromWholeMicros(3600.0, 3600000000);
    FromWholeMicros(7200.0, 7200000000);
    RoundWholeMillis(0, 0);
    OneHourPhrases();
    TwoHoursPhrases();
    OneHourDecompose();
    StrFrom(TimeTaken(3600000000), Parts(1, 0, 0), 0, ["1 hour"]);
    TwoHoursDecompose();
    StrFrom(TimeTaken(7200000000), Parts(2, 0, 0), 0, ["2 hours"]);
  }

  /** The parts of `TimeTaken(3600)`. */
  lemma OneHourPhrases()
    ensures Present(Phrases(1, 0, 0)) == ["1 hour"]
  {
    PluralizeSmall("hour", "hours");
    SpelledHours();
    PresentThree(Some("1 hour"), None, None);
  }

  /** The parts of `TimeTaken(7200)`. */
  lemma TwoHoursPhrases()
    ensures Present(Phrases(2, 0, 0)) == ["2 hours"]
  {
    PluralizeSmall("hour", "hours");
    SpelledHours();
    PresentThree(Some("2 hours"), None, None);
  }

  /** `TimeTaken(60.0)`: a whole minute prints alone. */
  lemma StrWholeMinute()
    ensures Str(FromSeconds(60.0)) == "1 minute"
  {
    FromWholeMicros(60.0, 60000000);
    WholeMinutePhrases();
    WholeMinuteDecompose();
    StrFrom(TimeTaken(60000000), Parts(0, 1, 0), 0, ["1 minute"]);
  }

  /** The parts of `TimeTaken(60.0)`. */
  lemma WholeMinutePhrases()
    ensures RoundMillis(0) == 0
    ensures Present(Phrases(0, 1, 0)) == ["1 minute"]
  {
    RoundWholeMillis(0, 0);
    PluralizeSmall("minute", "minutes");
    SpelledMinutes();
    PresentThree(None, Some("1 minute"), None);
  }

  /** `TimeTaken(1)`: one second is singular and keeps its `.0`. */
  lemma StrOneSecond()
    ensures Str(FromSeconds(1.0)) == "1.0 second"
  {
    FromWholeMicros(1.0, 1000000);
    RoundWholeMillis(1000000, 1000);
    OneSecondPhrases();
    OneSecondDecompose();
    StrFrom(TimeTaken(1000000), Parts(0, 0, 1000000), 1000, ["1.0 second"]);
  }

  /** The parts of `TimeTaken(1)`. */
  lemma OneSecondPhrases()
    ensures Present(Phrases(0, 0, 1000)) == ["1.0 second"]
  {
    assert MillisText(1000) == "1" + "." + "0";
    PluralizeSeconds(1000);
    SpelledSeconds();
    PresentThree(None, None, Some("1.0 second"));
  }

  /** `TimeTaken(0.1)`: a fraction of a second is plural. */
  lemma StrTenthOfASecond()
    ensures Str(FromSeconds(0.1)) == "0.1 seconds"
  {
    FromWholeMicros(0.1, 100000);
    RoundWholeMillis(100000, 100);
    TenthOfASecondPhrases();
    TenthOfASecondDecompose();
    StrFrom(TimeTaken(100000), Parts(0, 0, 100000), 100, ["0.1 seconds"]);
  }

  /** The parts of `TimeTaken(0.1)`. */
  lemma TenthOfASecondPhrases()
    ensures Present(Phrases(0, 0, 100)) == ["0.1 seconds"]
  {
    assert MillisText(100) == "0" + "." + "1";
    PluralizeSeconds(100);
    SpelledSeconds();
    PresentThree(None, None, Some("0.1 seconds"));
  }

  /** `TimeTaken(120.0)`: whole minutes print alone, plural. */
  lemma StrTwoMinutes()
    ensures Str(FromSeconds(120.0)) == "2 minutes"
  {
    FromWholeMicros(120.0, 120000000);
    CarriedPhrases();
    CarriedDecompose();
    StrFrom(TimeTaken(120000000), Parts(0, 2, 0), 0, ["2 minutes"]);
  }

  /** `TimeTaken(30.5)`: seconds below a minute print alone, plural. */
  lemma StrHalfMinute()
    ensures Str(FromSeconds(30.5)) == "30.5 seconds"
  {
    FromWholeMicros(30.5, 30500000);
    RoundWholeMillis(30500000, 30500);
    HalfMinutePhrases();
    HalfMinuteDecompose();
    StrFrom(TimeTaken(30500000), Parts(0, 0, 30500000), 30500, ["30.5 seconds"]);
  }

  /** The parts of `TimeTaken(30.5)`. */
  lemma HalfMinutePhrases()
    ensures Present(Phrases(0, 0, 30500)) == ["30.5 seconds"]
  {
    assert Text.NatToString(30) == "30";
    assert MillisText(30500) == "30" + "." + "5";
    PluralizeSeconds(30500);
    SpelledSeconds();
    PresentThree(None, None, Some("30.5 seconds"));
  }

  /** `TimeTaken(150.40)`: two parts are joined with "and". */
  lemma StrTwoParts()
    ensures Str(FromSeconds(150.4)) == "2 minutes and 30.4 seconds"
  {
    FromWholeMicros(150.4, 150400000);
    StrTwoPartsMicros();
    TwoPartsJoined();
  }

  /** The duration of `TimeTaken(150.40)`, in microseconds, split into its printed parts. */
  lemma StrTwoPartsMicros()
    ensures Str(TimeTaken(150400000)) == JoinOutput(["2 minutes", "30.4 seconds"])
  {
    RoundWholeMillis(30400000, 30400);
    TwoPartsPhrases();
    TwoPartsDecompose();
    StrFrom(TimeTaken(150400000), Parts(0, 2, 30400000), 30400, ["2 minutes", "30.4 seconds"]);
  }

  /** The join of the parts of `TimeTaken(150.40)`. */
  lemma TwoPartsJoined()
    ensures JoinOutput(["2 minutes", "30.4 seconds"]) == "2 minutes and 30.4 seconds"
  {
    JoinTwo("2 minutes", "30.4 seconds");
    SpelledTwoParts();
  }

  /** The parts of `TimeTaken(150.40)`. */
  lemma TwoPartsPhrases()
    ensures Present(Phrases(0, 2, 30400)) == ["2 minutes", "30.4 seconds"]
  {
    TwoPhrases();
    PresentThree(None, Some("2 minutes"), Some("30.4 seconds"));
  }

  /** The three phrases of `TimeTaken(150.40)`, before the filter. */
  lemma TwoPhrases()
    ensures Phrases(0, 2, 30400) == [None, Some("2 minutes"), Some("30.4 seconds")]
  {
    PluralizeSmall("minute", "minutes");
    SpelledMinutes();
    SecondsPhrase30400();
  }

  /** The seconds phrase of `TimeTaken(150.40)`. */
  lemma SecondsPhrase30400()
    ensures Pluralize(Millis(30400), "second", "seconds") == Some("30.4 seconds")
  {
    assert Text.NatToString(30) == "30";
    assert MillisText(30400) == "30" + "." + "4";
    PluralizeSeconds(30400);
    SpelledSeconds();
  }

  /** `TimeTaken(3662.19)`: three parts are joined with commas and a final "and". */
  lemma StrThreeParts()
    ensures Str(FromSeconds(3662.19)) == "1 hour, 1 minute, and 2.19 seconds"
  {
    FromWholeMicros(3662.19, 3662190000);
    StrThreePartsMicros();
    ThreePartsJoined();
  }

  /** The duration of `TimeTaken(3662.19)`, in microseconds, split into its printed parts. */
  lemma StrThreePartsMicros()
    ensures Str(TimeTaken(3662190000)) == JoinOutput(["1 hour", "1 minute", "2.19 seconds"])
  {
    RoundWholeMillis(2190000, 2190);
    ThreePartsPhrases();
    ThreePartsDecompose();
    StrFrom(TimeTaken(3662190000), Parts(1, 1, 2190000), 2190, ["1 hour", "1 minute", "2.19 seconds"]);
  }

  /** The join of the parts of `TimeTaken(3662.19)`. */
  lemma ThreePartsJoined()
    ensures JoinOutput(["1 hour", "1 minute", "2.19 seconds"]) == "1 hour, 1 minute, and 2.19 seconds"
  {
    JoinThree("1 hour", "1 minute", "2.19 seconds");
    SpelledThreeParts();
  }

  /** The parts of `TimeTaken(3662.19)`. */
  lemma ThreePartsPhrases()
    ensures Present(Phrases(1, 1, 2190)) == ["1 hour", "1 minute", "2.19 seconds"]
  {
    ThreePhrases();
    PresentThree(Some("1 hour"), Some("1 minute"), Some("2.19 seconds"));
  }

  /** The three phrases of `TimeTaken(3662.19)`, before the filter. */
  lemma ThreePhrases()
    ensures Phrases(1, 1, 2190) == [Some("1 hour"), Some("1 minute"), Some("2.19 seconds")]
  {
    PluralizeSmall("hour", "hours");
    PluralizeSmall("minute", "minutes");
    SpelledHours();
    SpelledMinutes();
    SecondsPhrase2190();
  }

  /** The seconds phrase of `TimeTaken(3662.19)`. */
  lemma SecondsPhrase2190()
    ensures Pluralize(Millis(2190), "second", "seconds") == Some("2.19 seconds")
  {
    assert MillisText(2190) == "2" + "." + "19";
    PluralizeSeconds(2190);
    SpelledSeconds();
  }

  /** Two parts are joined with " and ". */
  lemma JoinTwo(a: string, b: string)
    ensures JoinOutput([a, b]) == a + " and " + b
  {
  }

  /** Three parts are joined with ", " and ", and ". */
  lemma JoinThree(a: string, b: string, c: string)
    ensures JoinOutput([a, b, c]) == a + ", " + b + ", and " + c
  {
    assert [a, b, c][..2] == [a, b];
    assert Text.JoinWith([a, b], ", ") == a + ", " + b;
  }

  /** 3600 seconds are one hour. */
  lemma OneHourDecompose()
    ensures Decompose(3600000000) == Parts(1, 0, 0)
  {
  }

  /** 7200 seconds are two hours. */
  lemma TwoHoursDecompose()
    ensures Decompose(7200000000) == Parts(2, 0, 0)
  {
  }

  /** 60 seconds are one minute. */
  lemma WholeMinuteDecompose()
    ensures Decompose(60000000) == Parts(0, 1, 0)
  {
  }

  /** One second is below a minute. */
  lemma OneSecondDecompose()
    ensures Decompose(1000000) == Parts(0, 0, 1000000)
  {
  }

  /** A tenth of a second is below a minute. */
  lemma TenthOfASecondDecompose()
    ensures Decompose(100000) == Parts(0, 0, 100000)
  {
  }

  /** 150.4 seconds are 2 minutes and 30.4 seconds. */
  lemma TwoPartsDecompose()
    ensures Decompose(150400000) == Parts(0, 2, 30400000)
  {
  }

  /** 3662.19 seconds are 1 hour, 1 minute and 2.19 seconds. */
  lemma ThreePartsDecompose()
    ensures Decompose(3662190000) == Parts(1, 1, 2190000)
  {
  }

  /** 30.5 seconds are below a minute. */
  lemma HalfMinuteDecompose()
    ensures Decompose(30500000) == Parts(0, 0, 30500000)
  {
  }

  /** 120 seconds are two minutes. */
  lemma CarriedDecompose()
    ensures Decompose(120000000) == Parts(0, 2, 0)
  {
  }

  /** `__str__` once its parts are known. */
  lemma StrFrom(t: TimeTaken, p: Parts, ms: nat, parts: seq<string>)
    requires Decompose(t.micros) == p && RoundMillis(p.micros) == ms
    requires Present(Phrases(p.hours, p.minutes, ms)) == parts
    ensures Str(t) == JoinOutput(parts)
  {
  }

  /** Spelled-out strings the examples put together. */
  lemma SpelledHours()
    ensures "1 " + "hour" == "1 hour"
    ensures "2 " + "hours" == "2 hours"
  {
  }

  /** Spelled-out strings the examples put together. */
  lemma SpelledMinutes()
    ensures "1 " + "minute" == "1 minute"
    ensures "2 " + "minutes" == "2 minutes"
  {
  }

  /** Spelled-out strings the examples put together. */
  lemma SpelledSeconds()
    ensures "1" + "." + "0" + " second" == "1.0 second"
    ensures "0" + "." + "1" + " seconds" == "0.1 seconds"
    ensures "30" + "." + "4" + " seconds" == "30.4 seconds"
    ensures "2" + "." + "19" + " seconds" == "2.19 seconds"
    ensures "30" + "." + "5" + " seconds" == "30.5 seconds"
  {
  }

  /** Spelled-out strings the examples put together. */
  lemma SpelledTwoParts()
    ensures "2 minutes" + " and " + "30.4 seconds" == "2 minutes and 30.4 seconds"
  {
  }

  /** Spelled-out strings the examples put together. */
  lemma SpelledThreeParts()
    ensures "1 hour" + ", " + "1 minute" + ", and " + "2.19 seconds" == "1 hour, 1 minute, and 2.19 seconds"
  {
  }

  /**
    * `__str__` as written rounds the seconds after taking out the minutes, so seconds within
    * half a millisecond of the next minute print as "60.0 seconds": 119.9996 seconds is
    * 1 minute and 59.9996 seconds, and the seconds round up to 60.000.
    */
  lemma StrSixtySeconds()
    ensures Str(FromSeconds(119.9996)) == "1 minute and 60.0 seconds"
  {
    FromWholeMicros(119.9996, 119999600);
    StrSixtySecondsMicros();
    SixtySecondsJoined();
  }

  /** The duration of `TimeTaken(119.9996)`, in microseconds, split into its printed parts. */
  lemma StrSixtySecondsMicros()
    ensures Str(TimeTaken(119999600)) == JoinOutput(["1 minute", "60.0 seconds"])
  {
    SixtySecondsDecompose();
    SixtySecondsRound();
    SixtySecondsPhrases();
    StrFrom(TimeTaken(119999600), Parts(0, 1, 59999600), 60000, ["1 minute", "60.0 seconds"]);
  }

  /** The join of the parts of `TimeTaken(119.9996)`. */
  lemma SixtySecondsJoined()
    ensures JoinOutput(["1 minute", "60.0 seconds"]) == "1 minute and 60.0 seconds"
  {
    JoinTwo("1 minute", "60.0 seconds");
    SpelledSixty();
  }

  /** 119.9996 seconds are 1 minute and 59.9996 seconds. */
  lemma SixtySecondsDecompose()
    ensures Decompose(119999600) == Parts(0, 1, 59999600)
  {
  }

  /** 59.9996 seconds round to 60.000. */
  lemma SixtySecondsRound()
    ensures RoundMillis(59999600) == 60000
  {
    var x := 59999600 as real / 1000.0;
    assert x == 59999.6;
    assert x.Floor == 59999;
  }

  /** The parts of `TimeTaken(119.9996)`. */
  lemma SixtySecondsPhrases()
    ensures Present(Phrases(0, 1, 60000)) == ["1 minute", "60.0 seconds"]
  {
    SixtyPhrases();
    PresentThree(None, Some("1 minute"), Some("60.0 seconds"));
  }

  /** The three phrases of `TimeTaken(119.9996)`, before the filter. */
  lemma SixtyPhrases()
    ensures Phrases(0, 1, 60000) == [None, Some("1 minute"), Some("60.0 seconds")]
  {
    assert Text.NatToString(60) == "60";
    assert MillisText(60000) == "60" + "." + "0";
    PluralizeSmall("minute", "minutes");
    PluralizeSeconds(60000);
    SpelledMinutes();
    SpelledSixty();
  }

  /** The duration rounded to whole milliseconds, half to even: `round(total, 3)` taken before the `divmod`. */
  function RoundToMillis(t: TimeTaken): (r: TimeTaken)
    ensures r.micros % 1000 == 0
    ensures t.micros - 500 <= r.micros <= t.micros + 500
  {
    TimeTaken(RoundHalfEven(t.micros as real / 1000.0) * 1000)
  }

  /**
    * `__str__` as evidently intended: round to milliseconds first, then take out hours and
    * minutes, so that a rounding carry moves into the minutes.
    */
  function StrRounded(t: TimeTaken): string
  {
    Str(RoundToMillis(t))
  }

  /**
    * The intended form never prints 60 seconds or more: the seconds it prints are the
    * exact remainder below a minute.
    */
  lemma StrRoundedBelowMinute(t: TimeTaken)
    ensures var p := Decompose(RoundToMillis(t).micros);
            RoundMillis(p.micros) * 1000 == p.micros && RoundMillis(p.micros) < 60000
  {
    var m := RoundToMillis(t).micros;
    var p := Decompose(m);
    var k := m / 1000 - p.hours * 3600000 - p.minutes * 60000;
    assert p.micros == k * 1000;
    RoundWholeMillis(p.micros, k);
  }

  /** On whole milliseconds the intended form prints exactly what the written one does. */
  lemma StrRoundedAgrees(t: TimeTaken)
    requires t.micros % 1000 == 0
    ensures StrRounded(t) == Str(t)
  {
    RoundToMillisWhole(t);
  }

  /** A duration of whole milliseconds is its own rounding. */
  lemma RoundToMillisWhole(t: TimeTaken)
    requires t.micros % 1000 == 0
    ensures RoundToMillis(t) == t
  {
    var k := t.micros / 1000;
    assert t.micros as real / 1000.0 == k as real;
    assert (k as real).Floor == k;
  }

  /** The intended form prints `TimeTaken(119.9996)` as two minutes. */
  lemma StrRoundedCarries()
    ensures StrRounded(FromSeconds(119.9996)) == "2 minutes"
  {
    FromWholeMicros(119.9996, 119999600);
    CarriedRound();
    CarriedPhrases();
    CarriedDecompose();
    StrFrom(TimeTaken(120000000), Parts(0, 2, 0), 0, ["2 minutes"]);
  }

  /** 119.9996 seconds round to 120.000 before the `divmod`. */
  lemma CarriedRound()
    ensures RoundToMillis(TimeTaken(119999600)) == TimeTaken(120000000)
  {
    var x := 119999600 as real / 1000.0;
    assert x == 119999.6 && x.Floor == 119999;
  }

  /** The parts of `TimeTaken(120)`. */
  lemma CarriedPhrases()
    ensures RoundMillis(0) == 0
    ensures Present(Phrases(0, 2, 0)) == ["2 minutes"]
  {
    RoundWholeMillis(0, 0);
    PluralizeSmall("minute", "minutes");
    SpelledMinutes();
    PresentThree(None, Some("2 minutes"), None);
  }

  /** Spelled-out strings the examples put together. */
  lemma SpelledSixty()
    ensures "60" + "." + "0" + " seconds" == "60.0 seconds"
    ensures "1 minute" + " and " + "60.0 seconds" == "1 minute and 60.0 seconds"
  {
  }
}
