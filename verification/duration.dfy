/**
 `formatDuration` of `scripts/cache-cli.ts`: a millisecond count shown as
 its largest non-zero unit together with the next smaller one
 (`"2d 3h"`, `"5h 0m"`, `"1m 7s"`), or as whole seconds under a minute.
 The count is an integer here; every division is `Math.floor`, which for a
 positive divisor is Dafny's `/`.
 */
module Duration {
  import opened Seqs
  import opened Text

  datatype Unit = Days | Hours | Minutes | Seconds

  /** Length of one unit in milliseconds. */
  function UnitMs(u: Unit): (r: nat)
    ensures r >= 1000
  {
    match u
    case Days => 24 * 60 * 60 * 1000
    case Hours => 60 * 60 * 1000
    case Minutes => 60 * 1000
    case Seconds => 1000
  }

  /** The unit printed after `u` in a two-unit reading. */
  function Finer(u: Unit): (r: Unit)
    requires u != Seconds
    ensures UnitMs(r) < UnitMs(u) && UnitMs(u) % UnitMs(r) == 0
  {
    match u
    case Days => Hours
    case Hours => Minutes
    case Minutes => Seconds
  }

  /** The unit one step above `u`. */
  function Coarser(u: Unit): (r: Unit)
    requires u != Days
    ensures r != Seconds && Finer(r) == u
  {
    match u
    case Hours => Days
    case Minutes => Hours
    case Seconds => Minutes
  }

  function Suffix(u: Unit): (c: char)
    ensures !IsDigit(c) && c != '-' && c != ' '
  {
    match u
    case Days => 'd'
    case Hours => 'h'
    case Minutes => 'm'
    case Seconds => 's'
  }

  /**
   What gets printed: `Two(major, unit, minor)` is `"<major><unit> <minor><finer unit>"`;
   `Secs(n)` is `"<n>s"`.
   */
  datatype Shown = Two(major: nat, unit: Unit, minor: nat) | Secs(n: int)

  /** Euclidean division is unique: a quotient and remainder in range are the ones `/` and `%` give. */
  lemma DivUnique(x: int, d: int, q: int, r: int)
    requires d > 0 && 0 <= r < d && x == q * d + r
    ensures x / d == q && x % d == r
  {
    var q', r' := x / d, x % d;
    assert (q' - q) * d == r - r';
    MulStep(q' - q, d);
  }

  /** A non-zero multiple of `d` is at least `d` away from zero. */
  lemma MulStep(k: int, d: int)
    requires d > 0
    ensures k >= 1 ==> k * d >= d
    ensures k <= -1 ==> k * d <= -d
  {
  }

  /** Flooring twice is flooring once by the product. */
  lemma DivDiv(x: int, a: int, b: int)
    requires a > 0 && b > 0
    ensures x / a / b == x / (a * b)
  {
    var q, r := x / a, x % a;
    var q2, r2 := q / b, q % b;
    Regroup(q2, b, r2, a);
    RemainderBelow(r2, b, a);
    DivUnique(x, a * b, q2, r2 * a + r);
  }

  lemma Regroup(q2: int, b: int, r2: int, a: int)
    ensures (q2 * b + r2) * a == q2 * (a * b) + r2 * a
  {
  }

  lemma RemainderBelow(r2: int, b: int, a: int)
    requires 0 <= r2 < b && a > 0
    ensures 0 <= r2 * a && r2 * a + a <= a * b
  {
    MulStep(b - r2, a);
  }

  /** Euclidean quotient and remainder pin `x` between two consecutive multiples of `d`. */
  lemma DivBracket(x: int, d: int)
    requires d > 0
    ensures (x / d) * d <= x < (x / d + 1) * d
  {
  }

  /**
   Showing `ms` as whole `big` units plus the leftover whole `small` units
   is `ms` floored to a multiple of `small`, and the leftover stays below
   one `big` unit.
   */
  lemma TwoUnits(ms: int, big: int, small: int)
    requires 0 < small < big && big % small == 0
    ensures var minor := ms / small % (big / small);
      var low := ms / big * big + minor * small;
      minor < big / small && low <= ms < low + small
  {
    var ratio := big / small;
    assert big == ratio * small;
    var q := ms / small;
    DivDiv(ms, small, ratio);
    assert q == q / ratio * ratio + q % ratio;
    assert ms / big * big + q % ratio * small == q * small;
    DivBracket(ms, small);
  }

  /** The source's chain of floors lands on the same numbers as flooring `ms` by each unit directly. */
  lemma ChainedFloors(ms: int)
    ensures ms / 1000 / 60 == ms / 60000
    ensures ms / 1000 / 60 / 60 == ms / 3600000
    ensures ms / 1000 / 60 / 60 / 24 == ms / 86400000
  {
    DivDiv(ms, 1000, 60);
    DivDiv(ms, 60000, 60);
    DivDiv(ms, 3600000, 24);
  }

  /**
   The arithmetic of `formatDuration`: the reading is `ms` floored to the
   finer printed unit, led by the largest unit of which `ms` holds at least
   one whole, and the finer amount stays below one coarser unit.
   */
  function Split(ms: int): (r: Shown)
    ensures r.Two? <==> ms >= UnitMs(Minutes)
    ensures r.Two? ==> r.unit != Seconds && r.major >= 1 && r.major == ms / UnitMs(r.unit)
    ensures r.Two? ==> r.unit == Days || ms < UnitMs(Coarser(r.unit))
    ensures r.Two? ==> r.minor == ms / UnitMs(Finer(r.unit)) % (UnitMs(r.unit) / UnitMs(Finer(r.unit)))
    ensures r.Two? ==> r.minor < UnitMs(r.unit) / UnitMs(Finer(r.unit))
    ensures r.Two? ==>
      var low := r.major * UnitMs(r.unit) + r.minor * UnitMs(Finer(r.unit));
      low <= ms < low + UnitMs(Finer(r.unit))
    ensures r.Secs? ==> r.n == ms / 1000 && r.n < 60
  {
    var seconds := ms / 1000;
    var minutes := seconds / 60;
    var hours := minutes / 60;
    var days := hours / 24;
    ChainedFloors(ms);
    if days > 0 then
      TwoUnits(ms, UnitMs(Days), UnitMs(Hours));
      Two(days, Days, hours % 24)
    else if hours > 0 then
      TwoUnits(ms, UnitMs(Hours), UnitMs(Minutes));
      DivBracket(ms, UnitMs(Days));
      Two(hours, Hours, minutes % 60)
    else if minutes > 0 then
      TwoUnits(ms, UnitMs(Minutes), UnitMs(Seconds));
      DivBracket(ms, UnitMs(Hours));
      Two(minutes, Minutes, seconds % 60)
    else
      DivBracket(ms, UnitMs(Minutes));
      Secs(seconds)
  }

  /** The template literal that prints a reading. */
  function Render(s: Shown): (r: string)
    requires s.Two? ==> s.unit != Seconds
    ensures |r| >= 2 && r[|r| - 1] == Suffix(if s.Two? then Finer(s.unit) else Seconds)
  {
    match s
    case Two(major, unit, minor) =>
      NatToString(major) + [Suffix(unit), ' '] + NatToString(minor) + [Suffix(Finer(unit))]
    case Secs(n) => IntToString(n) + "s"
  }

  /** `formatDuration(ms)`. */
  function FormatDuration(ms: int): string
  {
    Render(Split(ms))
  }

  /** Under a minute only whole seconds are printed; under a second that is `"0s"`. */
  lemma FormatUnderAMinute(ms: int)
    requires ms < 60 * 1000
    ensures FormatDuration(ms) == IntToString(ms / 1000) + "s"
    ensures 0 <= ms < 1000 ==> FormatDuration(ms) == "0s"
  {
  }

  /** From one day up: whole days, then the hours left over. */
  lemma FormatDaysAndHours(ms: int)
    requires ms >= 24 * 60 * 60 * 1000
    ensures FormatDuration(ms) == NatToString(ms / 86400000) + "d " + NatToString(ms / 3600000 % 24) + "h"
  {
  }

  /** From one hour to under a day: whole hours, then the minutes left over. */
  lemma FormatHoursAndMinutes(ms: int)
    requires 60 * 60 * 1000 <= ms < 24 * 60 * 60 * 1000
    ensures FormatDuration(ms) == NatToString(ms / 3600000) + "h " + NatToString(ms / 60000 % 60) + "m"
  {
  }

  /** From one minute to under an hour: whole minutes, then the seconds left over. */
  lemma FormatMinutesAndSeconds(ms: int)
    requires 60 * 1000 <= ms < 60 * 60 * 1000
    ensures FormatDuration(ms) == NatToString(ms / 60000) + "m " + NatToString(ms / 1000 % 60) + "s"
  {
  }

  // ---------------------------------------------------------------- reading it back

  /** Number of leading decimal digits. */
  function LeadingDigits(s: string): (k: nat)
    ensures k <= |s|
    ensures forall i :: 0 <= i < k ==> IsDigit(s[i])
    ensures k < |s| ==> !IsDigit(s[k])
    decreases |s|
  {
    if |s| > 0 && IsDigit(s[0]) then 1 + LeadingDigits(s[1..]) else 0
  }

  function UnitOf(c: char): Option<Unit>
  {
    if c == 'd' then Some(Days)
    else if c == 'h' then Some(Hours)
    else if c == 'm' then Some(Minutes)
    else if c == 's' then Some(Seconds)
    else None
  }

  /** A run of digits followed by the one character `c`. */
  function ReadNumberThen(s: string, c: char): Option<nat>
  {
    var k := LeadingDigits(s);
    if k > 0 && s[k..] == [c] then Some(DigitsValue(s[..k])) else None
  }

  /** Reads a printed duration back into the reading it shows; `None` for any other text. */
  function Parse(s: string): Option<Shown>
  {
    if |s| > 0 && s[0] == '-' then
      match ReadNumberThen(s[1..], 's')
      case Some(n) => if n > 0 then Some(Secs(0 - n)) else None
      case None => None
    else
      var k := LeadingDigits(s);
      if k == 0 then None else ParseAfterNumber(DigitsValue(s[..k]), s[k..])
  }

  /** What may follow the leading number `n`: `"s"`, or a unit, a space and the finer amount. */
  function ParseAfterNumber(n: nat, rest: string): Option<Shown>
  {
    if rest == "s" then Some(Secs(n))
    else if |rest| < 2 || rest[1] != ' ' then None
    else
      match UnitOf(rest[0])
      case Some(u) =>
        if u == Seconds then None
        else
          (match ReadNumberThen(rest[2..], Suffix(Finer(u)))
           case Some(m) => Some(Two(n, u, m))
           case None => None)
      case None => None
  }

  /** Digits followed by a non-digit (or nothing) are read up to exactly that point. */
  lemma {:induction false} LeadingDigitsOf(d: string, t: string)
    requires forall i :: 0 <= i < |d| ==> IsDigit(d[i])
    requires |t| == 0 || !IsDigit(t[0])
    ensures LeadingDigits(d + t) == |d|
    decreases |d|
  {
    if |d| > 0 {
      assert (d + t)[1..] == d[1..] + t;
      LeadingDigitsOf(d[1..], t);
    } else {
      assert d + t == t;
    }
  }

  lemma ReadNumberThenRendered(n: nat, c: char)
    requires !IsDigit(c)
    ensures ReadNumberThen(NatToString(n) + [c], c) == Some(n)
  {
    var d := NatToString(n);
    LeadingDigitsOf(d, [c]);
    assert (d + [c])[..|d|] == d;
    assert (d + [c])[|d|..] == [c];
    NatToStringRoundTrip(n);
  }

  /** The printed text determines the reading: `Parse` undoes `Render`. */
  lemma ParseRender(s: Shown)
    requires s.Two? ==> s.unit != Seconds
    ensures Parse(Render(s)) == Some(s)
  {
    match s
    case Secs(n) =>
      if n >= 0 {
        var d := NatToString(n);
        LeadingDigitsOf(d, "s");
        assert (d + "s")[..|d|] == d && (d + "s")[|d|..] == "s";
        NatToStringRoundTrip(n);
      } else {
        var d := NatToString(-n);
        assert ("-" + d + "s")[1..] == d + "s";
        ReadNumberThenRendered(-n, 's');
      }
    case Two(major, unit, minor) =>
      ParseRenderTwo(major, unit, minor);
  }

  lemma ParseRenderTwo(major: nat, unit: Unit, minor: nat)
    requires unit != Seconds
    ensures Parse(Render(Two(major, unit, minor))) == Some(Two(major, unit, minor))
  {
    var a := NatToString(major);
    var rest := [Suffix(unit), ' '] + NatToString(minor) + [Suffix(Finer(unit))];
    var r := Render(Two(major, unit, minor));
    assert r == a + rest;
    LeadingDigitsOf(a, rest);
    assert r[0] == a[0] && IsDigit(a[0]);
    assert r[..|a|] == a && r[|a|..] == rest;
    NatToStringRoundTrip(major);
    AfterNumberTwo(major, unit, minor);
  }

  lemma AfterNumberTwo(major: nat, unit: Unit, minor: nat)
    requires unit != Seconds
    ensures ParseAfterNumber(major, [Suffix(unit), ' '] + NatToString(minor) + [Suffix(Finer(unit))]) == Some(Two(major, unit, minor))
  {
    var tail := NatToString(minor) + [Suffix(Finer(unit))];
    var rest := [Suffix(unit), ' '] + tail;
    assert rest == [Suffix(unit), ' '] + NatToString(minor) + [Suffix(Finer(unit))];
    assert rest[0] == Suffix(unit) && rest[1] == ' ' && rest[2..] == tail;
    assert rest != "s" by {
      assert |rest| > 1;
    }
    assert UnitOf(Suffix(unit)) == Some(unit);
    ReadNumberThenRendered(minor, Suffix(Finer(unit)));
  }

  /** What `formatDuration` prints reads back as the reading `Split` makes of the same milliseconds. */
  lemma FormatDurationReadsBack(ms: int)
    ensures Parse(FormatDuration(ms)) == Some(Split(ms))
  {
    ParseRender(Split(ms));
  }

  /** Different readings print differently. */
  lemma RenderInjective(s: Shown, t: Shown)
    requires s.Two? ==> s.unit != Seconds
    requires t.Two? ==> t.unit != Seconds
    requires Render(s) == Render(t)
    ensures s == t
  {
    ParseRender(s);
    ParseRender(t);
  }
}
