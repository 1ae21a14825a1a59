/** The periodic metrics update of the application shell (App.tsx): every
    2000 ms the elapsed time since mount is broken into hours, minutes and
    seconds and printed as the uptime text, and the cpu and ram readings take
    a clamped random step. */
module Metrics {
  import opened Wrappers
  import opened Decimal

  const MsPerHour: nat := 3600000
  const MsPerMinute: nat := 60000
  const MsPerSecond: nat := 1000

  /** Milliseconds between two updates. */
  const UpdatePeriodMs: nat := 2000

  /** JavaScript's `a % b`: the remainder takes the sign of the dividend. */
  function JsRem(a: int, b: int): (r: int)
    requires b > 0
    ensures a >= 0 ==> r == a % b
    ensures a < 0 ==> -b < r <= 0
    ensures (a - r) % b == 0
  {
    if a >= 0 then
      DivModUnique(a - a % b, b, a / b, 0);
      a % b
    else
      DivModUnique(a + (-a) % b, b, -((-a) / b), 0);
      -((-a) % b)
  }

  /** `Math.floor(a / b)` for an integral `a` and a positive `b`. */
  function FloorDiv(a: int, b: int): (q: int)
    requires b > 0
    ensures q * b <= a < q * b + b
  {
    a / b
  }

  datatype Clock = Clock(hours: int, mins: int, secs: int)

  /** The update's decomposition of the elapsed milliseconds `diff`.
      `diff` is an integer because `Date.now()` is; it can be negative when
      the system clock is set back. */
  function Decompose(diff: int): (c: Clock)
    ensures diff >= 0 ==> 0 <= c.hours && 0 <= c.mins < 60 && 0 <= c.secs < 60
    ensures diff >= 0 ==> c.hours * MsPerHour <= diff < (c.hours + 1) * MsPerHour
    ensures diff < 0 ==> c.hours < 0 && -60 <= c.mins <= 0 && -60 <= c.secs <= 0
  {
    Clock(FloorDiv(diff, MsPerHour),
          FloorDiv(JsRem(diff, MsPerHour), MsPerMinute),
          FloorDiv(JsRem(diff, MsPerMinute), MsPerSecond))
  }

  /** The first millisecond a clock reading stands for. */
  function Compose(c: Clock): int {
    c.hours * MsPerHour + c.mins * MsPerMinute + c.secs * MsPerSecond
  }

  predicate InRange(c: Clock) {
    0 <= c.hours && 0 <= c.mins < 60 && 0 <= c.secs < 60
  }

  /** Recomposition: a non-negative `diff` lies in the one-second window that
      its hours, minutes and seconds denote. */
  lemma DecomposeRecomposes(diff: int)
    requires diff >= 0
    ensures Compose(Decompose(diff)) <= diff < Compose(Decompose(diff)) + MsPerSecond
  {
    var c := Decompose(diff);
    var rh := diff % MsPerHour;
    var rm := rh % MsPerMinute;
    assert diff == c.hours * MsPerHour + rh;
    assert rh == c.mins * MsPerMinute + rm;
    assert diff == (c.hours * 60 + c.mins) * MsPerMinute + rm;
    DivModUnique(diff, MsPerMinute, c.hours * 60 + c.mins, rm);
    assert rm == c.secs * MsPerSecond + rm % MsPerSecond;
  }

  /** Quotient and remainder are determined by the division equation. */
  lemma DivModUnique(a: int, b: int, q: int, r: int)
    requires b > 0 && 0 <= r < b && a == q * b + r
    ensures a / b == q && a % b == r
  {
    var q', r' := a / b, a % b;
    var d := q - q';
    assert d * b == r' - r by {
      assert q * b - q' * b == r' - r;
      assert d * b == q * b - q' * b;
    }

  }

  /** Conversely every in-range reading is produced by exactly the
      milliseconds of its window. */
  lemma DecomposeOfWindow(c: Clock, extra: nat)
    requires InRange(c) && extra < MsPerSecond
    ensures Decompose(Compose(c) + extra) == c
  {
    var diff := Compose(c) + extra;
    var inMinute := c.secs * MsPerSecond + extra;
    var inHour := c.mins * MsPerMinute + inMinute;
    assert 0 <= inMinute < MsPerMinute;
    assert 0 <= inHour < MsPerHour;
    assert diff == c.hours * MsPerHour + inHour;
    DivModUnique(diff, MsPerHour, c.hours, inHour);
    DivModUnique(inHour, MsPerMinute, c.mins, inMinute);
    assert diff == (c.hours * 60 + c.mins) * MsPerMinute + inMinute;
    DivModUnique(diff, MsPerMinute, c.hours * 60 + c.mins, inMinute);
    DivModUnique(inMinute, MsPerSecond, c.secs, extra);
  }

  /** Lexicographic order on readings. */
  predicate LexLe(a: Clock, b: Clock) {
    || a.hours < b.hours
    || (a.hours == b.hours && a.mins < b.mins)
    || (a.hours == b.hours && a.mins == b.mins && a.secs <= b.secs)
  }

  /** Uptime never runs backwards: more elapsed time never gives a
      lexicographically smaller reading. */
  lemma DecomposeMonotone(d1: int, d2: int)
    requires 0 <= d1 <= d2
    ensures LexLe(Decompose(d1), Decompose(d2))
  {
    var a, b := Decompose(d1), Decompose(d2);
    DecomposeRecomposes(d1);
    DecomposeRecomposes(d2);
  }

  /** The uptime text `${hours}h ${mins}m ${secs}s`. It is unambiguous: it
      reads back as the reading printed. */
  function FormatUptime(c: Clock): (text: string)
    ensures ParseUptime(text) == Some(c)
  {
    ParseUptimeOfParts(c);
    IntToString(c.hours) + "h " + IntToString(c.mins) + "m " + IntToString(c.secs) + "s"
  }

  /** Splits `s` at the first occurrence of `sep`. */
  function SplitAt(s: string, sep: char): (r: Option<(string, string)>)
    ensures r.Some? ==> s == r.value.0 + [sep] + r.value.1 && sep !in r.value.0
    ensures r.None? ==> sep !in s
  {
    if s == [] then None
    else if s[0] == sep then Some(([], s[1..]))
    else match SplitAt(s[1..], sep)
      case None => None
      case Some(parts) => Some(([s[0]] + parts.0, parts.1))
  }

  lemma {:induction false} SplitAtJoin(a: string, sep: char, b: string)
    requires sep !in a
    ensures SplitAt(a + [sep] + b, sep) == Some((a, b))
  {
    if a == [] {
      assert a + [sep] + b == [sep] + b;
    } else {
      assert (a + [sep] + b)[1..] == a[1..] + [sep] + b;
      assert a[0] != sep;
      SplitAtJoin(a[1..], sep, b);
      assert [a[0]] + a[1..] == a;
    }
  }

  /** Reads an uptime text `<int>h <int>m <int>s` back into a reading. */
  function ParseUptime(s: string): Option<Clock> {
    match SplitAt(s, 'h')
    case None => None
    case Some(p1) =>
      if p1.1 == [] || p1.1[0] != ' ' then None
      else match SplitAt(p1.1[1..], 'm')
      case None => None
      case Some(p2) =>
        if p2.1 == [] || p2.1[0] != ' ' then None
        else match SplitAt(p2.1[1..], 's')
        case None => None
        case Some(p3) =>
          if p3.1 != [] then None
          else match (ParseInt(p1.0), ParseInt(p2.0), ParseInt(p3.0))
          case (Some(h), Some(m), Some(sec)) => Some(Clock(h, m, sec))
          case _ => None
  }

  lemma NumeralHasNoLetter(i: int, c: char)
    requires c == 'h' || c == 'm' || c == 's'
    ensures c !in IntToString(i)
  {
  }

  /** The three numerals, each followed by its unit letter, read back as
      the three numbers. */
  lemma ParseUptimeOfParts(c: Clock)
    ensures ParseUptime(IntToString(c.hours) + "h " + IntToString(c.mins) + "m " + IntToString(c.secs) + "s") == Some(c)
  {
    var h, m, sec := IntToString(c.hours), IntToString(c.mins), IntToString(c.secs);
    NumeralHasNoLetter(c.hours, 'h');
    NumeralHasNoLetter(c.mins, 'm');
    NumeralHasNoLetter(c.secs, 's');
    var rest1 := m + "m " + sec + "s";
    var rest2 := sec + "s";
    assert h + "h " + m + "m " + sec + "s" == h + ['h'] + (" " + rest1);
    SplitAtJoin(h, 'h', " " + rest1);
    assert (" " + rest1)[1..] == rest1;
    assert rest1 == m + ['m'] + (" " + rest2);
    SplitAtJoin(m, 'm', " " + rest2);
    assert (" " + rest2)[1..] == rest2;
    assert rest2 == sec + ['s'] + [];
    SplitAtJoin(sec, 's', []);
    ParseIntToString(c.hours);
    ParseIntToString(c.mins);
    ParseIntToString(c.secs);
  }

  /** The converse of the round trip: the parser accepts only the text
      `FormatUptime` prints, so that text is the only one that reads back
      as a given reading. */
  lemma ParseUptimeExact(s: string, c: Clock)
    requires ParseUptime(s) == Some(c)
    ensures s == FormatUptime(c)
  {
    var p1 := SplitAt(s, 'h').value;
    var p2 := SplitAt(p1.1[1..], 'm').value;
    var p3 := SplitAt(p2.1[1..], 's').value;
    assert p1.1 == [' '] + p1.1[1..] && p2.1 == [' '] + p2.1[1..] && p3.1 == [];
    ParseIntCanonical(p1.0, c.hours);
    ParseIntCanonical(p2.0, c.mins);
    ParseIntCanonical(p3.0, c.secs);
    Reassemble(s, p1.0, p1.1, p1.1[1..], p2.0, p2.1, p2.1[1..], p3.0);
  }

  /** The three splits of an uptime text put back together. */
  lemma Reassemble(s: string, h: string, t1: string, r1: string, m: string, t2: string, r2: string, sec: string)
    requires s == h + ['h'] + t1 && t1 == [' '] + r1
    requires r1 == m + ['m'] + t2 && t2 == [' '] + r2
    requires r2 == sec + ['s'] + []
    ensures s == h + "h " + m + "m " + sec + "s"
  {
  }

  /** The dashboard record; `uptime` is text. */
  datatype SystemMetrics = SystemMetrics(cpu: real, ram: real, disk: real, uptime: string)

  /** The record before the first update. Its uptime text has no seconds
      field, unlike every text an update writes. */
  const InitialMetrics := SystemMetrics(12.0, 38.0, 25.0, "0h 0m")

  lemma InitialUptimeHasOtherShape()
    ensures ParseUptime(InitialMetrics.uptime) == None
    ensures forall c :: FormatUptime(c) != InitialMetrics.uptime
  {
    assert InitialMetrics.uptime == "0" + ['h'] + " 0m";
    SplitAtJoin("0", 'h', " 0m");
    assert "0m" == "0" + ['m'] + [];
    SplitAtJoin("0", 'm', []);
  }

  /** `Math.min(hi, Math.max(lo, x))`. */
  function Clamp(lo: real, hi: real, x: real): (r: real)
    requires lo <= hi
    ensures lo <= r <= hi
    ensures lo <= x <= hi ==> r == x
    ensures x < lo ==> r == lo
    ensures x > hi ==> r == hi
  {
    if hi < (if lo < x then x else lo) then hi else (if lo < x then x else lo)
  }

  /** One update. `cpuNoise` and `ramNoise` stand for the two
      `Math.random()` draws and may be any reals. */
  function Update(prev: SystemMetrics, diff: int, cpuNoise: real, ramNoise: real): (next: SystemMetrics)
    ensures 2.0 <= next.cpu <= 90.0
    ensures 20.0 <= next.ram <= 80.0
    ensures next.disk == prev.disk
    ensures ParseUptime(next.uptime) == Some(Decompose(diff))
  {
    prev.(cpu := Clamp(2.0, 90.0, prev.cpu + (cpuNoise * 4.0 - 2.0)),
          ram := Clamp(20.0, 80.0, prev.ram + (ramNoise * 1.5 - 0.75)),
          uptime := FormatUptime(Decompose(diff)))
  }

  /** With draws in [0, 1) as `Math.random()` gives, a reading already in
      bounds moves by at most 2 (cpu) or 0.75 (ram) per update. */
  lemma UpdateStepIsSmall(prev: SystemMetrics, diff: int, cpuNoise: real, ramNoise: real)
    requires 0.0 <= cpuNoise < 1.0 && 0.0 <= ramNoise < 1.0
    requires 2.0 <= prev.cpu <= 90.0 && 20.0 <= prev.ram <= 80.0
    ensures -2.0 <= Update(prev, diff, cpuNoise, ramNoise).cpu - prev.cpu < 2.0
    ensures -0.75 <= Update(prev, diff, cpuNoise, ramNoise).ram - prev.ram < 0.75
  {
  }
}
