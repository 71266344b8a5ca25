/** Brightness between Home Assistant's 0..255 and a Loxone range (`map_range`,
    `lox_to_hass_range` and `hass_to_lox_range` in
    custom_components/loxone/helpers.py), over the reals. */
module Brightness {
  import opened Wire

  /** Python's `round`: to the nearest integer, ties to the even one. */
  function Round(x: real): int
  {
    var f := x.Floor;
    var d := x - f as real;
    if d < 0.5 then f else if d > 0.5 then f + 1 else if f % 2 == 0 then f else f + 1
  }

  lemma RoundIsNearest(x: real)
    ensures -0.5 <= Round(x) as real - x <= 0.5
  {
  }

  lemma RoundMonotone(x: real, y: real)
    requires x <= y
    ensures Round(x) <= Round(y)
  {
    if x.Floor < y.Floor { assert Round(x) <= x.Floor + 1 <= y.Floor <= Round(y); }
  }

  lemma RoundOfInteger(n: int)
    ensures Round(n as real) == n
  {
  }

  /** Where a value falls back to an integer it started from. */
  lemma RoundsDownIff(n: int, d: real)
    requires d >= 0.0
    ensures Round(n as real + d) <= n <==> d < 0.5 || (d == 0.5 && n % 2 == 0)
  {
    if d < 1.0 {
      assert (n as real + d).Floor == n;
    } else {
      assert (n as real + d).Floor >= n + 1;
    }
  }

  function Times(x: real, y: real): real
  {
    x * y
  }

  function MapRange(value: real, inMin: real, inMax: real, outMin: real, outMax: real): real
  {
    if inMax == inMin then outMin
    else outMin + Times((value - inMin) / (inMax - inMin), outMax - outMin)
  }

  function Clamp(n: int): int
  {
    var floored := if n >= 1 then n else 1;
    if floored <= 255 then floored else 255
  }

  function LoxToHass(value: Option<real>, min: real, max: real): int
  {
    match value
    case None => 0
    case Some(v) =>
      if max <= min then (if v >= min then 255 else 0)
      else if v <= min then 0
      else Clamp(Round(MapRange(v, min, max, 0.0, 255.0)))
  }

  function HassToLox(level: Option<int>, min: real, max: real): real
  {
    if level == None || level == Some(0) then 0.0
    else if max <= min then max
    else
      var r := Round(MapRange(level.value as real, 1.0, 255.0, min, max));
      if r >= 1 then r as real else 1.0
  }

  /* ---- arithmetic ---- */

  lemma TimesLe(x: real, y: real, k: real)
    requires x <= y && k >= 0.0
    ensures Times(x, k) <= Times(y, k)
  {
  }

  lemma TimesLt(x: real, y: real, k: real)
    requires x < y && k > 0.0
    ensures Times(x, k) < Times(y, k)
  {
  }

  lemma TimesUnit(k: real)
    ensures Times(0.0, k) == 0.0 && Times(1.0, k) == k
  {
  }

  lemma TimesMinus(x: real, y: real, k: real)
    ensures Times(x - y, k) == Times(x, k) - Times(y, k)
  {
  }

  lemma TimesQuotient(x: real, k: real)
    requires k != 0.0
    ensures Times(x / k, k) == x
  {
  }

  lemma DivideLe(x: real, y: real, k: real)
    requires x <= y && k > 0.0
    ensures x / k <= y / k
  {
    TimesQuotient(x, k);
    TimesQuotient(y, k);
    if x / k > y / k { TimesLt(y / k, x / k, k); }
  }

  /** A factor is as small as its product. */
  lemma FactorBound(q: real, d: real)
    requires d > 0.0 && -1.0 <= Times(q, d) <= 1.0
    ensures -(1.0 / d) <= q <= 1.0 / d
  {
    TimesQuotient(1.0, d);
    TimesUnit(d);
    TimesMinus(0.0, 1.0 / d, d);
    if q > 1.0 / d { TimesLt(1.0 / d, q, d); }
    if q < 0.0 - 1.0 / d { TimesLt(q, 0.0 - 1.0 / d, d); }
  }

  /* ---- reading ---- */

  /** Brightness is always in 0..255, and 0 only for a missing value, at or below the
      minimum of a proper range, or below a single-valued one. */
  lemma ReadRange(value: Option<real>, min: real, max: real)
    ensures 0 <= LoxToHass(value, min, max) <= 255
    ensures LoxToHass(value, min, max) == 0 <==>
              value.None? || (if max <= min then value.value < min else value.value <= min)
  {
  }

  /** A value that is missing reads as off, a single-valued range as fully on from that
      value upwards; off is written as 0, and a level in such a range as its value. */
  lemma WithoutRange(value: real, level: int, min: real, max: real)
    requires max <= min && level != 0
    ensures LoxToHass(None, min, max) == 0 && LoxToHass(Some(value), min, max) == if value < min then 0 else 255
    ensures HassToLox(None, min, max) == HassToLox(Some(0), min, max) == 0.0 && HassToLox(Some(level), min, max) == max
  {
  }

  /** The ends of a proper range: its maximum reads as fully on, and fully on is
      written as the maximum, rounded and at least 1. */
  lemma EndsOfTheRange(min: real, max: real)
    requires min < max
    ensures LoxToHass(Some(max), min, max) == 255
    ensures HassToLox(Some(255), min, max) == (if Round(max) >= 1 then Round(max) as real else 1.0)
    ensures HassToLox(None, min, max) == HassToLox(Some(0), min, max) == 0.0 && LoxToHass(None, min, max) == 0
  {
    TimesUnit(255.0);
    TimesUnit(max - min);
    WholeOf(max - min);
    WholeOf(255.0 - 1.0);
    RoundOfInteger(255);
  }

  lemma WholeOf(d: real)
    requires d > 0.0
    ensures d / d == 1.0
  {
  }

  lemma ReadMonotone(a: real, b: real, min: real, max: real)
    requires a <= b
    ensures LoxToHass(Some(a), min, max) <= LoxToHass(Some(b), min, max)
  {
    if min < max && a > min {
      var d := max - min;
      DivideLe(a - min, b - min, d);
      TimesLe((a - min) / d, (b - min) / d, 255.0);
      RoundMonotone(MapRange(a, min, max, 0.0, 255.0), MapRange(b, min, max, 0.0, 255.0));
    }
  }

  /* ---- writing ---- */

  /** The share of the range a level from 1 to 255 stands for. */
  function Share(level: int): real
  {
    (level as real - 1.0) / 254.0
  }

  function Exact(level: int, min: real, max: real): real
  {
    min + Times(Share(level), max - min)
  }

  lemma WriteIsRounded(level: int, min: real, max: real)
    requires level != 0 && min < max
    ensures var r := Round(Exact(level, min, max));
            HassToLox(Some(level), min, max) == if r >= 1 then r as real else 1.0
  {
  }

  lemma ExactBounds(a: int, b: int, min: real, max: real)
    requires 1 <= a <= b <= 255 && min < max
    ensures min <= Exact(a, min, max) <= Exact(b, min, max) <= max
    ensures Exact(1, min, max) == min && Exact(255, min, max) == max
  {
    var d := max - min;
    TimesUnit(d);
    TimesLe(0.0, Share(a), d);
    TimesLe(Share(a), Share(b), d);
    TimesLe(Share(b), 1.0, d);
    assert Share(1) == 0.0 && Share(255) == 1.0;
  }

  lemma WriteMonotone(a: int, b: int, min: real, max: real)
    requires 0 <= a <= b <= 255 && min < max
    ensures HassToLox(Some(a), min, max) <= HassToLox(Some(b), min, max)
  {
    if a > 0 {
      ExactBounds(a, b, min, max);
      RoundMonotone(Exact(a, min, max), Exact(b, min, max));
      WriteIsRounded(a, min, max);
      WriteIsRounded(b, min, max);
    }
  }

  /** No level is written outside the range exactly when neither bound rounds out of
      it and the range reaches 1. */
  lemma WriteStaysInRangeIff(min: real, max: real)
    requires 0.0 <= min < max
    ensures (forall h :: 1 <= h <= 255 ==> min <= HassToLox(Some(h), min, max) <= max)
        <==> max >= 1.0 && Round(max) as real <= max && (Round(min) as real >= min || min <= 1.0)
  {
    ExactBounds(1, 255, min, max);
    WriteIsRounded(1, min, max);
    WriteIsRounded(255, min, max);
    RoundIsNearest(min);
    RoundIsNearest(max);
    if max >= 1.0 && Round(max) as real <= max && (Round(min) as real >= min || min <= 1.0) {
      forall h | 1 <= h <= 255 ensures min <= HassToLox(Some(h), min, max) <= max {
        ExactBounds(h, 255, min, max);
        WriteIsRounded(h, min, max);
        RoundMonotone(min, Exact(h, min, max));
        RoundMonotone(Exact(h, min, max), max);
      }
    }
    if forall h :: 1 <= h <= 255 ==> min <= HassToLox(Some(h), min, max) <= max {
      assert min <= HassToLox(Some(1), min, max) && HassToLox(Some(255), min, max) <= max;
    }
  }

  /** In particular integer bounds are never exceeded once the maximum is at least 1. */
  lemma IntegerBoundsAreKept(min: int, max: int, h: int)
    requires 0 <= min < max && 1 <= h <= 255
    ensures min as real <= HassToLox(Some(h), min as real, max as real) <= max as real
  {
    RoundOfInteger(min);
    RoundOfInteger(max);
    WriteStaysInRangeIff(min as real, max as real);
  }

  /* ---- writing, then reading ---- */

  lemma WriteIsClose(h: int, min: real, max: real)
    requires 0.0 <= min < max && 1 <= h <= 255
    ensures -1.0 <= HassToLox(Some(h), min, max) - Exact(h, min, max) <= 1.0
  {
    ExactBounds(h, h, min, max);
    WriteIsRounded(h, min, max);
    RoundIsNearest(Exact(h, min, max));
  }

  lemma ReadUnrounded(y: real, h: int, min: real, max: real)
    requires min < max && 1 <= h <= 255 && -1.0 <= y - Exact(h, min, max) <= 1.0
    ensures var z := MapRange(y, min, max, 0.0, 255.0);
            -1.0 - 255.0 / (max - min) <= z - h as real <= 255.0 / (max - min)
  {
    var d := max - min;
    var q, s := (y - min) / d, Share(h);
    TimesQuotient(y - min, d);
    TimesMinus(q, s, d);
    FactorBound(q - s, d);
    assert 255.0 * (1.0 / d) == 255.0 / d;
  }

  /** Writing a level and reading it back loses at most 1.5 + 255/(max - min). */
  lemma WriteThenRead(h: int, min: real, max: real)
    requires 0.0 <= min < max && 1 <= h <= 255
    ensures var back := LoxToHass(Some(HassToLox(Some(h), min, max)), min, max);
            -1.5 - 255.0 / (max - min) <= back as real - h as real <= 1.5 + 255.0 / (max - min)
  {
    var y, d := HassToLox(Some(h), min, max), max - min;
    WriteIsClose(h, min, max);
    ReadUnrounded(y, h, min, max);
    var z := MapRange(y, min, max, 0.0, 255.0);
    RoundIsNearest(z);
    DivideLe(0.0, 255.0, d);
    if y <= min {
      DivideLe(y - min, 0.0, d);
      TimesLe((y - min) / d, 0.0, 255.0);
      TimesUnit(255.0);
    }
  }

  /** How far above the integer below the minimum a level lies before rounding. */
  function AboveFloor(h: int, min: real, max: real): real
  {
    Exact(h, min, max) - min.Floor as real
  }

  /** A level that is on reads back as off exactly when it falls back to the integer
      at or below the minimum, the minimum being 1 or more. */
  lemma ReadsBackOffIff(h: int, min: real, max: real)
    requires 0.0 <= min < max && 1 <= h <= 255
    ensures var x := AboveFloor(h, min, max);
            LoxToHass(Some(HassToLox(Some(h), min, max)), min, max) == 0 <==>
              min >= 1.0 && (x < 0.5 || (x == 0.5 && min.Floor % 2 == 0))
  {
    var n := min.Floor;
    ExactBounds(h, h, min, max);
    WriteIsRounded(h, min, max);
    RoundsDownIff(n, AboveFloor(h, min, max));
    assert n as real + AboveFloor(h, min, max) == Exact(h, min, max);
    ReadRange(Some(HassToLox(Some(h), min, max)), min, max);
    if min >= 1.0 {
      RoundOfInteger(1);
      RoundMonotone(1.0, Exact(h, min, max));
    }
  }

  lemma SharedFactor(h: int, width: real)
    ensures Times(Share(h), width) == Times((h - 1) as real, width) / 254.0
  {
    var n := h as real - 1.0;
    assert (n / 254.0) * width == (n * width) / 254.0;
  }

  /** For an integer minimum: exactly when its share of the range rounds away. */
  lemma ReadsBackOffAboveInteger(h: int, min: int, max: real)
    requires 0 <= min && min as real < max && 1 <= h <= 255
    ensures var raised := Times((h - 1) as real, max - min as real);
            LoxToHass(Some(HassToLox(Some(h), min as real, max)), min as real, max) == 0 <==>
              min >= 1 && (raised < 127.0 || (raised == 127.0 && min % 2 == 0))
  {
    ReadsBackOffIff(h, min as real, max);
    SharedFactor(h, max - min as real);
  }

  /** So the maps are no exact inverses: level 1 is lost for every minimum of 1 or more. */
  lemma LevelOneIsLost(min: int, max: real)
    requires 1 <= min && min as real < max
    ensures LoxToHass(Some(HassToLox(Some(1), min as real, max)), min as real, max) == 0
  {
    ReadsBackOffAboveInteger(1, min, max);
    TimesUnit(max - min as real);
  }
}
