/** The comfort score of a temperature and a humidity, over the reals. */
module Humiture {
  /** Between the four lines of the comfort region. */
  predicate Comfortable(t: real, h: real) {
    h < 227.85 - 6.57 * t && h < 1019.0 - 37.0 * t && h > 1317.5 - 55.0 * t && h > 58.57 - 1.43 * t
  }

  function TemperatureScore(t: real): real {
    if t < 15.0 then 40.0 - (15.0 - t) / 2.0 * 5.0
    else if t < 18.0 then 42.5 - (18.0 - t) / 3.0 * 2.5
    else if t < 24.0 then 45.0 - (24.0 - t) / 6.0 * 2.5
    else if t < 27.0 then 45.0 - (t - 24.0) / 3.0 * 2.5
    else 42.5 - (t - 27.0) / 8.0 * 42.5
  }

  function HumidityScore(h: real): real {
    if h < 40.0 then h
    else if h < 45.0 then 42.5 - (45.0 - h) / 5.0 * 2.5
    else if h < 55.0 then 45.0 - (55.0 - h) / 10.0 * 2.5
    else if h < 65.0 then 45.0 - (h - 55.0) / 10.0 * 2.5
    else if h < 70.0 then 42.5 - (h - 65.0) / 5.0 * 2.5
    else 40.0 - (h - 70.0) / 30.0 * 40.0
  }

  /** The cast to int drops the fraction, towards zero. */
  function Truncated(x: real): int {
    if x >= 0.0 then x.Floor else -((-x).Floor)
  }

  /** d is the distance from the best point, 25 degrees and 50 percent. */
  predicate Distance(t: real, h: real, d: real) {
    d >= 0.0 && d * d == (t - 25.0) * (t - 25.0) + (h - 50.0) * (h - 50.0)
  }

  function Result(t: real, h: real, d: real): real {
    if Comfortable(t, h) then 100.0 - d / 30.0 * 10.0 else TemperatureScore(t) + HumidityScore(h)
  }

  function GetHumitureScore(t: real, h: real, d: real): int
    requires Distance(t, h, d)
  {
    Truncated(Result(t, h, d))
  }

  lemma Squares(x: real, b: real)
    requires -b <= x <= b
    ensures 0.0 <= x * x <= b * b
  {
    assert 0.0 <= (b - x) * (b + x) == b * b - x * x;
  }

  lemma RootBound(d: real, b: real)
    requires d >= 0.0 && b >= 0.0 && d * d <= b * b
    ensures d <= b
  {
    assert d > b ==> d * (d - b) > 0.0 && b * (d - b) >= 0.0;
  }

  /** The region lies within 2.5 degrees and 31 percent of the best point. */
  lemma RegionIsSmall(t: real, h: real)
    requires Comfortable(t, h)
    ensures -2.51 <= t - 25.0 <= 2.51 && -31.0 <= h - 50.0 <= 31.0
  {
  }

  lemma InsideScores(t: real, h: real, d: real)
    requires Distance(t, h, d) && Comfortable(t, h)
    ensures 89 <= GetHumitureScore(t, h, d) <= 100
  {
    RegionIsSmall(t, h);
    Squares(t - 25.0, 2.51);
    Squares(h - 50.0, 31.0);
    RootBound(d, 33.0);
  }

  /** Each piece is at most 45, and both reach it only at 24 degrees and 55 percent, which is comfortable. */
  lemma PeakIsComfortable(t: real, h: real)
    ensures TemperatureScore(t) <= 45.0 && HumidityScore(h) <= 45.0
    ensures TemperatureScore(t) + HumidityScore(h) == 90.0 <==> t == 24.0 && h == 55.0
    ensures Comfortable(24.0, 55.0)
  {
  }

  lemma OutsideScores(t: real, h: real, d: real)
    requires Distance(t, h, d) && !Comfortable(t, h)
    ensures GetHumitureScore(t, h, d) <= 89
  {
    PeakIsComfortable(t, h);
    assert Result(t, h, d) < 90.0;
  }

  /** No reading outside the region outranks one inside. */
  lemma InsideRanksFirst(t: real, h: real, d: real, t': real, h': real, d': real)
    requires Distance(t, h, d) && Comfortable(t, h) && Distance(t', h', d') && !Comfortable(t', h')
    ensures GetHumitureScore(t', h', d') <= 89 <= GetHumitureScore(t, h, d)
  {
    InsideScores(t, h, d);
    OutsideScores(t', h', d');
  }

  /** The bound of 89 is reached from both sides, so a tie is possible. */
  lemma TieIsPossible()
    ensures exists t, h, d, t', h', d' ::
      && Distance(t, h, d) && Comfortable(t, h) && Distance(t', h', d') && !Comfortable(t', h')
      && GetHumitureScore(t, h, d) == 89 == GetHumitureScore(t', h', d')
  {
    var d := 30.04;
    var t, h := 25.0 - d * 4820.0 / 58181.0, 50.0 + d * 57981.0 / 58181.0;
    assert Distance(t, h, d) && Comfortable(t, h) && GetHumitureScore(t, h, d) == 89;
    var t', h', d' := 22.9, 55.04, 5.46;
    assert Distance(t', h', d') && !Comfortable(t', h') && GetHumitureScore(t', h', d') == 89;
  }

  /** Nearby temperatures score nearly the same: the pieces meet, and no slope is steeper than the last one. */
  lemma TemperatureContinuous(s: real, t: real)
    requires s <= t
    ensures -5.3125 * (t - s) <= TemperatureScore(t) - TemperatureScore(s) <= 5.3125 * (t - s)
  {
  }

  lemma HumidityContinuous(g: real, h: real)
    requires g <= h
    ensures -4.0 * (h - g) <= 3.0 * (HumidityScore(h) - HumidityScore(g)) <= 4.0 * (h - g)
  {
  }

  /** The temperature scores by the values at 13, 15, 18, 24, 27 and 35 degrees, and straight lines through them. */
  lemma TemperaturePieces(t: real)
    ensures t <= 15.0 ==> 2.0 * TemperatureScore(t) == (15.0 - t) * 35.0 + (t - 13.0) * 40.0
    ensures 15.0 <= t <= 18.0 ==> 3.0 * TemperatureScore(t) == (18.0 - t) * 40.0 + (t - 15.0) * 42.5
    ensures 18.0 <= t <= 24.0 ==> 6.0 * TemperatureScore(t) == (24.0 - t) * 42.5 + (t - 18.0) * 45.0
    ensures 24.0 <= t <= 27.0 ==> 3.0 * TemperatureScore(t) == (27.0 - t) * 45.0 + (t - 24.0) * 42.5
    ensures 27.0 <= t ==> 8.0 * TemperatureScore(t) == (35.0 - t) * 42.5
  {
  }

  /** The humidity scores by the values at 0, 40, 45, 55, 65, 70 and 100 percent, likewise. */
  lemma HumidityPieces(h: real)
    ensures h <= 40.0 ==> 40.0 * HumidityScore(h) == h * 40.0
    ensures 40.0 <= h <= 45.0 ==> 5.0 * HumidityScore(h) == (45.0 - h) * 40.0 + (h - 40.0) * 42.5
    ensures 45.0 <= h <= 55.0 ==> 10.0 * HumidityScore(h) == (55.0 - h) * 42.5 + (h - 45.0) * 45.0
    ensures 55.0 <= h <= 65.0 ==> 10.0 * HumidityScore(h) == (65.0 - h) * 45.0 + (h - 55.0) * 42.5
    ensures 65.0 <= h <= 70.0 ==> 5.0 * HumidityScore(h) == (70.0 - h) * 42.5 + (h - 65.0) * 40.0
    ensures 70.0 <= h ==> 30.0 * HumidityScore(h) == (100.0 - h) * 40.0
  {
  }

  /** The score in whole numbers: 100 less a third of the distance inside the region, the sum of the pieces outside. */
  lemma ScoreIs(t: real, h: real, d: real)
    requires Distance(t, h, d)
    ensures
      var n := GetHumitureScore(t, h, d) as real; var sum := TemperatureScore(t) + HumidityScore(h);
      if 657.0 * t + 100.0 * h < 22785.0 && 37.0 * t + h < 1019.0
        && 550.0 * t + 10.0 * h > 13175.0 && 143.0 * t + 100.0 * h > 5857.0
      then 3.0 * n <= 300.0 - d < 3.0 * n + 3.0
      else if sum >= 0.0 then n <= sum < n + 1.0 else n - 1.0 < sum <= n
  {
    if Comfortable(t, h) {
      InsideScores(t, h, d);
    }
  }
}
