/**
 * The progress arithmetic that ProgressBar, StatsCard, the analytics page and
 * the learning page each write out inline: the rounded completion percentage,
 * the engagement tier, the "active time" text and the texts the statistics
 * cards display.
 *
 * JavaScript evaluates `Math.round((c / t) * 100)` and `c >= t * 0.5` on
 * floating-point numbers; here they are the exact rational computations
 * (half-up rounding of 100·c/t, and `2c >= t`, `5c >= 4t`).
 */
module Metrics {
  import opened Text

  /**
   * `Math.round((c / t) * 100)`: the integer nearest to 100·c/t, a half
   * rounded upward.
   */
  function RoundedPercent(c: nat, t: nat): (r: nat)
    requires t > 0
    ensures t * (2 * r - 1) <= 200 * c < t * (2 * r + 1)
    ensures c <= t ==> r <= 100
  {
    var r := (200 * c + t) / (2 * t);
    assert 2 * t * r <= 200 * c + t < 2 * t * r + 2 * t;
    ScaleStrict(t, 2 * r - 1, 200);
    r
  }

  /** A positive factor preserves and reflects strict order. */
  lemma ScaleStrict(t: nat, a: int, b: int)
    requires t > 0
    ensures a > b <==> t * a > t * b
  {
    assert t * a - t * b == t * (a - b);
    if a > b {
      assert t * (a - b) > 0;
    } else {
      assert t * (b - a) >= 0;
    }
  }

  /** No completed module is 0% and all of them is 100%. */
  lemma PercentEnds(t: nat)
    requires t > 0
    ensures RoundedPercent(0, t) == 0
    ensures RoundedPercent(t, t) == 100
  {
    var r := RoundedPercent(t, t);
    assert t * (2 * r - 1) <= t * 200 < t * (2 * r + 1);
    ScaleStrict(t, 2 * r - 1, 200);
    ScaleStrict(t, 2 * r + 1, 200);
  }

  /**
   * With fewer than 200 modules the rounding never reaches 0% or 100% early:
   * the percentage is 0 exactly when nothing is completed and 100 exactly
   * when everything is.
   */
  lemma PercentExtremes(c: nat, t: nat)
    requires 0 < t < 200 && c <= t
    ensures RoundedPercent(c, t) == 0 <==> c == 0
    ensures RoundedPercent(c, t) == 100 <==> c == t
  {
    var r := RoundedPercent(c, t);
    PercentEnds(t);
    if r == 0 {
      assert 200 * c < t;
    }
    if r == 100 {
      assert t * 199 <= 200 * c;
    }
  }

  /** More completed modules never show a smaller percentage. */
  lemma PercentMonotone(c1: nat, c2: nat, t: nat)
    requires t > 0 && c1 <= c2
    ensures RoundedPercent(c1, t) <= RoundedPercent(c2, t)
  {
    var r1, r2 := RoundedPercent(c1, t), RoundedPercent(c2, t);
    var low, high := 2 * (r1 as int) - 1, 2 * (r2 as int) + 1;
    assert t * low < t * high;
    ScaleStrict(t, high, low);
  }

  /** The engagement levels, in increasing order; `Low` is only the initial value. */
  datatype Engagement = Low | Beginner | Intermediate | Advanced

  function Rank(e: Engagement): nat
  {
    match e
    case Low => 0
    case Beginner => 1
    case Intermediate => 2
    case Advanced => 3
  }

  /** The text the components store and display for a level. */
  function EngagementLabel(e: Engagement): (s: string)
  {
    match e
    case Low => "Low"
    case Beginner => "Beginner"
    case Intermediate => "Intermediate"
    case Advanced => "Advanced"
  }

  lemma EngagementLabelInjective(e1: Engagement, e2: Engagement)
    ensures EngagementLabel(e1) == EngagementLabel(e2) <==> e1 == e2
  {
    if e1 != e2 {
      var s1, s2 := EngagementLabel(e1), EngagementLabel(e2);
      assert s1[0] != s2[0] || |s1| != |s2|;
    }
  }

  /**
   * The tier in closed form: Advanced from 80% of the modules on,
   * Intermediate from 50%, Beginner below that.
   */
  function Tier(c: nat, t: nat): Engagement
  {
    if 5 * c >= 4 * t then Advanced
    else if 2 * c >= t then Intermediate
    else Beginner
  }

  /**
   * The sequential assignments both statistics components use: start at
   * Beginner, raise to Intermediate at half, raise to Advanced at 80%; the
   * later test overrides the earlier one.
   */
  method EngagementLevel(c: nat, t: nat) returns (e: Engagement)
    ensures e == Tier(c, t)
    ensures e != Low
    ensures e == Beginner <==> 2 * c < t
    ensures e == Intermediate <==> 2 * c >= t && 5 * c < 4 * t
    ensures e == Advanced <==> 5 * c >= 4 * t
  {
    e := Beginner;
    if 2 * c >= t {
      e := Intermediate;
    }
    if 5 * c >= 4 * t {
      e := Advanced;
    }
  }

  /** Completing more modules never lowers the tier. */
  lemma TierMonotone(c1: nat, c2: nat, t: nat)
    requires c1 <= c2
    ensures Rank(Tier(c1, t)) <= Rank(Tier(c2, t))
    ensures Tier(c1, t) != Low
  {
  }

  /**
   * A number followed by a unit: decimal digits without a leading zero
   * (unless the number is 0), then the unit character.
   */
  predicate NumberWithUnit(s: string, unit: char)
  {
    && |s| >= 2 && s[|s| - 1] == unit && AllDigits(s[..|s| - 1])
    && (s[0] == '0' ==> |s| == 2)
  }

  /** `${c * 30}m`: thirty minutes per completed module. */
  function ActiveTime(c: nat): (s: string)
    ensures ParseInt(s) == Some(30 * c)
    ensures NumberWithUnit(s, 'm')
  {
    ParseUnsigned(30 * c, "m");
    var s := Decimal(30 * c) + "m";
    assert s[..|s| - 1] == Decimal(30 * c);
    s
  }

  /**
   * A ratio whose denominator is `t`: non-empty digits, a `/`, then the
   * decimal text of `t`.
   */
  predicate RatioOver(s: string, t: nat)
  {
    var k := |s| - |Decimal(t)| - 1;
    && 1 <= k && s[k] == '/' && AllDigits(s[..k])
    && s[k + 1..] == Decimal(t)
  }

  /** `${c}/${t}`, the "Completed Modules" value. */
  function CompletedText(c: nat, t: nat): (s: string)
    ensures ParseInt(s) == Some(c)
    ensures AfterLast(s, '/') == Decimal(t)
    ensures RatioOver(s, t)
  {
    CompletedTextParts(c, t);
    CompletedTextRatio(c, t);
    Decimal(c) + "/" + Decimal(t)
  }

  lemma CompletedTextRatio(c: nat, t: nat)
    ensures RatioOver(Decimal(c) + "/" + Decimal(t), t)
  {
    var n, d := Decimal(c), Decimal(t);
    var s := n + ("/" + d);
    assert s[..|n|] == n;
    assert s[|n| + 1..] == d;
    assert n + "/" + d == s;
  }

  lemma CompletedTextParts(c: nat, t: nat)
    ensures ParseInt(Decimal(c) + "/" + Decimal(t)) == Some(c)
    ensures AfterLast(Decimal(c) + "/" + Decimal(t), '/') == Decimal(t)
  {
    var d := Decimal(t);
    assert '/' !in d by {
      forall i | 0 <= i < |d| ensures d[i] != '/' {
        assert IsDigit(d[i]);
      }
    }
    var rest := "/" + d;
    assert rest[0] == '/';
    ParseUnsigned(c, rest);
    assert Decimal(c) + "/" + d == Decimal(c) + rest;
    AfterLastOfJoin(Decimal(c), '/', d);
  }

  /** `${r}%`, the percentage texts. */
  function PercentText(r: nat): (s: string)
    ensures ParseInt(s) == Some(r)
    ensures NumberWithUnit(s, '%')
  {
    ParseUnsigned(r, "%");
    var s := Decimal(r) + "%";
    assert s[..|s| - 1] == Decimal(r);
    s
  }

  /** The statistics record both statistics components keep. */
  datatype LearningStats = LearningStats(
    completedModules: nat,
    totalModules: nat,
    activeTime: string,
    progressRate: nat,
    engagement: Engagement)

  /** The state before any fetch: nothing completed, "0h", 0% and `Low`. */
  function InitialStats(total: nat): (s: LearningStats)
    ensures s.totalModules == total && s.engagement == Low
  {
    LearningStats(0, total, "0h", 0, Low)
  }

  /** The record a successful fetch of `c` completed rows produces out of `t` modules. */
  function ComputedStats(c: nat, t: nat): (s: LearningStats)
    requires t > 0
    ensures s.completedModules == c && s.totalModules == t
    ensures s.engagement != Low && s.engagement == Tier(c, t)
    ensures c <= t ==> s.progressRate <= 100
    ensures ParseInt(s.activeTime) == Some(30 * c) && NumberWithUnit(s.activeTime, 'm')
  {
    LearningStats(c, t, ActiveTime(c), RoundedPercent(c, t), Tier(c, t))
  }

  /** Every computed record differs from the initial one, whose tier is `Low`. */
  lemma ComputedIsNotInitial(c: nat, t: nat, total: nat)
    requires t > 0
    ensures ComputedStats(c, t) != InitialStats(total)
  {
  }

  /** `progressData?.length || 0`: the row count, with null data counting as none. */
  function CountOrZero<T>(data: Option<seq<T>>): (n: nat)
    ensures data.None? ==> n == 0
    ensures data.Some? ==> n == |data.value|
  {
    if data.Some? then |data.value| else 0
  }

  /** The four cards' values, in display order: ratio, active time, rate, tier. */
  function DisplayValues(s: LearningStats): (v: seq<string>)
    ensures |v| == 4
    ensures ParseInt(v[0]) == Some(s.completedModules) && AfterLast(v[0], '/') == Decimal(s.totalModules)
    ensures RatioOver(v[0], s.totalModules)
    ensures v[1] == s.activeTime
    ensures ParseInt(v[2]) == Some(s.progressRate) && NumberWithUnit(v[2], '%')
    ensures v[3] == EngagementLabel(s.engagement)
  {
    var ratio := CompletedText(s.completedModules, s.totalModules);
    var rate := PercentText(s.progressRate);
    [ratio, s.activeTime, rate, EngagementLabel(s.engagement)]
  }

  /** The "Completed Modules" card's secondary text, the rate again. */
  function CompletedChange(s: LearningStats): (v: string)
    ensures ParseInt(v) == Some(s.progressRate) && NumberWithUnit(v, '%')
  {
    PercentText(s.progressRate)
  }
}
