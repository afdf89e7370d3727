/** The y-axis of the particle chart: the sums of the three PM channels'
    extremes, the bounds rounded outwards to multiples of ten, and the values
    of the five horizontal grid labels, all in the firmware's unsigned 32-bit
    arithmetic with the final cast of each label to 16 bits. */
module ChartScale {
  import opened FixedWidth

  /** The three uint16_t extremes are promoted to int, added, and stored in a
      uint32_t; the largest possible sum, 196605, is far below 2^32. */
  function ChannelSum(pm010: U16, pm025: U16, pm100: U16): (r: U32)
    ensures r == pm010 + pm025 + pm100
    ensures r <= 3 * 0xFFFF
  {
    WrapU32(pm010 + pm025 + pm100)
  }

  /** graphLowerBound: minVal rounded down to a multiple of ten. */
  function GraphLowerBound(minVal: U32): (r: U32)
    ensures r % 10 == 0
    ensures r <= minVal < r + 10
  {
    WrapU32((minVal / 10) * 10)
  }

  /** graphUpperBound: the next multiple of ten strictly above maxVal. The
      product is computed in 32 bits, so for maxVal >= 4294967290 it wraps
      around to 4. */
  function GraphUpperBound(maxVal: U32): (r: U32)
    ensures maxVal < 0xFFFF_FFFA ==> r % 10 == 0 && maxVal < r <= maxVal + 10
    ensures maxVal >= 0xFFFF_FFFA ==> r == 4
  {
    WrapU32(((maxVal / 10) + 1) * 10)
  }

  /** The chart's bounds over the three PM histories. When each history's
      minimum is at most its maximum, the lower bound is at or below every
      summed minimum, the upper bound lies strictly above the summed maximum,
      the range is at least ten (so the float scale divisor of the bar-height
      mapping is never zero), and the upper bound stays at most 196610. */
  lemma ParticleScale(min010: U16, min025: U16, min100: U16, max010: U16, max025: U16, max100: U16)
    requires min010 <= max010 && min025 <= max025 && min100 <= max100
    ensures var lo := GraphLowerBound(ChannelSum(min010, min025, min100));
            var hi := GraphUpperBound(ChannelSum(max010, max025, max100));
            lo <= ChannelSum(min010, min025, min100) <= ChannelSum(max010, max025, max100) < hi
            && hi - lo >= 10 && hi <= 3 * 0xFFFF + 5
  {
  }

  /** The value of the ly-th horizontal grid label (ly = 0 is the top line)
      before its cast to uint16_t: the 32-bit width of the range, divided by
      five, times 5 - ly, plus the lower bound, each step reduced modulo 2^32. */
  function YLabelWide(lower: U32, upper: U32, ly: U8): U32
    requires ly < 5
  {
    WrapU32(WrapU32(WrapU32(upper - lower) / 5 * (5 - ly)) + lower)
  }

  /** The label value as the firmware draws it, after the uint16_t cast;
      the cast changes nothing while the label fits in 16 bits. */
  function YLabel(lower: U32, upper: U32, ly: U8): (r: U16)
    requires ly < 5
    ensures YLabelWide(lower, upper, ly) <= 0xFFFF ==> r == YLabelWide(lower, upper, ly)
  {
    WrapU16(YLabelWide(lower, upper, ly))
  }

  /** For a range of at least five, no step of the label arithmetic wraps:
      the label is lower plus 5 - ly fifths of the range, strictly above
      lower and at most upper, and the top label is upper itself when the
      range is a multiple of five. */
  lemma YLabelInRange(lower: U32, upper: U32, ly: U8)
    requires lower + 5 <= upper && ly < 5
    ensures YLabelWide(lower, upper, ly) == (upper - lower) / 5 * (5 - ly) + lower
    ensures lower < YLabelWide(lower, upper, ly) <= upper
    ensures ly == 0 && (upper - lower) % 5 == 0 ==> YLabelWide(lower, upper, 0) == upper
  {
  }

  /** Lower lines carry strictly smaller labels: the labels fall from top to
      bottom. */
  lemma YLabelDecreasing(lower: U32, upper: U32, i: U8, j: U8)
    requires lower + 5 <= upper && i < j < 5
    ensures YLabelWide(lower, upper, i) > YLabelWide(lower, upper, j)
  {
    YLabelInRange(lower, upper, i);
    YLabelInRange(lower, upper, j);
    MulStrictlyIncreasing((upper - lower) / 5, 5 - j, 5 - i);
  }

  lemma {:induction false} MulStrictlyIncreasing(step: nat, m: nat, k: nat)
    requires step >= 1 && m < k
    ensures step * m < step * k
    decreases k - m
  {
    assert step * (m + 1) == step * m + step;
    if m + 1 < k {
      MulStrictlyIncreasing(step, m + 1, k);
    }
  }

  /** The horizontal grid loop of displayParticleCount: the five label values
      it draws, top line first. With bounds at most 65535 apart from the cast,
      and a range of at least five, they fall strictly and lie in
      (lower, upper]. */
  method YAxisLabels(lower: U32, upper: U32) returns (labels: seq<U16>)
    ensures |labels| == 5
    ensures forall ly :: 0 <= ly < 5 ==> labels[ly] == YLabel(lower, upper, ly)
    ensures lower + 5 <= upper <= 0xFFFF ==>
      (forall ly :: 0 <= ly < 5 ==> lower < labels[ly] <= upper) &&
      (forall i, j :: 0 <= i < j < 5 ==> labels[i] > labels[j])
  {
    labels := [];
    for ly := 0 to 5
      invariant |labels| == ly
      invariant forall k :: 0 <= k < ly ==> labels[k] == YLabel(lower, upper, k)
    {
      labels := labels + [YLabel(lower, upper, ly)];
    }
    if lower + 5 <= upper <= 0xFFFF {
      forall ly | 0 <= ly < 5
        ensures lower < labels[ly] <= upper
      {
        YLabelInRange(lower, upper, ly);
      }
      forall i, j | 0 <= i < j < 5
        ensures labels[i] > labels[j]
      {
        YLabelInRange(lower, upper, i);
        YLabelInRange(lower, upper, j);
        YLabelDecreasing(lower, upper, i, j);
      }
    }
  }

  /** What the screen shows for the particle histories: the bounds from the
      three channels' extremes give grid-label values, before the uint16_t
      cast, that lie in (lower, upper], the top one being the upper bound
      itself. */
  lemma ParticleAxisLabels(min010: U16, min025: U16, min100: U16, max010: U16, max025: U16, max100: U16,
                           ly: U8)
    requires min010 <= max010 && min025 <= max025 && min100 <= max100 && ly < 5
    ensures var lo := GraphLowerBound(ChannelSum(min010, min025, min100));
            var hi := GraphUpperBound(ChannelSum(max010, max025, max100));
            lo < YLabelWide(lo, hi, ly) <= hi && YLabelWide(lo, hi, 0) == hi
  {
    var lo := GraphLowerBound(ChannelSum(min010, min025, min100));
    var hi := GraphUpperBound(ChannelSum(max010, max025, max100));
    ParticleScale(min010, min025, min100, max010, max025, max100);
    TensDifferByFives(lo, hi);
    YLabelInRange(lo, hi, ly);
    YLabelInRange(lo, hi, 0);
  }

  lemma TensDifferByFives(a: nat, b: nat)
    requires a % 10 == 0 && b % 10 == 0 && a <= b
    ensures (b - a) % 5 == 0
  {
  }
}
