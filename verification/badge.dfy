/**
 The circular score gauge: the score is clamped to 0..100, coloured and
 labelled by band, and drawn as an arc whose dash offset is the part of the
 circle left unfilled.
*/
module Badge {

  /** `max(0.0, min(100.0, score))`. */
  function Clamp(score: real): (r: real)
    ensures 0.0 <= r <= 100.0
    ensures 0.0 <= score <= 100.0 ==> r == score
    ensures score < 0.0 ==> r == 0.0
    ensures score > 100.0 ==> r == 100.0
  {
    if score > 100.0 then 100.0 else if score < 0.0 then 0.0 else score
  }

  /** The three bands of the gauge, from worst to best. */
  datatype Band = NeedsWork | OkayMatch | StrongFit {
    /** The stroke and text colour. */
    function Colour(): string {
      match this
      case NeedsWork => "#ef4444"
      case OkayMatch => "#f59e0b"
      case StrongFit => "#10b981"
    }

    /** The caption next to the gauge. */
    function Label(): string {
      match this
      case NeedsWork => "Needs Work"
      case OkayMatch => "Okay Match"
      case StrongFit => "Strong Fit"
    }

    /** Position in the order worst to best. */
    function Rank(): nat {
      match this
      case NeedsWork => 0
      case OkayMatch => 1
      case StrongFit => 2
    }
  }

  /** The band of a clamped score: below 50, below 75, or 75 and above. */
  function BandOf(score: real): (b: Band)
    ensures b == NeedsWork <==> score < 50.0
    ensures b == OkayMatch <==> 50.0 <= score < 75.0
    ensures b == StrongFit <==> score >= 75.0
  {
    if score < 50.0 then NeedsWork
    else if score < 75.0 then OkayMatch
    else StrongFit
  }

  /** What the gauge shows: the clamped score, its band and the dash offset
      of the arc. */
  datatype Gauge = Gauge(shown: real, band: Band, offset: real)

  /** `score_badge(score)` for a circle of circumference `circumference`
      (`2 * pi * 56` in the source). */
  function ScoreBadge(circumference: real, score: real): (g: Gauge)
    requires circumference > 0.0
    ensures 0.0 <= g.shown <= 100.0
    ensures 0.0 <= score <= 100.0 ==> g.shown == score
    ensures g.band == BandOf(g.shown)
    ensures 0.0 <= g.offset <= circumference
    ensures g.offset == 0.0 <==> g.shown == 100.0
    ensures g.offset == circumference <==> g.shown == 0.0
  {
    var s := Clamp(score);
    Gauge(s, BandOf(s), DashOffset(circumference, s))
  }

  /** The dash offset of the arc for a shown score: the unfilled share of
      the circle. */
  function DashOffset(circumference: real, shown: real): (off: real)
    requires circumference > 0.0 && 0.0 <= shown <= 100.0
    ensures 0.0 <= off <= circumference
    ensures off == 0.0 <==> shown == 100.0
    ensures off == circumference <==> shown == 0.0
  {
    ScaleBetween(circumference, 1.0 - shown / 100.0);
    circumference * (1.0 - shown / 100.0)
  }

  /** A larger shown score leaves no more of the arc unfilled. */
  lemma DashOffsetAntitone(circumference: real, a: real, b: real)
    requires circumference > 0.0 && 0.0 <= a <= b <= 100.0
    ensures DashOffset(circumference, a) >= DashOffset(circumference, b)
  {
    assert 1.0 - b / 100.0 <= 1.0 - a / 100.0;
    MulMonotone(circumference, 1.0 - b / 100.0, 1.0 - a / 100.0);
  }

  /** The filled part of the arc is the score's share of the circle. */
  lemma FilledShare(circumference: real, score: real)
    requires circumference > 0.0
    ensures var g := ScoreBadge(circumference, score);
            (circumference - g.offset) / circumference == g.shown / 100.0
  {
  }

  /** A higher score never lands in a worse band or leaves more of the arc
      unfilled. */
  lemma BadgeMonotone(circumference: real, s1: real, s2: real)
    requires circumference > 0.0 && s1 <= s2
    ensures ScoreBadge(circumference, s1).band.Rank() <= ScoreBadge(circumference, s2).band.Rank()
    ensures ScoreBadge(circumference, s1).offset >= ScoreBadge(circumference, s2).offset
  {
    DashOffsetAntitone(circumference, Clamp(s1), Clamp(s2));
  }

  /** A fraction of a positive length lies between zero and the length,
      reaching either end only at fraction 0 or 1. */
  lemma ScaleBetween(k: real, f: real)
    requires k > 0.0 && 0.0 <= f <= 1.0
    ensures 0.0 <= k * f <= k
    ensures k * f == 0.0 <==> f == 0.0
    ensures k * f == k <==> f == 1.0
  {
    MulMonotone(k, f, 1.0);
    MulMonotone(k, 0.0, f);
  }

  lemma MulMonotone(k: real, a: real, b: real)
    requires k > 0.0 && a <= b
    ensures k * a <= k * b
  {
  }

  /** Clamping first changes nothing: the gauge depends only on the
      clamped score. */
  lemma BadgeOfClamped(circumference: real, score: real)
    requires circumference > 0.0
    ensures ScoreBadge(circumference, Clamp(score)) == ScoreBadge(circumference, score)
  {
  }

  /** Out-of-range scores show as the nearest end of the scale. */
  lemma BadgeExtremes(circumference: real, score: real)
    requires circumference > 0.0
    ensures score > 100.0 ==> ScoreBadge(circumference, score) == Gauge(100.0, StrongFit, 0.0)
    ensures score < 0.0 ==> ScoreBadge(circumference, score) == Gauge(0.0, NeedsWork, circumference)
  {
  }
}
