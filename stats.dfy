/** The statistics aggregator over the past drives, most recent first:
    totals, wins, four first-on-ties maxima, floor averages and the
    win/loss streak scan. */
module Stats {
  import opened Types
  import opened Scoring

  /** The per-drive quantities the aggregator sums or maximises. */
  datatype Metric = RedMetric | GreenMetric | YellowMetric | DurationMetric | LightsMetric

  /** A missing duration counts as 0 (the `duration || 0` of the aggregator). */
  function DurationOrZero(d: Drive): int
  {
    match d.duration
    case Some(s) => s
    case None => 0
  }

  function Measure(d: Drive, m: Metric): int
  {
    match m
    case RedMetric => d.redScore
    case GreenMetric => d.greenScore
    case YellowMetric => d.yellowCount
    case DurationMetric => DurationOrZero(d)
    case LightsMetric => |d.lights|
  }

  /** Sum of a metric over the drives. */
  function Total(drives: seq<Drive>, m: Metric): (r: int)
    ensures m == LightsMetric ==> r >= 0
  {
    if |drives| == 0 then 0 else Measure(drives[0], m) + Total(drives[1..], m)
  }

  /** Flooring division by a positive count brackets the dividend. */
  lemma FloorDivBounds(t: int, n: int)
    requires n > 0
    ensures (t / n) * n <= t < (t / n + 1) * n
    ensures t >= 0 ==> t / n >= 0
  {
    var q, m := t / n, t % n;
    assert t == q * n + m && 0 <= m < n;
    assert (q + 1) * n == q * n + n;
    MulSign(q + 1, n);
  }

  /** With a positive factor, a product is positive exactly when the other factor is. */
  lemma MulSign(a: int, n: int)
    requires n > 0
    ensures a > 0 <==> a * n > 0
  {
    if a > 0 {
      MulMonotone(1, a, n);
    } else {
      MulMonotone(a, 0, n);
    }
  }

  /** Multiplying by a positive number keeps the order. */
  lemma MulMonotone(a: int, b: int, n: int)
    requires a <= b && n > 0
    ensures a * n <= b * n
  {
    assert b * n - a * n == (b - a) * n;
  }

  /** `Math.floor(t / n)` for a positive count `n`. */
  function FloorAverage(t: int, n: nat): (q: int)
    requires n > 0
    ensures q * n <= t < (q + 1) * n
    ensures t >= 0 ==> q >= 0
  {
    FloorDivBounds(t, n);
    var q := t / n;
    q
  }

  function Max(a: nat, b: nat): nat
  {
    if a >= b then a else b
  }

  // ---------------------------------------------------------------------
  // Wins

  /** A drive is won when its green score strictly exceeds its red score. */
  predicate IsWin(d: Drive)
  {
    d.greenScore > d.redScore
  }

  /** The streak classification: a tie is not a win, so it is a loss. */
  function Classify(d: Drive): StreakType
  {
    if IsWin(d) then Win else Loss
  }

  /** Number of won drives. */
  function Wins(drives: seq<Drive>): (r: nat)
    ensures r <= |drives|
    ensures r == |drives| <==> forall i :: 0 <= i < |drives| ==> IsWin(drives[i])
    ensures r == 0 <==> forall i :: 0 <= i < |drives| ==> !IsWin(drives[i])
  {
    if |drives| == 0 then 0
    else (if IsWin(drives[0]) then 1 else 0) + Wins(drives[1..])
  }

  /** Percentage of won drives, 0 when there are none. */
  function WinRate(drives: seq<Drive>): (r: real)
    ensures 0.0 <= r <= 100.0
    ensures r == 100.0 <==> |drives| > 0 && Wins(drives) == |drives|
  {
    if |drives| == 0 then 0.0
    else
      PercentBounds(Wins(drives), |drives|);
      (Wins(drives) as real / |drives| as real) * 100.0
  }

  /** A share of at most the whole, as a percentage, lies in [0, 100] and is
      100 exactly for the whole. */
  lemma PercentBounds(w: nat, n: nat)
    requires w <= n && 0 < n
    ensures 0.0 <= (w as real / n as real) * 100.0 <= 100.0
    ensures (w as real / n as real) * 100.0 == 100.0 <==> w == n
  {
    var q := w as real / n as real;
    assert q * (n as real) == w as real;
    assert q <= 1.0;
    assert q == 1.0 <==> w == n;
  }

  // ---------------------------------------------------------------------
  // Extrema

  /** The index the reduction `(best, cur) => cur > best ? cur : best` over
      the first `k` drives lands on, seeded with drive 0. */
  function Best(drives: seq<Drive>, m: Metric, k: nat): (r: nat)
    requires 1 <= k <= |drives|
    ensures r < k
  {
    if k == 1 then 0
    else
      var b := Best(drives, m, k - 1);
      if Measure(drives[k - 1], m) > Measure(drives[b], m) then k - 1 else b
  }

  /** The reduction picks a maximum, and the earliest one. */
  lemma {:induction false} BestIsFirstMaximum(drives: seq<Drive>, m: Metric, k: nat)
    requires 1 <= k <= |drives|
    ensures forall j :: 0 <= j < k ==> Measure(drives[j], m) <= Measure(drives[Best(drives, m, k)], m)
    ensures forall j :: 0 <= j < Best(drives, m, k) ==> Measure(drives[j], m) < Measure(drives[Best(drives, m, k)], m)
  {
    if k > 1 {
      BestIsFirstMaximum(drives, m, k - 1);
    }
  }

  // ---------------------------------------------------------------------
  // Streaks

  /** Length of the run of equally classified drives that ends at index `i`. */
  function RunAt(drives: seq<Drive>, i: nat): (r: nat)
    requires i < |drives|
    ensures 1 <= r <= i + 1
  {
    if i == 0 || Classify(drives[i - 1]) != Classify(drives[i]) then 1
    else RunAt(drives, i - 1) + 1
  }

  /** The run ending at `i` is uniformly classified and cannot be extended
      towards the front. */
  lemma {:induction false} RunAtIsMaximal(drives: seq<Drive>, i: nat)
    requires i < |drives|
    ensures forall j :: i + 1 - RunAt(drives, i) <= j <= i ==> Classify(drives[j]) == Classify(drives[i])
    ensures RunAt(drives, i) <= i ==> Classify(drives[i - RunAt(drives, i)]) != Classify(drives[i])
  {
    if i > 0 && Classify(drives[i - 1]) == Classify(drives[i]) {
      RunAtIsMaximal(drives, i - 1);
    }
  }

  /** Length of the run of equally classified drives that starts at index `i`. */
  function RunFrom(drives: seq<Drive>, i: nat): (r: nat)
    requires i < |drives|
    ensures 1 <= r <= |drives| - i
    decreases |drives| - i
  {
    if i + 1 == |drives| || Classify(drives[i + 1]) != Classify(drives[i]) then 1
    else 1 + RunFrom(drives, i + 1)
  }

  /** The run starting at `i` is uniformly classified and cannot be extended
      towards the back. */
  lemma {:induction false} RunFromIsMaximal(drives: seq<Drive>, i: nat)
    requires i < |drives|
    ensures forall j :: i <= j < i + RunFrom(drives, i) ==> Classify(drives[j]) == Classify(drives[i])
    ensures i + RunFrom(drives, i) < |drives| ==> Classify(drives[i + RunFrom(drives, i)]) != Classify(drives[i])
    decreases |drives| - i
  {
    if i + 1 < |drives| && Classify(drives[i + 1]) == Classify(drives[i]) {
      RunFromIsMaximal(drives, i + 1);
    }
  }

  /** Longest run of class `c` among the first `k` drives (0 if there is none). */
  function LongestRun(drives: seq<Drive>, c: StreakType, k: nat): nat
    requires k <= |drives|
  {
    if k == 0 then 0
    else
      var p := LongestRun(drives, c, k - 1);
      if Classify(drives[k - 1]) == c then Max(p, RunAt(drives, k - 1)) else p
  }

  /** The longest run is 0 exactly when no drive has that class, is attained
      by the run ending at some drive of that class, and bounds every such run. */
  lemma {:induction false} LongestRunIsMaximum(drives: seq<Drive>, c: StreakType, k: nat)
    requires k <= |drives|
    ensures LongestRun(drives, c, k) == 0 <==> forall j :: 0 <= j < k ==> Classify(drives[j]) != c
    ensures LongestRun(drives, c, k) > 0 ==>
      exists j :: 0 <= j < k && Classify(drives[j]) == c && RunAt(drives, j) == LongestRun(drives, c, k)
    ensures forall j :: 0 <= j < k && Classify(drives[j]) == c ==> RunAt(drives, j) <= LongestRun(drives, c, k)
  {
    if k > 0 {
      LongestRunIsMaximum(drives, c, k - 1);
    }
  }

  /** A uniformly classified block ending at `hi` is covered by the run ending at `hi`. */
  lemma {:induction false} RunAtCoversBlock(drives: seq<Drive>, lo: nat, hi: nat)
    requires lo <= hi < |drives|
    requires forall j :: lo <= j <= hi ==> Classify(drives[j]) == Classify(drives[hi])
    ensures RunAt(drives, hi) >= hi - lo + 1
  {
    if lo < hi {
      RunAtCoversBlock(drives, lo, hi - 1);
    }
  }

  /** No block of class `c` is longer than the longest run of `c`. */
  lemma LongestRunBoundsBlocks(drives: seq<Drive>, c: StreakType, lo: nat, hi: nat)
    requires lo <= hi < |drives|
    requires forall j :: lo <= j <= hi ==> Classify(drives[j]) == c
    ensures hi - lo + 1 <= LongestRun(drives, c, |drives|)
  {
    RunAtCoversBlock(drives, lo, hi);
    LongestRunIsMaximum(drives, c, |drives|);
  }

  /** The open run at the end of the scan: the run that ends at the last,
      that is the oldest, drive. */
  function TrailingStreak(drives: seq<Drive>): Streak
  {
    if |drives| == 0 then Streak(Win, 0)
    else Streak(Classify(drives[|drives| - 1]), RunAt(drives, |drives| - 1))
  }

  /** The run that starts at the most recent drive. */
  function LeadingStreak(drives: seq<Drive>): Streak
  {
    if |drives| == 0 then Streak(Win, 0)
    else Streak(Classify(drives[0]), RunFrom(drives, 0))
  }

  function LongestOfKind(drives: seq<Drive>, c: StreakType): nat
  {
    LongestRun(drives, c, |drives|)
  }

  // ---------------------------------------------------------------------
  // The aggregate

  const EmptyStats := DriveStats(
    totalDrives := 0, totalReds := 0, totalYellows := 0, totalGreens := 0, totalLights := 0,
    winRate := 0.0,
    bestGreenScore := 0, bestGreenDrive := None,
    worstRedScore := 0, worstRedDrive := None,
    longestDrive := None, mostLightsDrive := None,
    averageDuration := 0, averageLightsPerDrive := 0,
    currentStreak := Streak(Win, 0), bestWinStreak := 0, bestLossStreak := 0)

  /** The aggregate as the source computes it. */
  function StatsOf(drives: seq<Drive>): (r: DriveStats)
    ensures r.totalDrives == |drives|
    ensures r.bestGreenDrive.Some? <==> |drives| > 0
    ensures r.worstRedDrive.Some? <==> |drives| > 0
    ensures r.longestDrive.Some? <==> |drives| > 0
    ensures r.mostLightsDrive.Some? <==> |drives| > 0
    ensures |drives| > 0 ==>
      r.averageDuration * |drives| <= Total(drives, DurationMetric) < (r.averageDuration + 1) * |drives|
    ensures |drives| > 0 ==>
      r.averageLightsPerDrive * |drives| <= r.totalLights < (r.averageLightsPerDrive + 1) * |drives|
  {
    if |drives| == 0 then EmptyStats
    else
      var n := |drives|;
      var bg, wr := Best(drives, GreenMetric, n), Best(drives, RedMetric, n);
      var ld, ml := Best(drives, DurationMetric, n), Best(drives, LightsMetric, n);
      var totalLights := Total(drives, LightsMetric);
      DriveStats(
        totalDrives := n,
        totalReds := Total(drives, RedMetric),
        totalYellows := Total(drives, YellowMetric),
        totalGreens := Total(drives, GreenMetric),
        totalLights := totalLights,
        winRate := WinRate(drives),
        bestGreenScore := drives[bg].greenScore,
        bestGreenDrive := Some(drives[bg]),
        worstRedScore := drives[wr].redScore,
        worstRedDrive := Some(drives[wr]),
        longestDrive := Some(drives[ld]),
        mostLightsDrive := Some(drives[ml]),
        averageDuration := FloorAverage(Total(drives, DurationMetric), n),
        averageLightsPerDrive := FloorAverage(totalLights, n),
        currentStreak := TrailingStreak(drives),
        bestWinStreak := LongestOfKind(drives, Win),
        bestLossStreak := LongestOfKind(drives, Loss))
  }

  /** The extremum drive a summary reports for a metric. */
  function ExtremumOf(r: DriveStats, m: Metric): Option<Drive>
  {
    match m
    case GreenMetric => r.bestGreenDrive
    case RedMetric => r.worstRedDrive
    case DurationMetric => r.longestDrive
    case LightsMetric => r.mostLightsDrive
    case YellowMetric => None
  }

  /** An empty history has all-zero counts, a zero win streak and no extremum drive. */
  lemma StatsOfEmpty()
    ensures var r := StatsOf([]);
      && r.totalDrives == 0 && r.totalReds == 0 && r.totalYellows == 0 && r.totalGreens == 0
      && r.totalLights == 0 && r.winRate == 0.0 && r.bestGreenScore == 0 && r.worstRedScore == 0
      && r.averageDuration == 0 && r.averageLightsPerDrive == 0
      && r.currentStreak == Streak(Win, 0) && r.bestWinStreak == 0 && r.bestLossStreak == 0
      && r.bestGreenDrive == None && r.worstRedDrive == None
      && r.longestDrive == None && r.mostLightsDrive == None
  {
  }

  /** Each extremum drive is a member of the list that maximises its key,
      and the earliest such member. */
  lemma StatsExtrema(drives: seq<Drive>, m: Metric)
    requires |drives| > 0
    requires m != YellowMetric
    ensures exists i :: (0 <= i < |drives| && ExtremumOf(StatsOf(drives), m) == Some(drives[i])
        && (forall j :: 0 <= j < |drives| ==> Measure(drives[j], m) <= Measure(drives[i], m))
        && (forall j :: 0 <= j < i ==> Measure(drives[j], m) < Measure(drives[i], m)))
  {
    var i := Best(drives, m, |drives|);
    BestIsFirstMaximum(drives, m, |drives|);
    assert ExtremumOf(StatsOf(drives), m) == Some(drives[i]);
  }

  /** The best streaks bound every block of their class: every block of
      wins (losses) is at most `bestWinStreak` (`bestLossStreak`) long.
      That the length is attained by an actual run is `LongestRunIsMaximum`. */
  lemma StatsBestStreaks(drives: seq<Drive>, lo: nat, hi: nat)
    requires lo <= hi < |drives|
    ensures var r := StatsOf(drives);
      && ((forall j :: lo <= j <= hi ==> Classify(drives[j]) == Win) ==> hi - lo + 1 <= r.bestWinStreak)
      && ((forall j :: lo <= j <= hi ==> Classify(drives[j]) == Loss) ==> hi - lo + 1 <= r.bestLossStreak)
  {
    if forall j :: lo <= j <= hi ==> Classify(drives[j]) == Win {
      LongestRunBoundsBlocks(drives, Win, lo, hi);
    }
    if forall j :: lo <= j <= hi ==> Classify(drives[j]) == Loss {
      LongestRunBoundsBlocks(drives, Loss, lo, hi);
    }
  }

  /** The reported current streak is a maximal run of at least one drive,
      no longer than the best streak of its own kind. As the scan is written
      it is the run that ends at the OLDEST drive. */
  lemma StatsCurrentStreak(drives: seq<Drive>)
    requires |drives| > 0
    ensures var r := StatsOf(drives); var s := r.currentStreak; var n := |drives|;
      && s.count >= 1
      && s.kind == Classify(drives[n - 1])
      && (forall j :: n - s.count <= j < n ==> Classify(drives[j]) == s.kind)
      && (s.count < n ==> Classify(drives[n - 1 - s.count]) != s.kind)
      && (s.kind == Win ==> s.count <= r.bestWinStreak)
      && (s.kind == Loss ==> s.count <= r.bestLossStreak)
  {
    var n := |drives|;
    var s := StatsOf(drives).currentStreak;
    RunAtIsMaximal(drives, n - 1);
    LongestRunBoundsBlocks(drives, s.kind, n - s.count, n - 1);
  }

  /** Over drives whose counters follow the scoring rule, the number of lights
      is the red total plus the green total minus the yellow total (a yellow
      light adds 2 green points). */
  lemma {:induction false} TotalsOfConsistentDrives(drives: seq<Drive>)
    requires forall i :: 0 <= i < |drives| ==> Consistent(drives[i])
    ensures Total(drives, LightsMetric)
         == Total(drives, RedMetric) + Total(drives, GreenMetric) - Total(drives, YellowMetric)
  {
    if |drives| > 0 {
      FoldByCounts(drives[0].lights);
      CountsSumToLength(drives[0].lights);
      TotalsOfConsistentDrives(drives[1..]);
    }
  }

  // ---------------------------------------------------------------------
  // Corrected current streak

  /** The aggregate with `currentStreak` taken from the most recent drive,
      the run the statistics screen labels "Current Win/Loss Streak". */
  function CorrectedStats(drives: seq<Drive>): DriveStats
  {
    StatsOf(drives).(currentStreak := LeadingStreak(drives))
  }

  /** The corrected current streak is the maximal run at index 0, of at
      least one drive, and no longer than the best streak of its kind. */
  lemma CorrectedCurrentStreak(drives: seq<Drive>)
    ensures |drives| == 0 ==> CorrectedStats(drives).currentStreak == Streak(Win, 0)
    ensures |drives| > 0 ==>
      var r := CorrectedStats(drives); var s := r.currentStreak;
      && s.count >= 1
      && s.kind == Classify(drives[0])
      && (forall j :: 0 <= j < s.count ==> Classify(drives[j]) == s.kind)
      && (s.count < |drives| ==> Classify(drives[s.count]) != s.kind)
      && (s.kind == Win ==> s.count <= r.bestWinStreak)
      && (s.kind == Loss ==> s.count <= r.bestLossStreak)
  {
    if |drives| > 0 {
      var s := LeadingStreak(drives);
      RunFromIsMaximal(drives, 0);
      LongestRunBoundsBlocks(drives, s.kind, 0, s.count - 1);
    }
  }

  /** A drive that carries only scores, for the examples below. */
  function Scored(green: int, red: int): Drive
  {
    Drive("", None, 0, None, None, [], red, green, 0, false)
  }

  /** History [loss, loss, win], most recent first: the scan as written
      reports {win, 1}, the run of the oldest drive, while the two most
      recent drives form a loss run of 2. */
  lemma CurrentStreakIsOldestRun()
    ensures var ds := [Scored(1, 5), Scored(1, 5), Scored(5, 0)];
      && StatsOf(ds).currentStreak == Streak(Win, 1)
      && CorrectedStats(ds).currentStreak == Streak(Loss, 2)
      && StatsOf(ds).bestLossStreak == 2 && StatsOf(ds).bestWinStreak == 1
  {
    var ds := [Scored(1, 5), Scored(1, 5), Scored(5, 0)];
    assert RunAt(ds, 1) == 2;
    assert RunFrom(ds, 1) == 1;
  }

  /** History [win, loss, win]: the current streak is one win and both best
      streaks are 1. */
  lemma AlternatingStreakExample()
    ensures var ds := [Scored(3, 1), Scored(0, 2), Scored(5, 0)];
      && StatsOf(ds).currentStreak == Streak(Win, 1)
      && StatsOf(ds).bestWinStreak == 1 && StatsOf(ds).bestLossStreak == 1
  {
    var ds := [Scored(3, 1), Scored(0, 2), Scored(5, 0)];
    assert RunAt(ds, 1) == 1;
  }

  /** A tie is not a win for the win count and rate, and is a loss for the streaks. */
  lemma TieCountsAsLoss(d: Drive)
    requires d.greenScore == d.redScore
    ensures Wins([d]) == 0 && WinRate([d]) == 0.0
    ensures StatsOf([d]).currentStreak == Streak(Loss, 1)
    ensures StatsOf([d]).bestLossStreak == 1 && StatsOf([d]).bestWinStreak == 0
  {
    assert [d][1..] == [];
    assert LongestRun([d], Loss, 1) == Max(LongestRun([d], Loss, 0), RunAt([d], 0)) == 1;
    assert LongestRun([d], Win, 1) == LongestRun([d], Win, 0) == 0;
  }

  /** Durations 10, 10 and 11 average to 10 under flooring division. */
  lemma FloorAverageExample()
    ensures var ds := [Scored(0, 0).(duration := Some(10)), Scored(0, 0).(duration := Some(10)),
                       Scored(0, 0).(duration := Some(11))];
      StatsOf(ds).averageDuration == 10
  {
    var ds := [Scored(0, 0).(duration := Some(10)), Scored(0, 0).(duration := Some(10)),
               Scored(0, 0).(duration := Some(11))];
    assert ds[1..][1..][1..] == [];
    assert Total(ds[1..][1..], DurationMetric) == 11;
    assert Total(ds[1..], DurationMetric) == 21;
    assert Total(ds, DurationMetric) == 31;
  }

  // ---------------------------------------------------------------------
  // The computation

  /** The streak scan of `calculateStats`: one pass over the drives keeping
      the class of the open run and its length, closing a run into the best
      streak of its kind whenever the class changes, and closing the last
      open run at the end. */
  method ScanStreaks(drives: seq<Drive>) returns (current: Streak, bestWin: nat, bestLoss: nat)
    ensures current == TrailingStreak(drives)
    ensures bestWin == LongestOfKind(drives, Win)
    ensures bestLoss == LongestOfKind(drives, Loss)
  {
    var n := |drives|;
    current := Streak(Win, 0);
    var tempStreak: nat := 0;
    bestWin, bestLoss := 0, 0;
    var currentStreakType: Option<StreakType> := None;

    var i := 0;
    while i < n
      invariant 0 <= i <= n
      invariant i == 0 ==> (currentStreakType == None && tempStreak == 0
                            && bestWin == 0 && bestLoss == 0)
      invariant i > 0 ==> (currentStreakType == Some(Classify(drives[i - 1]))
                           && tempStreak == RunAt(drives, i - 1))
      invariant (if currentStreakType == Some(Win) then Max(bestWin, tempStreak) else bestWin)
                == LongestRun(drives, Win, i)
      invariant (if currentStreakType == Some(Loss) then Max(bestLoss, tempStreak) else bestLoss)
                == LongestRun(drives, Loss, i)
    {
      var isWin := drives[i].greenScore > drives[i].redScore;
      if i == 0 {
        currentStreakType := Some(if isWin then Win else Loss);
        tempStreak := 1;
      } else {
        if (isWin && currentStreakType == Some(Win)) || (!isWin && currentStreakType == Some(Loss)) {
          tempStreak := tempStreak + 1;
        } else {
          if currentStreakType == Some(Win) {
            bestWin := Max(bestWin, tempStreak);
          } else {
            bestLoss := Max(bestLoss, tempStreak);
          }
          currentStreakType := Some(if isWin then Win else Loss);
          tempStreak := 1;
        }
      }
      i := i + 1;
    }

    if currentStreakType.Some? {
      current := Streak(currentStreakType.value, tempStreak);
      if currentStreakType == Some(Win) {
        bestWin := Max(bestWin, tempStreak);
      } else {
        bestLoss := Max(bestLoss, tempStreak);
      }
    }
  }

  /** `calculateStats`: the sums and reductions, then the streak scan. */
  method CalculateStats(drives: seq<Drive>) returns (s: DriveStats)
    ensures s == StatsOf(drives)
  {
    if |drives| == 0 {
      return EmptyStats;
    }
    var n := |drives|;
    var totalLights := Total(drives, LightsMetric);
    var bg, wr := Best(drives, GreenMetric, n), Best(drives, RedMetric, n);
    var ld, ml := Best(drives, DurationMetric, n), Best(drives, LightsMetric, n);
    var totalDuration := Total(drives, DurationMetric);
    var currentStreak, bestWinStreak, bestLossStreak := ScanStreaks(drives);

    s := DriveStats(
      totalDrives := n,
      totalReds := Total(drives, RedMetric),
      totalYellows := Total(drives, YellowMetric),
      totalGreens := Total(drives, GreenMetric),
      totalLights := totalLights,
      winRate := WinRate(drives),
      bestGreenScore := drives[bg].greenScore,
      bestGreenDrive := Some(drives[bg]),
      worstRedScore := drives[wr].redScore,
      worstRedDrive := Some(drives[wr]),
      longestDrive := Some(drives[ld]),
      mostLightsDrive := Some(drives[ml]),
      averageDuration := FloorAverage(totalDuration, n),
      averageLightsPerDrive := FloorAverage(totalLights, n),
      currentStreak := currentStreak,
      bestWinStreak := bestWinStreak,
      bestLossStreak := bestLossStreak);
  }
}
