/** The app's value records: a recorded light, a drive and the statistics
    summary derived from the drive history. */
module Types {

  datatype Option<+T> = None | Some(value: T)

  /** The three light buttons; a light colour is exactly one of them. */
  datatype LightColor = Red | Yellow | Green

  /** One scoring event. `timestamp` is epoch milliseconds. */
  datatype Light = Light(id: string, color: LightColor, timestamp: int)

  /** One play session. `duration` is in whole seconds; the three counters
      are the ones the scoring rule maintains over `lights`. */
  datatype Drive = Drive(
    id: string,
    name: Option<string>,
    startTime: int,
    endTime: Option<int>,
    duration: Option<int>,
    lights: seq<Light>,
    redScore: int,
    greenScore: int,
    yellowCount: int,
    isActive: bool)

  /** A streak is either a run of wins or a run of losses; there is no third kind. */
  datatype StreakType = Win | Loss

  datatype Streak = Streak(kind: StreakType, count: nat)

  /** The aggregate over the past drives. The four extremum drives are absent
      for an empty history. `winRate` is the exact percentage of wins. */
  datatype DriveStats = DriveStats(
    totalDrives: nat,
    totalReds: int,
    totalYellows: int,
    totalGreens: int,
    totalLights: nat,
    winRate: real,
    bestGreenScore: int,
    bestGreenDrive: Option<Drive>,
    worstRedScore: int,
    worstRedDrive: Option<Drive>,
    longestDrive: Option<Drive>,
    mostLightsDrive: Option<Drive>,
    averageDuration: int,
    averageLightsPerDrive: nat,
    currentStreak: Streak,
    bestWinStreak: nat,
    bestLossStreak: nat)
}
