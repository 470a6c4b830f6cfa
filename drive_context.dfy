/** The drive provider: the one current drive being recorded, the list of
    past drives (most recent first) and the operations the screens call. */
module DriveContext {
  import opened Types
  import opened Scoring
  import Stats

  /** A fresh, empty, active drive (`startDrive` and the auto-start of `addLight`). */
  function NewDrive(id: string, startTime: int): (d: Drive)
    ensures Consistent(d) && d.isActive && d.lights == []
    ensures d.id == id && d.startTime == startTime
    ensures d.name.None? && d.endTime.None? && d.duration.None?
  {
    Drive(id, None, startTime, None, None, [], 0, 0, 0, true)
  }

  function WithTally(d: Drive, t: Tally): Drive
  {
    d.(redScore := t.red, greenScore := t.green, yellowCount := t.yellow)
  }

  /** The `addLight` update of a drive: the light goes at the end and the
      counters are patched by the scoring rule for its colour alone. */
  function AddedLight(prev: Drive, light: Light): (r: Drive)
    ensures r.lights == prev.lights + [light]
    ensures r == WithTally(prev.(lights := prev.lights + [light]), TallyOf(r))
    ensures Consistent(prev) ==> Consistent(r)
  {
    FoldSnoc(prev.lights, light);
    WithTally(prev.(lights := prev.lights + [light]), Step(TallyOf(prev), light.color))
  }

  /** Some light in the list carries this id (`lights.find(l => l.id === id)`). */
  predicate HasLight(lights: seq<Light>, id: string)
  {
    exists i :: 0 <= i < |lights| && lights[i].id == id
  }

  /** `lights.filter(l => l.id !== id)`. */
  function WithoutLight(lights: seq<Light>, id: string): (r: seq<Light>)
    ensures forall l :: l in r <==> l in lights && l.id != id
    ensures !HasLight(lights, id) ==> r == lights
    ensures HasLight(lights, id) ==> |r| < |lights|
  {
    if |lights| == 0 then []
    else
      var rest := WithoutLight(lights[1..], id);
      assert HasLight(lights, id) <==> lights[0].id == id || HasLight(lights[1..], id) by {
        if HasLight(lights[1..], id) {
          var i :| 0 <= i < |lights[1..]| && lights[1..][i].id == id;
          assert lights[i + 1].id == id;
        }
        if HasLight(lights, id) && lights[0].id != id {
          var i :| 0 <= i < |lights| && lights[i].id == id;
          assert lights[1..][i - 1].id == id;
        }
      }
      if lights[0].id == id then rest else [lights[0]] + rest
  }

  /** Removing by id works piecewise, so the lights that stay keep their
      relative order. */
  lemma {:induction false} WithoutLightAppend(a: seq<Light>, b: seq<Light>, id: string)
    ensures WithoutLight(a + b, id) == WithoutLight(a, id) + WithoutLight(b, id)
  {
    if |a| == 0 {
      assert a + b == b;
    } else {
      assert (a + b)[1..] == a[1..] + b;
      WithoutLightAppend(a[1..], b, id);
    }
  }

  /** The `endDrive` record: named, ended, with the duration in whole seconds
      (floored) and no longer active; lights and counters are kept. */
  function Completed(d: Drive, name: Option<string>, endTime: int): (r: Drive)
    ensures !r.isActive && r.name == name && r.endTime == Some(endTime) && r.duration.Some?
    ensures r.duration.value * 1000 <= endTime - d.startTime < (r.duration.value + 1) * 1000
    ensures r.id == d.id && r.startTime == d.startTime && r.lights == d.lights && TallyOf(r) == TallyOf(d)
  {
    var duration := (endTime - d.startTime) / 1000;
    Stats.FloorDivBounds(endTime - d.startTime, 1000);
    d.(name := name, endTime := Some(endTime), duration := Some(duration), isActive := false)
  }

  /** `drives.filter(d => d.id !== id)`. */
  function WithoutDrive(drives: seq<Drive>, id: string): (r: seq<Drive>)
    ensures forall d :: d in r <==> d in drives && d.id != id
    ensures |r| <= |drives|
    ensures (forall i :: 0 <= i < |drives| ==> drives[i].id != id) ==> r == drives
  {
    if |drives| == 0 then []
    else
      var rest := WithoutDrive(drives[1..], id);
      if drives[0].id == id then rest else [drives[0]] + rest
  }

  /** Removing a drive by id works piecewise, so the remaining drives keep
      their order. */
  lemma {:induction false} WithoutDriveAppend(a: seq<Drive>, b: seq<Drive>, id: string)
    ensures WithoutDrive(a + b, id) == WithoutDrive(a, id) + WithoutDrive(b, id)
  {
    if |a| == 0 {
      assert a + b == b;
    } else {
      assert (a + b)[1..] == a[1..] + b;
      WithoutDriveAppend(a[1..], b, id);
    }
  }

  /** Deleting the yellow light of [red, yellow, green] leaves red 1, green 1
      and no yellow, the same as a recount of [red, green]. */
  lemma DeleteYellowExample()
    ensures var ls := [Light("r", Red, 0), Light("y", Yellow, 1), Light("g", Green, 2)];
      && WithoutLight(ls, "y") == [Light("r", Red, 0), Light("g", Green, 2)]
      && Fold(WithoutLight(ls, "y")) == Tally(1, 1, 0)
  {
    var ls := [Light("r", Red, 0), Light("y", Yellow, 1), Light("g", Green, 2)];
    assert ls[1..][1..] == [Light("g", Green, 2)];
    var kept := [Light("r", Red, 0), Light("g", Green, 2)];
    assert WithoutLight(ls, "y") == kept;
    assert kept[..1] == [Light("r", Red, 0)];
    assert kept[..1][..0] == [];
  }

  class DriveProvider {
    var currentDrive: Option<Drive>
    var pastDrives: seq<Drive>
    /** The persisted slots, as far as this provider's writes reached them. */
    ghost var storedDrives: seq<Drive>
    ghost var storedCurrent: Option<Drive>

    /** The current drive's counters are the fold of its lights. */
    ghost predicate CountersFollowLights()
      reads this
    {
      currentDrive.Some? ==> Consistent(currentDrive.value)
    }

    /** The statistics the provider publishes, recomputed from the past
      drives whenever they change: one entry per past drive, extremum
      drives exactly when there is one, and the streaks of the scan as
      written (the run ending at the oldest drive). */
    function Summary(): (r: DriveStats)
      reads this
      ensures r.totalDrives == |pastDrives|
      ensures r.bestGreenDrive.Some? <==> |pastDrives| > 0
      ensures r.currentStreak == Stats.TrailingStreak(pastDrives)
      ensures r.bestWinStreak == Stats.LongestOfKind(pastDrives, Win)
      ensures r.bestLossStreak == Stats.LongestOfKind(pastDrives, Loss)
    {
      Stats.StatsOf(pastDrives)
    }

    /** The same statistics with the current streak taken at the most
      recent drive; only that field differs from `Summary`. */
    function CorrectedSummary(): (r: DriveStats)
      reads this
      ensures r.currentStreak == Stats.LeadingStreak(pastDrives)
      ensures r.(currentStreak := Summary().currentStreak) == Summary()
    {
      Stats.CorrectedStats(pastDrives)
    }

    /** Nothing is in memory before the store is read. */
    constructor (ghost drives: seq<Drive>, ghost current: Option<Drive>)
      ensures currentDrive == None && pastDrives == []
      ensures storedDrives == drives && storedCurrent == current
      ensures CountersFollowLights()
    {
      currentDrive := None;
      pastDrives := [];
      storedDrives := drives;
      storedCurrent := current;
    }

    /** Rehydrates from what the store returned (an empty list and no drive
        when a slot is empty or its read failed); a missing current drive
        leaves the in-memory one as it was. */
    method LoadDrives(drives: seq<Drive>, active: Option<Drive>)
      modifies this
      ensures pastDrives == drives
      ensures currentDrive == if active.Some? then active else old(currentDrive)
      ensures storedDrives == old(storedDrives) && storedCurrent == old(storedCurrent)
    {
      pastDrives := drives;
      if active.Some? {
        currentDrive := active;
      }
    }

    /** Replaces the current drive by a fresh one; `persisted` is the outcome
        of the write of the current-drive slot. */
    method StartDrive(id: string, now: int, persisted: bool)
      modifies this
      ensures currentDrive == Some(NewDrive(id, now))
      ensures CountersFollowLights()
      ensures pastDrives == old(pastDrives) && storedDrives == old(storedDrives)
      ensures storedCurrent == if persisted then currentDrive else old(storedCurrent)
    {
      currentDrive := Some(NewDrive(id, now));
      if persisted {
        storedCurrent := currentDrive;
      }
    }

    /** Records a light at the end of the current drive, starting a fresh
        drive first when there is none. */
    method AddLight(color: LightColor, lightId: string, timestamp: int,
                    newDriveId: string, newDriveStart: int, persisted: bool)
      modifies this
      ensures var base := if old(currentDrive).Some? then old(currentDrive).value
                          else NewDrive(newDriveId, newDriveStart);
        currentDrive == Some(AddedLight(base, Light(lightId, color, timestamp)))
      ensures old(CountersFollowLights()) ==> CountersFollowLights()
      ensures pastDrives == old(pastDrives) && storedDrives == old(storedDrives)
      ensures storedCurrent == if persisted then currentDrive else old(storedCurrent)
    {
      if currentDrive.None? {
        currentDrive := Some(NewDrive(newDriveId, newDriveStart));
      }
      var updated := AddedLight(currentDrive.value, Light(lightId, color, timestamp));
      currentDrive := Some(updated);
      if persisted {
        storedCurrent := currentDrive;
      }
    }

    /** Removes every light with this id and recounts the rest from scratch;
        an unknown id, or no current drive, changes nothing. */
    method DeleteLight(lightId: string, persisted: bool)
      modifies this
      ensures old(currentDrive).None? ==> currentDrive == None
      ensures old(currentDrive).Some? && !HasLight(old(currentDrive).value.lights, lightId) ==>
        currentDrive == old(currentDrive) && storedCurrent == old(storedCurrent)
      ensures old(currentDrive).Some? && HasLight(old(currentDrive).value.lights, lightId) ==>
        var kept := WithoutLight(old(currentDrive).value.lights, lightId);
        && currentDrive == Some(WithTally(old(currentDrive).value.(lights := kept), Fold(kept)))
        && Consistent(currentDrive.value)
        && storedCurrent == (if persisted then currentDrive else old(storedCurrent))
      ensures old(currentDrive).None? ==> storedCurrent == old(storedCurrent)
      ensures old(CountersFollowLights()) ==> CountersFollowLights()
      ensures pastDrives == old(pastDrives) && storedDrives == old(storedDrives)
    {
      if currentDrive.None? {
        return;
      }
      var prev := currentDrive.value;
      if !HasLight(prev.lights, lightId) {
        return;
      }
      var updatedLights := WithoutLight(prev.lights, lightId);
      var t := Recount(updatedLights);
      currentDrive := Some(WithTally(prev.(lights := updatedLights), t));
      if persisted {
        storedCurrent := currentDrive;
      }
    }

    /** Installs a new light order and recounts from it; when the new list
        holds the same lights, the counters of a consistent drive do not move. */
    method ReorderLights(lights: seq<Light>, persisted: bool)
      modifies this
      ensures old(currentDrive).None? ==> currentDrive == None && storedCurrent == old(storedCurrent)
      ensures old(currentDrive).Some? ==>
        && currentDrive == Some(WithTally(old(currentDrive).value.(lights := lights), Fold(lights)))
        && Consistent(currentDrive.value)
        && storedCurrent == (if persisted then currentDrive else old(storedCurrent))
      ensures old(currentDrive).Some? && Consistent(old(currentDrive).value)
              && multiset(lights) == multiset(old(currentDrive).value.lights) ==>
        TallyOf(currentDrive.value) == TallyOf(old(currentDrive).value)
      ensures pastDrives == old(pastDrives) && storedDrives == old(storedDrives)
    {
      if currentDrive.None? {
        return;
      }
      var prev := currentDrive.value;
      var t := Recount(lights);
      if multiset(lights) == multiset(prev.lights) {
        FoldPermutation(lights, prev.lights);
      }
      currentDrive := Some(WithTally(prev.(lights := lights), t));
      if persisted {
        storedCurrent := currentDrive;
      }
    }

    /** Finishes the current drive and puts it at the front of the past
        drives. The past list changes first; then the list is written
        (`drivesPersisted`), then the current-drive slot is cleared
        (`currentCleared`), and only after both succeed is the current drive
        dropped. A failed write ends the operation with `ok` false. Without
        a current drive nothing happens. */
    method EndDrive(name: Option<string>, endTime: int, drivesPersisted: bool, currentCleared: bool)
      returns (ok: bool)
      modifies this
      ensures old(currentDrive).None? ==>
        && ok && currentDrive == None && pastDrives == old(pastDrives)
        && storedDrives == old(storedDrives) && storedCurrent == old(storedCurrent)
      ensures old(currentDrive).Some? ==>
        && pastDrives == [Completed(old(currentDrive).value, name, endTime)] + old(pastDrives)
        && storedDrives == (if drivesPersisted then pastDrives else old(storedDrives))
        && ok == (drivesPersisted && currentCleared)
        && currentDrive == (if ok then None else old(currentDrive))
        && storedCurrent == (if ok then None else old(storedCurrent))
    {
      if currentDrive.None? {
        return true;
      }
      var completed := Completed(currentDrive.value, name, endTime);
      pastDrives := [completed] + pastDrives;
      if !drivesPersisted {
        return false;
      }
      storedDrives := pastDrives;
      if !currentCleared {
        return false;
      }
      storedCurrent := None;
      currentDrive := None;
      ok := true;
    }

    /** Drops every past drive with this id, keeping the others in order. */
    method DeleteDrive(driveId: string, persisted: bool) returns (ok: bool)
      modifies this
      ensures pastDrives == WithoutDrive(old(pastDrives), driveId)
      ensures ok == persisted
      ensures storedDrives == if persisted then pastDrives else old(storedDrives)
      ensures currentDrive == old(currentDrive) && storedCurrent == old(storedCurrent)
    {
      pastDrives := WithoutDrive(pastDrives, driveId);
      ok := persisted;
      if persisted {
        storedDrives := pastDrives;
      }
    }
  }
}
