/** The campaign progression engine: stars for a round, the keyed record of
    completed waypoints, leg perfection, unlocking the next leg of the route,
    the player's position, the mission settings for a leg and campaign XP. */
module CampaignLogic {
  import opened Results
  import opened GameTypes
  import opened CampaignRoute
  import opened Accuracy
  import opened GameLogic

  /** Index of the last waypoint of a leg. */
  const LastWaypoint: int := WaypointsPerLeg - 1

  /** Stars for a finished round: 3 from 90% accuracy, 2 from 70%, else 1. */
  function CalculateStars(score: int, totalQuestions: int): (stars: int)
    ensures 1 <= stars <= 3
    ensures totalQuestions > 0 ==> (stars == 3 <==> 10 * score >= 9 * totalQuestions)
    ensures totalQuestions > 0 ==> (stars >= 2 <==> 10 * score >= 7 * totalQuestions)
    ensures totalQuestions < 0 ==> (stars == 3 <==> 10 * score <= 9 * totalQuestions)
    ensures totalQuestions < 0 ==> (stars >= 2 <==> 10 * score <= 7 * totalQuestions)
    ensures totalQuestions == 0 ==> (stars == 3 <==> score > 0) && (stars == 1 <==> score <= 0)
  {
    if MeetsPercent(score, totalQuestions, 90) then 3
    else if MeetsPercent(score, totalQuestions, 70) then 2
    else 1
  }

  lemma CalculateStarsMonotone(s1: int, s2: int, total: int)
    requires total > 0 && s1 <= s2
    ensures CalculateStars(s1, total) <= CalculateStars(s2, total)
  {
  }

  predicate Matches(wp: WaypointProgress, legId: string, waypointIndex: int) {
    wp.legId == legId && wp.waypointIndex == waypointIndex
  }

  /** No two entries share a (legId, waypointIndex) key. */
  predicate KeysUnique(wps: seq<WaypointProgress>) {
    forall i, j :: 0 <= i < j < |wps| ==>
      !Matches(wps[j], wps[i].legId, wps[i].waypointIndex)
  }

  /** `findIndex` of the first entry with the key, or -1. */
  function FindWaypointIndex(wps: seq<WaypointProgress>, legId: string, waypointIndex: int): (r: int)
    ensures -1 <= r < |wps|
    ensures r >= 0 ==> Matches(wps[r], legId, waypointIndex)
    ensures r >= 0 ==> forall j :: 0 <= j < r ==> !Matches(wps[j], legId, waypointIndex)
    ensures r == -1 ==> forall j :: 0 <= j < |wps| ==> !Matches(wps[j], legId, waypointIndex)
  {
    if wps == [] then -1
    else if Matches(wps[0], legId, waypointIndex) then 0
    else
      var k := FindWaypointIndex(wps[1..], legId, waypointIndex);
      if k < 0 then -1 else k + 1
  }

  /** `find` of the first entry with the key. */
  function WaypointIn(wps: seq<WaypointProgress>, legId: string, waypointIndex: int): (r: Option<WaypointProgress>)
    ensures r.Some? <==> exists j :: 0 <= j < |wps| && Matches(wps[j], legId, waypointIndex)
    ensures r.Some? ==> r.value in wps && Matches(r.value, legId, waypointIndex)
  {
    var i := FindWaypointIndex(wps, legId, waypointIndex);
    if i < 0 then None else Some(wps[i])
  }

  /** `find` returns the first entry with the key. */
  lemma WaypointInFirst(wps: seq<WaypointProgress>, legId: string, waypointIndex: int)
    ensures var r := WaypointIn(wps, legId, waypointIndex);
            r.Some? ==> exists j :: 0 <= j < |wps| && wps[j] == r.value &&
                          forall k :: 0 <= k < j ==> !Matches(wps[k], legId, waypointIndex)
  {
    var i := FindWaypointIndex(wps, legId, waypointIndex);
    if i >= 0 {
      assert wps[i] == WaypointIn(wps, legId, waypointIndex).value;
    }
  }

  /** The result recorded for waypoint `waypointIndex` of leg `legId`, if any. */
  function GetWaypointProgress(progress: CampaignProgress, legId: string, waypointIndex: int): (r: Option<WaypointProgress>)
    ensures r.Some? ==> r.value in progress.completedWaypoints && Matches(r.value, legId, waypointIndex)
    ensures r.None? ==> forall wp :: wp in progress.completedWaypoints ==> !Matches(wp, legId, waypointIndex)
  {
    WaypointIn(progress.completedWaypoints, legId, waypointIndex)
  }

  function InitializeCampaignProgress(): (p: CampaignProgress)
    ensures Valid(p)
    ensures p.completedWaypoints == [] && p.totalMissionsCompleted == 0
    ensures p.currentLegId == Legs[0].id && p.currentWaypointIndex == 0
    ensures p.unlockedLegIds == [Legs[0].id]
  {
    CampaignProgress("leg-1", 0, [], ["leg-1"], 0)
  }

  /** Waypoint `j` of the leg has an entry worth three stars. */
  predicate ThreeStars(progress: CampaignProgress, legId: string, j: int) {
    var wp := GetWaypointProgress(progress, legId, j);
    wp.Some? && wp.value.stars >= 3
  }

  /** The loop of `isLegPerfected` from index `i` on, with its early return. */
  function PerfectedFrom(progress: CampaignProgress, legId: string, i: int): (r: bool)
    requires 0 <= i <= WaypointsPerLeg
    ensures r <==> forall j :: i <= j < WaypointsPerLeg ==> ThreeStars(progress, legId, j)
    decreases WaypointsPerLeg - i
  {
    if i == WaypointsPerLeg then true
    else
      var wp := GetWaypointProgress(progress, legId, i);
      if wp.None? || wp.value.stars < 3 then
        assert !ThreeStars(progress, legId, i);
        false
      else PerfectedFrom(progress, legId, i + 1)
  }

  /** All five waypoints of the leg have three stars. */
  function IsLegPerfected(progress: CampaignProgress, legId: string): (r: bool)
    ensures r <==> forall j :: 0 <= j < WaypointsPerLeg ==> ThreeStars(progress, legId, j)
  {
    PerfectedFrom(progress, legId, 0)
  }

  /** `campaignLegs.findIndex(leg => leg.id === legId)`. */
  function LegIndex(legId: string): (r: int)
    ensures -1 <= r < |Legs|
    ensures r >= 0 ==> Legs[r].id == legId
    ensures r == -1 ==> forall j :: 0 <= j < |Legs| ==> Legs[j].id != legId
  {
    LegIndexFrom(legId, 0)
  }

  function LegIndexFrom(legId: string, i: nat): (r: int)
    requires i <= |Legs|
    ensures -1 <= r < |Legs|
    ensures r >= 0 ==> i <= r && Legs[r].id == legId
    ensures r == -1 ==> forall j :: i <= j < |Legs| ==> Legs[j].id != legId
    decreases |Legs| - i
  {
    if i == |Legs| then -1
    else if Legs[i].id == legId then i
    else LegIndexFrom(legId, i + 1)
  }

  function GetLegById(legId: string): (r: Option<Leg>)
    ensures r.Some? <==> exists j :: 0 <= j < |Legs| && Legs[j].id == legId
    ensures forall j :: 0 <= j < |Legs| && Legs[j].id == legId ==> r == Some(Legs[j])
  {
    LegIds();
    var i := LegIndex(legId);
    if i < 0 then None else Some(Legs[i])
  }

  /** The id of the leg after `legId` on the route, if there is one. */
  function GetNextLegId(legId: string): (r: Option<string>)
    ensures r.Some? <==> exists j :: 0 <= j < |Legs| - 1 && Legs[j].id == legId
    ensures forall j :: 0 <= j < |Legs| - 1 && Legs[j].id == legId ==> r == Some(Legs[j + 1].id)
  {
    LegIds();
    var i := LegIndex(legId);
    if i == -1 || i == |Legs| - 1 then None else Some(Legs[i + 1].id)
  }

  function CanUnlockNextLeg(progress: CampaignProgress): (r: bool)
    ensures r <==> forall j :: 0 <= j < WaypointsPerLeg ==> ThreeStars(progress, progress.currentLegId, j)
  {
    IsLegPerfected(progress, progress.currentLegId)
  }

  function MaxInt(a: int, b: int): int {
    if a >= b then a else b
  }

  /** Records `entry` under its key: appended when the key is new, replacing
      the old entry (timestamp included) only when it earns strictly more
      stars, and otherwise leaving the list as it was. */
  function UpsertWaypoint(wps: seq<WaypointProgress>, entry: WaypointProgress): (r: seq<WaypointProgress>)
    ensures var prior := WaypointIn(wps, entry.legId, entry.waypointIndex);
            && (prior.None? ==> r == wps + [entry])
            && (prior.Some? && entry.stars <= prior.value.stars ==> r == wps)
            && (prior.Some? && entry.stars > prior.value.stars ==>
                  |r| == |wps| && WaypointIn(r, entry.legId, entry.waypointIndex) == Some(entry))
    ensures var prior := WaypointIn(wps, entry.legId, entry.waypointIndex);
            var now := WaypointIn(r, entry.legId, entry.waypointIndex);
            now.Some? && now.value.stars == (if prior.None? then entry.stars else MaxInt(prior.value.stars, entry.stars))
    ensures forall j :: 0 <= j < |wps| && !Matches(wps[j], entry.legId, entry.waypointIndex) ==> r[j] == wps[j]
    ensures |wps| <= |r| <= |wps| + 1
    ensures KeysUnique(wps) ==> KeysUnique(r)
    ensures forall wp :: wp in r ==> wp in wps || wp == entry
  {
    var i := FindWaypointIndex(wps, entry.legId, entry.waypointIndex);
    if i >= 0 then
      if entry.stars > wps[i].stars then
        var r := wps[i := entry];
        assert FindWaypointIndex(r, entry.legId, entry.waypointIndex) == i by {
          FindAfterUpdate(wps, i, entry);
        }
        r
      else wps
    else
      var r := wps + [entry];
      assert FindWaypointIndex(r, entry.legId, entry.waypointIndex) == |wps| by {
        FindAfterAppend(wps, entry);
      }
      r
  }

  lemma FindAfterUpdate(wps: seq<WaypointProgress>, i: int, entry: WaypointProgress)
    requires 0 <= i < |wps| && i == FindWaypointIndex(wps, entry.legId, entry.waypointIndex)
    ensures FindWaypointIndex(wps[i := entry], entry.legId, entry.waypointIndex) == i
  {
    var r := wps[i := entry];
    var k := FindWaypointIndex(r, entry.legId, entry.waypointIndex);
    assert k != -1 by {
      assert Matches(r[i], entry.legId, entry.waypointIndex);
    }
    assert !(k < i) by {
      assert forall j :: 0 <= j < i ==> r[j] == wps[j];
    }
    assert !(k > i) by {
      assert Matches(r[i], entry.legId, entry.waypointIndex);
    }
  }

  lemma FindAfterAppend(wps: seq<WaypointProgress>, entry: WaypointProgress)
    requires FindWaypointIndex(wps, entry.legId, entry.waypointIndex) == -1
    ensures FindWaypointIndex(wps + [entry], entry.legId, entry.waypointIndex) == |wps|
  {
    var r := wps + [entry];
    var k := FindWaypointIndex(r, entry.legId, entry.waypointIndex);
    assert k != -1 by {
      assert Matches(r[|wps|], entry.legId, entry.waypointIndex);
    }
    assert !(k < |wps|) by {
      assert forall j :: 0 <= j < |wps| ==> r[j] == wps[j];
    }
  }

  /** Finishing the last waypoint of a now-perfected leg unlocks the next leg,
      unless there is none or it is already unlocked. */
  predicate UnlocksNext(progress: CampaignProgress, perfected: bool, legId: string, waypointIndex: int) {
    var next := GetNextLegId(legId);
    waypointIndex == LastWaypoint && perfected && next.Some? && next.value !in progress.unlockedLegIds
  }

  /** The position and unlocked legs after a result, given whether the leg
      is now perfected: the next leg on an unlock, the following waypoint on
      a pass through the current leg, otherwise the waypoint just played.
      Its ensures are the position clauses of `CompleteWaypoint`, stated once
      here so that member stays cheap to verify. */
  function Reposition(progress: CampaignProgress, perfected: bool, legId: string, waypointIndex: int): (position: (string, int, seq<string>))
    ensures var unlock := UnlocksNext(progress, perfected, legId, waypointIndex);
            && position.2 == (if unlock then progress.unlockedLegIds + [GetNextLegId(legId).value]
                              else progress.unlockedLegIds)
            && (unlock ==> position.0 == GetNextLegId(legId).value && position.1 == 0)
            && (!unlock && waypointIndex < LastWaypoint && legId == progress.currentLegId ==>
                  position.0 == legId && position.1 == waypointIndex + 1)
            && (!unlock && !(waypointIndex < LastWaypoint && legId == progress.currentLegId) ==>
                  position.0 == legId && position.1 == waypointIndex)
  {
    var next := GetNextLegId(legId);
    if waypointIndex == LastWaypoint && perfected then
      if next.Some? && next.value !in progress.unlockedLegIds then
        (next.value, 0, progress.unlockedLegIds + [next.value])
      else (legId, waypointIndex, progress.unlockedLegIds)
    else if waypointIndex < LastWaypoint && legId == progress.currentLegId then
      (legId, waypointIndex + 1, progress.unlockedLegIds)
    else (legId, waypointIndex, progress.unlockedLegIds)
  }

  /** Records the result of waypoint `waypointIndex` of leg `legId`, then
      unlocks and moves the player's position. `now` is the clock reading
      stamped on a new entry. */
  function CompleteWaypoint(progress: CampaignProgress, legId: string, waypointIndex: int,
                            score: int, totalQuestions: int, now: int): (r: CampaignProgress)
    ensures var prior := GetWaypointProgress(progress, legId, waypointIndex);
            var stars := CalculateStars(score, totalQuestions);
            var e := GetWaypointProgress(r, legId, waypointIndex);
            e.Some? && e.value.stars == (if prior.None? then stars else MaxInt(prior.value.stars, stars))
    ensures var prior := GetWaypointProgress(progress, legId, waypointIndex);
            prior.Some? && CalculateStars(score, totalQuestions) <= prior.value.stars ==>
              r.completedWaypoints == progress.completedWaypoints
    ensures |progress.completedWaypoints| <= |r.completedWaypoints| <= |progress.completedWaypoints| + 1
    ensures forall j :: (0 <= j < |progress.completedWaypoints| &&
                         !Matches(progress.completedWaypoints[j], legId, waypointIndex)) ==>
              r.completedWaypoints[j] == progress.completedWaypoints[j]
    ensures KeysUnique(progress.completedWaypoints) ==> KeysUnique(r.completedWaypoints)
    ensures r.totalMissionsCompleted == progress.totalMissionsCompleted +
              (if GetWaypointProgress(progress, legId, waypointIndex).None? then 1 else 0)
    ensures var unlock := UnlocksNext(progress, IsLegPerfected(r, legId), legId, waypointIndex);
            && r.unlockedLegIds == (if unlock then progress.unlockedLegIds + [GetNextLegId(legId).value]
                                    else progress.unlockedLegIds)
            && (unlock ==> r.currentLegId == GetNextLegId(legId).value && r.currentWaypointIndex == 0)
            && (!unlock && waypointIndex < LastWaypoint && legId == progress.currentLegId ==>
                  r.currentLegId == legId && r.currentWaypointIndex == waypointIndex + 1)
            && (!unlock && !(waypointIndex < LastWaypoint && legId == progress.currentLegId) ==>
                  r.currentLegId == legId && r.currentWaypointIndex == waypointIndex)
  {
    var stars := CalculateStars(score, totalQuestions);
    var existing := FindWaypointIndex(progress.completedWaypoints, legId, waypointIndex);
    var entry := WaypointProgress(legId, waypointIndex, stars, true, Some(now));
    var updated := progress.(completedWaypoints := UpsertWaypoint(progress.completedWaypoints, entry));
    var position := Reposition(progress, IsLegPerfected(updated, legId), legId, waypointIndex);
    updated.(
      currentLegId := position.0,
      currentWaypointIndex := position.1,
      unlockedLegIds := position.2,
      totalMissionsCompleted :=
        if existing >= 0 then progress.totalMissionsCompleted else progress.totalMissionsCompleted + 1)
  }

  /** Settings for a campaign round on a leg: the destination body's focus
      tables, multipliers up to 12, twenty questions. An unknown leg throws. */
  function GenerateCampaignMission(legId: string): (r: Result<GameSettings>)
    ensures r.Ok? <==> exists j :: 0 <= j < |Legs| && Legs[j].id == legId
    ensures forall j :: 0 <= j < |Legs| && Legs[j].id == legId ==>
              Legs[j].toBodyId in Bodies &&
              r == Ok(GameSettings(Bodies[Legs[j].toBodyId].focusTables, 12, 20))
  {
    BodiesResolve();
    match GetLegById(legId)
    case None => Err("Invalid leg ID")
    case Some(leg) =>
      assert leg.toBodyId in Bodies by {
        var j :| 0 <= j < |Legs| && Legs[j].id == legId;
      }
      Ok(GameSettings(Bodies[leg.toBodyId].focusTables, 12, 20))
  }

  /** Campaign XP: the practice XP, halved and floored on a replay. */
  function CalculateCampaignXP(score: int, totalQuestions: int, isReplay: bool): (xp: int)
    requires totalQuestions != 0
    ensures !isReplay ==> xp == CalculateXP(score, totalQuestions)
    ensures isReplay ==> 2 * xp <= CalculateXP(score, totalQuestions) <= 2 * xp + 1
    ensures isReplay && totalQuestions > 0 && 0 <= score <= totalQuestions ==>
              25 <= xp <= 75 && xp <= CalculateXP(score, totalQuestions)
  {
    var base := CalculateXP(score, totalQuestions);
    if isReplay then base / 2 else base
  }

  function StarsSum(wps: seq<WaypointProgress>): int {
    if wps == [] then 0 else StarsSum(wps[..|wps| - 1]) + wps[|wps| - 1].stars
  }

  lemma {:induction false} StarsSumBounds(wps: seq<WaypointProgress>)
    requires forall wp :: wp in wps ==> 1 <= wp.stars <= 3
    ensures |wps| <= StarsSum(wps) <= 3 * |wps|
    decreases |wps|
  {
    if wps != [] {
      var front := wps[..|wps| - 1];
      assert forall wp :: wp in front ==> wp in wps;
      StarsSumBounds(front);
      assert wps[|wps| - 1] in wps;
    }
  }

  function CountCompleted(wps: seq<WaypointProgress>): (n: nat)
    ensures n <= |wps|
    ensures n == |wps| <==> forall i :: 0 <= i < |wps| ==> wps[i].completed
  {
    if wps == [] then 0
    else
      var front := wps[..|wps| - 1];
      assert forall i :: 0 <= i < |front| ==> front[i] == wps[i];
      CountCompleted(front) + (if wps[|wps| - 1].completed then 1 else 0)
  }

  /** `StarsSum` adds up over a concatenation. */
  lemma {:induction false} StarsSumAppend(a: seq<WaypointProgress>, b: seq<WaypointProgress>)
    ensures StarsSum(a + b) == StarsSum(a) + StarsSum(b)
    decreases |b|
  {
    if b == [] {
      assert a + b == a;
    } else {
      var front := b[..|b| - 1];
      assert (a + b)[..|a + b| - 1] == a + front;
      assert (a + b)[|a + b| - 1] == b[|b| - 1];
      StarsSumAppend(a, front);
    }
  }

  /** A single entry contributes its own stars. */
  lemma StarsSumSingleton(wp: WaypointProgress)
    ensures StarsSum([wp]) == wp.stars
  {
    assert [wp][..0] == [];
  }

  /** The sum of the stars of all entries, as fixed by `StarsSumAppend` and
      `StarsSumSingleton`. */
  function GetTotalStarsEarned(progress: CampaignProgress): (n: int)
    ensures n == StarsSum(progress.completedWaypoints)
    ensures progress.completedWaypoints == [] ==> n == 0
  {
    StarsSum(progress.completedWaypoints)
  }

  /** With every entry worth one to three stars, the total lies between one
      and three stars per entry. */
  lemma TotalStarsBounds(progress: CampaignProgress)
    requires forall wp :: wp in progress.completedWaypoints ==> 1 <= wp.stars <= 3
    ensures |progress.completedWaypoints| <= GetTotalStarsEarned(progress) <= 3 * |progress.completedWaypoints|
  {
    StarsSumBounds(progress.completedWaypoints);
  }

  /** The positions of the completed entries. */
  function CompletedIndices(wps: seq<WaypointProgress>): set<int> {
    set i | 0 <= i < |wps| && wps[i].completed
  }

  /** `CountCompleted` counts exactly the completed positions. */
  lemma {:induction false} CountCompletedIndices(wps: seq<WaypointProgress>)
    ensures CountCompleted(wps) == |CompletedIndices(wps)|
    decreases |wps|
  {
    if wps != [] {
      var n := |wps| - 1;
      var front := wps[..n];
      CountCompletedIndices(front);
      CompletedIndicesSnoc(wps);
    }
  }

  /** The completed positions of a list are those of its front, plus the
      last position when the last entry is completed. */
  lemma CompletedIndicesSnoc(wps: seq<WaypointProgress>)
    requires wps != []
    ensures var n := |wps| - 1;
            && CompletedIndices(wps) == CompletedIndices(wps[..n]) + (if wps[n].completed then {n} else {})
            && n !in CompletedIndices(wps[..n])
  {
    var n := |wps| - 1;
    var front := wps[..n];
    forall i | 0 <= i < n
      ensures front[i] == wps[i]
    {
    }
  }

  /** The number of completed entries: at most all of them, all of them
      exactly when every entry is completed, and in general the number of
      positions holding a completed entry. */
  function GetCompletedWaypointsCount(progress: CampaignProgress): (n: nat)
    ensures n <= |progress.completedWaypoints|
    ensures n == |progress.completedWaypoints| <==> forall wp :: wp in progress.completedWaypoints ==> wp.completed
    ensures n == |CompletedIndices(progress.completedWaypoints)|
  {
    CountCompletedIndices(progress.completedWaypoints);
    CountCompleted(progress.completedWaypoints)
  }

  /** Fourteen legs of five waypoints each. */
  function TotalWaypoints(): (n: int)
    ensures n == 70
  {
    LegIds();
    |Legs| * WaypointsPerLeg
  }

  /** A completed entry for the key exists; such a round earns half XP. */
  function IsReplayAttempt(progress: CampaignProgress, legId: string, waypointIndex: int): (r: bool)
    ensures r ==> exists j :: (0 <= j < |progress.completedWaypoints| &&
                               Matches(progress.completedWaypoints[j], legId, waypointIndex) &&
                               progress.completedWaypoints[j].completed)
    ensures (forall wp :: wp in progress.completedWaypoints ==> wp.completed) ==>
              (r <==> exists j :: 0 <= j < |progress.completedWaypoints| &&
                        Matches(progress.completedWaypoints[j], legId, waypointIndex))
    ensures KeysUnique(progress.completedWaypoints) ==>
              (r <==> exists j :: 0 <= j < |progress.completedWaypoints| &&
                        Matches(progress.completedWaypoints[j], legId, waypointIndex) &&
                        progress.completedWaypoints[j].completed)
  {
    WaypointInFirst(progress.completedWaypoints, legId, waypointIndex);
    var existing := GetWaypointProgress(progress, legId, waypointIndex);
    existing.Some? && existing.value.completed
  }

  /** The record invariant: the unlocked legs are the first legs of the route
      in order, the position is on an unlocked leg at a waypoint 0..4, keys
      are unique, every entry is a completed result with 1..3 stars on an
      unlocked leg, and the mission counter equals the number of entries. */
  predicate Valid(p: CampaignProgress) {
    && RoutePrefix(p.unlockedLegIds)
    && p.currentLegId in p.unlockedLegIds
    && 0 <= p.currentWaypointIndex <= LastWaypoint
    && KeysUnique(p.completedWaypoints)
    && (forall wp :: wp in p.completedWaypoints ==> GoodEntry(wp, p.unlockedLegIds))
    && p.totalMissionsCompleted == |p.completedWaypoints|
  }

  /** `u` lists the first |u| legs of the route, in route order. */
  predicate RoutePrefix(u: seq<string>) {
    && 1 <= |u| <= |Legs|
    && forall i :: 0 <= i < |u| ==> u[i] == Legs[i].id
  }

  /** Appending the successor of an unlocked leg that is not yet unlocked
      keeps the unlocked list a prefix of the route. */
  lemma UnlockExtendsPrefix(u: seq<string>, legId: string, next: string)
    requires RoutePrefix(u) && legId in u
    requires GetNextLegId(legId) == Some(next) && next !in u
    ensures RoutePrefix(u + [next])
  {
    var k :| 0 <= k < |u| && u[k] == legId;
    var j :| 0 <= j < |Legs| - 1 && Legs[j].id == legId;
    LegIdIndex(j, k);
    assert next == Legs[k + 1].id;
    assert Legs[k + 1].id !in u;
  }

  predicate GoodEntry(wp: WaypointProgress, unlocked: seq<string>) {
    wp.completed && 1 <= wp.stars <= 3 && 0 <= wp.waypointIndex <= LastWaypoint && wp.legId in unlocked
  }

  /** The entry list after a completion is the upsert of the new result,
      and unlocked legs stay unlocked. */
  lemma CompleteWaypointParts(p: CampaignProgress, legId: string, waypointIndex: int,
                              score: int, totalQuestions: int, now: int)
    ensures var r := CompleteWaypoint(p, legId, waypointIndex, score, totalQuestions, now);
            var entry := WaypointProgress(legId, waypointIndex, CalculateStars(score, totalQuestions), true, Some(now));
            && r.completedWaypoints == UpsertWaypoint(p.completedWaypoints, entry)
            && (forall x :: x in p.unlockedLegIds ==> x in r.unlockedLegIds)
  {
  }

  /** Upserting a good entry into good entries leaves only good entries,
      judged against any list that still holds the old unlocked legs. */
  lemma UpsertKeepsGood(wps: seq<WaypointProgress>, entry: WaypointProgress,
                        u: seq<string>, u2: seq<string>)
    requires forall x :: x in u ==> x in u2
    requires forall wp :: wp in wps ==> GoodEntry(wp, u)
    requires GoodEntry(entry, u)
    ensures forall wp :: wp in UpsertWaypoint(wps, entry) ==> GoodEntry(wp, u2)
  {
  }

  lemma CompleteWaypointEntries(p: CampaignProgress, legId: string, waypointIndex: int,
                                score: int, totalQuestions: int, now: int)
    requires Valid(p)
    requires legId in p.unlockedLegIds && 0 <= waypointIndex <= LastWaypoint
    ensures var r := CompleteWaypoint(p, legId, waypointIndex, score, totalQuestions, now);
            && KeysUnique(r.completedWaypoints)
            && (forall wp :: wp in r.completedWaypoints ==> GoodEntry(wp, r.unlockedLegIds))
            && r.totalMissionsCompleted == |r.completedWaypoints|
  {
    var r := CompleteWaypoint(p, legId, waypointIndex, score, totalQuestions, now);
    var entry := WaypointProgress(legId, waypointIndex, CalculateStars(score, totalQuestions), true, Some(now));
    CompleteWaypointParts(p, legId, waypointIndex, score, totalQuestions, now);
    UpsertKeepsGood(p.completedWaypoints, entry, p.unlockedLegIds, r.unlockedLegIds);
  }

  /** Completing a waypoint of an unlocked leg keeps the record valid: the
      position stays on an unlocked leg and within 0..4, unlocks stay a route
      prefix, keys stay unique, the counter keeps pace with the entries. */
  lemma CompleteWaypointPreservesValid(p: CampaignProgress, legId: string, waypointIndex: int,
                                       score: int, totalQuestions: int, now: int)
    requires Valid(p)
    requires legId in p.unlockedLegIds && 0 <= waypointIndex <= LastWaypoint
    ensures Valid(CompleteWaypoint(p, legId, waypointIndex, score, totalQuestions, now))
  {
    var r := CompleteWaypoint(p, legId, waypointIndex, score, totalQuestions, now);
    CompleteWaypointEntries(p, legId, waypointIndex, score, totalQuestions, now);
    if UnlocksNext(p, IsLegPerfected(r, legId), legId, waypointIndex) {
      UnlockExtendsPrefix(p.unlockedLegIds, legId, GetNextLegId(legId).value);
    }
  }

  /** After any completion of a waypoint on a valid record, playing it again
      is a replay, and a replay earns half the practice XP, rounded down. */
  lemma ReplayAfterComplete(p: CampaignProgress, legId: string, waypointIndex: int,
                            score: int, totalQuestions: int, now: int, s2: int, t2: int)
    requires Valid(p) && legId in p.unlockedLegIds && 0 <= waypointIndex <= LastWaypoint
    requires t2 != 0
    ensures var r := CompleteWaypoint(p, legId, waypointIndex, score, totalQuestions, now);
            && IsReplayAttempt(r, legId, waypointIndex)
            && CalculateCampaignXP(s2, t2, IsReplayAttempt(r, legId, waypointIndex)) == CalculateXP(s2, t2) / 2
  {
    var r := CompleteWaypoint(p, legId, waypointIndex, score, totalQuestions, now);
    CompleteWaypointPreservesValid(p, legId, waypointIndex, score, totalQuestions, now);
    var e := GetWaypointProgress(r, legId, waypointIndex);
    assert e.value in r.completedWaypoints;
  }

  /** Only a completion of the last waypoint can unlock a leg: a result on
      any other waypoint leaves the unlocked legs as they were, even when it
      perfects the leg, and keeps the player on the leg just played. */
  lemma UnlockOnlyAtLastWaypoint(p: CampaignProgress, legId: string, waypointIndex: int,
                                 score: int, totalQuestions: int, now: int)
    requires waypointIndex != LastWaypoint
    ensures var r := CompleteWaypoint(p, legId, waypointIndex, score, totalQuestions, now);
            r.unlockedLegIds == p.unlockedLegIds && r.currentLegId == legId
  {
  }

  /** Playing the same waypoint twice with the same score changes nothing the
      second time: neither the entries (timestamps included) nor the counter. */
  lemma CompleteWaypointIdempotent(p: CampaignProgress, legId: string, waypointIndex: int,
                                   score: int, totalQuestions: int, t1: int, t2: int)
    ensures var r1 := CompleteWaypoint(p, legId, waypointIndex, score, totalQuestions, t1);
            var r2 := CompleteWaypoint(r1, legId, waypointIndex, score, totalQuestions, t2);
            r2.completedWaypoints == r1.completedWaypoints &&
            r2.totalMissionsCompleted == r1.totalMissionsCompleted
  {
  }

  lemma {:induction false} StarsSumUpdate(wps: seq<WaypointProgress>, i: int, e: WaypointProgress)
    requires 0 <= i < |wps|
    ensures StarsSum(wps[i := e]) == StarsSum(wps) - wps[i].stars + e.stars
    decreases |wps|
  {
    var n := |wps|;
    var u := wps[i := e];
    if i < n - 1 {
      assert u[..n - 1] == wps[..n - 1][i := e];
      StarsSumUpdate(wps[..n - 1], i, e);
    } else {
      assert u[..n - 1] == wps[..n - 1];
    }
  }

  /** The star total grows by the stars of a first completion, or by the
      improvement of an upgraded entry, and by nothing otherwise. */
  lemma TotalStarsAfterComplete(p: CampaignProgress, legId: string, waypointIndex: int,
                                score: int, totalQuestions: int, now: int)
    ensures var prior := GetWaypointProgress(p, legId, waypointIndex);
            var stars := CalculateStars(score, totalQuestions);
            GetTotalStarsEarned(CompleteWaypoint(p, legId, waypointIndex, score, totalQuestions, now)) ==
              GetTotalStarsEarned(p) +
              (if prior.None? then stars else MaxInt(prior.value.stars, stars) - prior.value.stars)
  {
    var wps := p.completedWaypoints;
    var stars := CalculateStars(score, totalQuestions);
    var entry := WaypointProgress(legId, waypointIndex, stars, true, Some(now));
    var i := FindWaypointIndex(wps, legId, waypointIndex);
    if i >= 0 && stars > wps[i].stars {
      StarsSumUpdate(wps, i, entry);
    } else if i < 0 {
      assert (wps + [entry])[..|wps|] == wps;
    }
  }

  lemma {:induction false} CountCompletedAll(wps: seq<WaypointProgress>)
    requires forall wp :: wp in wps ==> wp.completed
    ensures CountCompleted(wps) == |wps|
    decreases |wps|
  {
    if wps != [] {
      assert forall wp :: wp in wps[..|wps| - 1] ==> wp in wps;
      CountCompletedAll(wps[..|wps| - 1]);
    }
  }

  /** On a valid record the completed-waypoint count is the mission counter. */
  lemma CompletedCountIsMissionCount(p: CampaignProgress)
    requires Valid(p)
    ensures GetCompletedWaypointsCount(p) == p.totalMissionsCompleted
  {
    CountCompletedAll(p.completedWaypoints);
  }

  /** Replaying an earlier waypoint of the current leg moves the position back
      to the waypoint after it, not to where the player was. */
  lemma ReplayMovesPositionBack(p: CampaignProgress, legId: string, waypointIndex: int,
                                score: int, totalQuestions: int, now: int)
    requires legId == p.currentLegId && 0 <= waypointIndex && waypointIndex + 1 < p.currentWaypointIndex
    ensures CompleteWaypoint(p, legId, waypointIndex, score, totalQuestions, now).currentWaypointIndex
              < p.currentWaypointIndex
  {
  }

  /** The ordinary forward step: a first completion of a waypoint before the
      last on the current leg appends its entry, counts one mission and moves
      the position to the next waypoint. */
  lemma FirstClearAdvances(p: CampaignProgress, legId: string, waypointIndex: int,
                           score: int, totalQuestions: int, now: int)
    requires legId == p.currentLegId && 0 <= waypointIndex < LastWaypoint
    requires GetWaypointProgress(p, legId, waypointIndex).None?
    ensures CompleteWaypoint(p, legId, waypointIndex, score, totalQuestions, now) ==
              p.(currentWaypointIndex := waypointIndex + 1,
                 completedWaypoints := p.completedWaypoints +
                   [WaypointProgress(legId, waypointIndex, CalculateStars(score, totalQuestions), true, Some(now))],
                 totalMissionsCompleted := p.totalMissionsCompleted + 1)
  {
  }

  function FirstLegEntry(t: int, j: int): WaypointProgress {
    WaypointProgress("leg-1", j, 3, true, Some(t))
  }

  /** Perfect scores on all five waypoints of the first leg, from a fresh
      record, unlock the second leg and put the player at its start. */
  lemma PerfectFirstLegUnlocksSecond(t: int)
    ensures var p0 := InitializeCampaignProgress();
            var p1 := CompleteWaypoint(p0, "leg-1", 0, 20, 20, t);
            var p2 := CompleteWaypoint(p1, "leg-1", 1, 20, 20, t);
            var p3 := CompleteWaypoint(p2, "leg-1", 2, 20, 20, t);
            var p4 := CompleteWaypoint(p3, "leg-1", 3, 20, 20, t);
            var p5 := CompleteWaypoint(p4, "leg-1", 4, 20, 20, t);
            p5.unlockedLegIds == ["leg-1", "leg-2"] && p5.currentLegId == "leg-2" &&
            p5.currentWaypointIndex == 0 && p5.totalMissionsCompleted == 5
  {
    FirstFourWaypoints(t);
    LastClearOfFirstLeg(t);
  }

  lemma FirstFourWaypoints(t: int)
    ensures var p0 := InitializeCampaignProgress();
            var p1 := CompleteWaypoint(p0, "leg-1", 0, 20, 20, t);
            var p2 := CompleteWaypoint(p1, "leg-1", 1, 20, 20, t);
            var p3 := CompleteWaypoint(p2, "leg-1", 2, 20, 20, t);
            CompleteWaypoint(p3, "leg-1", 3, 20, 20, t) == FirstLegAt(t, 4)
  {
    var p0 := InitializeCampaignProgress();
    FirstClearAdvances(p0, "leg-1", 0, 20, 20, t);
    assert CompleteWaypoint(p0, "leg-1", 0, 20, 20, t) == FirstLegAt(t, 1);
    FirstClearStep(t, 1);
    FirstClearStep(t, 2);
    FirstClearStep(t, 3);
  }

  /** The record after perfect first clears of waypoints 0..n-1 of leg 1. */
  function FirstLegAt(t: int, n: nat): CampaignProgress {
    CampaignProgress("leg-1", n, seq(n, j => FirstLegEntry(t, j)), ["leg-1"], n)
  }

  lemma FirstClearStep(t: int, n: nat)
    requires 1 <= n < LastWaypoint
    ensures CompleteWaypoint(FirstLegAt(t, n), "leg-1", n, 20, 20, t) == FirstLegAt(t, n + 1)
  {
    var p := FirstLegAt(t, n);
    FirstLegMissing(t, n, n);
    FirstClearAdvances(p, "leg-1", n, 20, 20, t);
    FirstLegGrows(t, n);
  }

  /** No entry of the record after n first clears is for waypoint k >= n. */
  lemma FirstLegMissing(t: int, n: nat, k: int)
    requires n <= k
    ensures GetWaypointProgress(FirstLegAt(t, n), "leg-1", k).None?
  {
    var wps := FirstLegAt(t, n).completedWaypoints;
    forall j | 0 <= j < |wps| ensures !Matches(wps[j], "leg-1", k) {
      assert wps[j].waypointIndex == j;
    }
  }

  lemma FirstLegGrows(t: int, n: nat)
    ensures CalculateStars(20, 20) == 3
    ensures FirstLegAt(t, n).completedWaypoints + [FirstLegEntry(t, n)] == FirstLegAt(t, n + 1).completedWaypoints
  {
    var a := FirstLegAt(t, n).completedWaypoints + [FirstLegEntry(t, n)];
    var b := FirstLegAt(t, n + 1).completedWaypoints;
    assert |a| == |b|;
    forall j | 0 <= j < |a| ensures a[j] == b[j] {
      if j < n {
        assert a[j] == FirstLegAt(t, n).completedWaypoints[j];
      }
    }
  }

  lemma LastClearOfFirstLeg(t: int)
    ensures var p5 := CompleteWaypoint(FirstLegAt(t, 4), "leg-1", 4, 20, 20, t);
            p5.unlockedLegIds == ["leg-1", "leg-2"] && p5.currentLegId == "leg-2" &&
            p5.currentWaypointIndex == 0 && p5.totalMissionsCompleted == 5
  {
    FirstLegMissing(t, 4, 4);
    LastClearPerfects(t);
    FirstLegLocked(t);
    NextOfFirstLeg();
    LastClearUnlocks(FirstLegAt(t, 4), "leg-1", "leg-2", 20, 20, t);
    LastClearMoves(FirstLegAt(t, 4), "leg-1", "leg-2", 20, 20, t);
  }

  lemma FirstLegLocked(t: int)
    ensures FirstLegAt(t, 4).unlockedLegIds == ["leg-1"] && FirstLegAt(t, 4).totalMissionsCompleted == 4
  {
  }

  /** The last first clear on a leg, when it is the only unlocked leg and ends
      up perfected, unlocks the next leg ... */
  lemma LastClearUnlocks(p: CampaignProgress, legId: string, next: string,
                         score: int, totalQuestions: int, t: int)
    requires p.unlockedLegIds == [legId] && next != legId
    requires GetNextLegId(legId) == Some(next)
    requires IsLegPerfected(CompleteWaypoint(p, legId, LastWaypoint, score, totalQuestions, t), legId)
    ensures CompleteWaypoint(p, legId, LastWaypoint, score, totalQuestions, t).unlockedLegIds == [legId, next]
  {
    UnlockStep(p, legId, LastWaypoint, score, totalQuestions, t, next);
    PairList(legId, next);
  }

  lemma PairList(a: string, b: string)
    ensures [a] + [b] == [a, b]
  {
  }

  /** ... and moves the player to the start of that leg, counting one mission. */
  lemma LastClearMoves(p: CampaignProgress, legId: string, next: string,
                       score: int, totalQuestions: int, t: int)
    requires p.unlockedLegIds == [legId] && next != legId
    requires GetNextLegId(legId) == Some(next)
    requires GetWaypointProgress(p, legId, LastWaypoint).None?
    requires IsLegPerfected(CompleteWaypoint(p, legId, LastWaypoint, score, totalQuestions, t), legId)
    ensures var r := CompleteWaypoint(p, legId, LastWaypoint, score, totalQuestions, t);
            r.currentLegId == next && r.currentWaypointIndex == 0 &&
            r.totalMissionsCompleted == p.totalMissionsCompleted + 1
  {
    NewEntryCounted(p, legId, LastWaypoint, score, totalQuestions, t);
    UnlockStep(p, legId, LastWaypoint, score, totalQuestions, t, next);
  }

  /** A completion with no earlier entry for the key counts one more mission. */
  lemma NewEntryCounted(p: CampaignProgress, legId: string, waypointIndex: int,
                        score: int, totalQuestions: int, now: int)
    requires GetWaypointProgress(p, legId, waypointIndex).None?
    ensures CompleteWaypoint(p, legId, waypointIndex, score, totalQuestions, now).totalMissionsCompleted
              == p.totalMissionsCompleted + 1
  {
  }

  /** Finishing the last waypoint of a leg that is then perfected moves the
      player to the start of the next leg when that leg was still locked. */
  lemma UnlockStep(p: CampaignProgress, legId: string, waypointIndex: int,
                   score: int, totalQuestions: int, now: int, next: string)
    requires waypointIndex == LastWaypoint
    requires IsLegPerfected(CompleteWaypoint(p, legId, waypointIndex, score, totalQuestions, now), legId)
    requires GetNextLegId(legId) == Some(next) && next !in p.unlockedLegIds
    ensures var r := CompleteWaypoint(p, legId, waypointIndex, score, totalQuestions, now);
            r.unlockedLegIds == p.unlockedLegIds + [next] && r.currentLegId == next && r.currentWaypointIndex == 0
  {
  }

  lemma LastClearPerfects(t: int)
    ensures IsLegPerfected(CompleteWaypoint(FirstLegAt(t, 4), "leg-1", 4, 20, 20, t), "leg-1")
  {
    var p5 := CompleteWaypoint(FirstLegAt(t, 4), "leg-1", 4, 20, 20, t);
    var p := FirstLegAt(t, 5);
    LastClearEntries(t);
    FirstLegThreeStars(t, 5);
    forall j | 0 <= j < WaypointsPerLeg ensures ThreeStars(p5, "leg-1", j) {
      assert GetWaypointProgress(p5, "leg-1", j) == GetWaypointProgress(p, "leg-1", j);
      assert ThreeStars(p, "leg-1", j);
    }
  }

  /** After n perfect first clears, waypoints 0..n-1 of leg 1 have three stars. */
  lemma FirstLegThreeStars(t: int, n: nat)
    ensures forall j :: 0 <= j < n ==> ThreeStars(FirstLegAt(t, n), "leg-1", j)
  {
    var wps := FirstLegAt(t, n).completedWaypoints;
    assert forall wp :: wp in wps ==> wp.stars == 3;
    forall j | 0 <= j < n ensures ThreeStars(FirstLegAt(t, n), "leg-1", j) {
      assert Matches(wps[j], "leg-1", j);
    }
  }

  lemma LastClearEntries(t: int)
    ensures CompleteWaypoint(FirstLegAt(t, 4), "leg-1", 4, 20, 20, t).completedWaypoints ==
              FirstLegAt(t, 5).completedWaypoints
  {
    FirstLegMissing(t, 4, 4);
    FirstLegGrows(t, 4);
  }

  lemma NextOfFirstLeg()
    ensures GetNextLegId("leg-1") == Some("leg-2")
  {
    assert Legs[0].id == "leg-1";
  }

  /** A campaign round never hits the empty-tail error: every destination has
      at least three focus tables, so the pool of 36 or more pairs is larger
      than the twelve weak picks, and the round has exactly twenty questions. */
  lemma MissionRoundsNeverFail(legId: string, stats: Option<PlayerStats>, draws: seq<nat>, choices: seq<nat>)
    requires GenerateCampaignMission(legId).Ok?
    requires |draws| == 8
    ensures var settings := GenerateCampaignMission(legId).value;
            RandomCount(settings.questionsPerRound) == 8 &&
            GenerateQuestions(settings, stats, draws, choices).Ok? &&
            |GenerateQuestions(settings, stats, draws, choices).value| == 20
  {
    var settings := GenerateCampaignMission(legId).value;
    MissionSettingsShape(legId);
    assert WeakCount(20) == 12 && RandomCount(20) == 8;
    assert Max0(settings.maxMultiplier) == 12;
    assert |settings.selectedTables| * 12 >= 36;
    FullRound(settings, stats, draws, choices);
  }

  /** A leg's mission practises three or more of the tables 1..12, with
      multipliers up to 12, in twenty questions. */
  lemma MissionSettingsShape(legId: string)
    requires GenerateCampaignMission(legId).Ok?
    ensures var settings := GenerateCampaignMission(legId).value;
            && |settings.selectedTables| >= 3
            && (forall t :: t in settings.selectedTables ==> 1 <= t <= 12)
            && settings.maxMultiplier == 12 && settings.questionsPerRound == 20
  {
    var j :| 0 <= j < |Legs| && Legs[j].id == legId;
    BodiesResolve();
    FocusTablesValid();
    assert FocusValid(Bodies[Legs[j].toBodyId]);
  }
}
