/** The records of the game: round configuration and questions, the static
    route data, and the player's stored progress. Floating-point fields
    (a waypoint's accuracy) are not represented. */
module GameTypes {
  import opened Results

  /** A multiplication fact `num1 × num2`, as the generator's `[number, number]`. */
  type Pair = (int, int)

  datatype Question = Question(
    num1: int,
    num2: int,
    answer: int,
    userAnswer: Option<int>,
    correct: Option<bool>)

  datatype GameSettings = GameSettings(
    selectedTables: seq<int>,
    maxMultiplier: int,
    questionsPerRound: int)

  datatype BodyType = Planet | Moon | Asteroid | Dwarf | Kuiper

  /** A destination on the route. Its display fact is kept in a table of
      its own, keyed by the same id. */
  datatype CelestialBody = CelestialBody(
    id: string,
    name: string,
    bodyType: BodyType,
    focusTables: seq<int>,
    color: string,
    emoji: string)

  datatype Chapter = Inner | Giants | Outer | KuiperBelt

  datatype Leg = Leg(
    id: string,
    fromBodyId: string,
    toBodyId: string,
    waypointsRequired: int,
    chapter: Chapter)

  /** One entry of the campaign record; `stars` is 0..3 by the type's comment. */
  datatype WaypointProgress = WaypointProgress(
    legId: string,
    waypointIndex: int,
    stars: int,
    completed: bool,
    timestamp: Option<int>)

  datatype CampaignProgress = CampaignProgress(
    currentLegId: string,
    currentWaypointIndex: int,
    completedWaypoints: seq<WaypointProgress>,
    unlockedLegIds: seq<string>,
    totalMissionsCompleted: int)

  /** `weakAreas` maps a fact key such as "7x8" to its miss count. */
  datatype PlayerStats = PlayerStats(
    totalXP: int,
    weakAreas: map<string, int>,
    campaignProgress: Option<CampaignProgress>)
}
