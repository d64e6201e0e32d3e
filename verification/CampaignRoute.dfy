/** The static campaign route: fifteen celestial bodies and the fourteen legs
    that join them into one chain from Earth to Arrokoth. */
module CampaignRoute {
  import opened GameTypes
  import opened Decimal

  const EarthBody: CelestialBody := CelestialBody("earth", "Earth", Planet,
    [1, 2, 3], "hsl(195 100% 50%)", "\U{1F30D}")

  const MoonBody: CelestialBody := CelestialBody("moon", "Moon", Moon,
    [2, 3, 4], "hsl(0 0% 75%)", "\U{1F319}")

  const MarsBody: CelestialBody := CelestialBody("mars", "Mars", Planet,
    [3, 4, 5], "hsl(0 70% 50%)", "\U{1F534}")

  const CeresBody: CelestialBody := CelestialBody("ceres", "Ceres", Asteroid,
    [4, 5, 6], "hsl(30 50% 50%)", "\U{2604}\U{FE0F}")

  const JupiterBody: CelestialBody := CelestialBody("jupiter", "Jupiter", Planet,
    [5, 6, 7], "hsl(30 70% 60%)", "\U{1FA90}")

  const EuropaBody: CelestialBody := CelestialBody("europa", "Europa", Moon,
    [6, 7, 8], "hsl(195 80% 80%)", "\U{1F9CA}")

  const SaturnBody: CelestialBody := CelestialBody("saturn", "Saturn", Planet,
    [7, 8, 9], "hsl(45 60% 70%)", "\U{1F48D}")

  const TitanBody: CelestialBody := CelestialBody("titan", "Titan", Moon,
    [7, 8, 9], "hsl(30 80% 50%)", "\U{1F7E0}")

  const UranusBody: CelestialBody := CelestialBody("uranus", "Uranus", Planet,
    [8, 9, 10], "hsl(180 60% 60%)", "\U{1F48E}")

  const NeptuneBody: CelestialBody := CelestialBody("neptune", "Neptune", Planet,
    [9, 10, 11], "hsl(220 80% 50%)", "\U{1F535}")

  const PlutoBody: CelestialBody := CelestialBody("pluto", "Pluto", Dwarf,
    [10, 11, 12], "hsl(200 40% 70%)", "\U{2744}\U{FE0F}")

  const HaumeaBody: CelestialBody := CelestialBody("haumea", "Haumea", Dwarf,
    [4, 8, 12], "hsl(0 0% 85%)", "\U{1F95A}")

  const MakemakeBody: CelestialBody := CelestialBody("makemake", "Makemake", Dwarf,
    [3, 6, 9, 12], "hsl(15 60% 55%)", "\U{1F534}")

  const ErisBody: CelestialBody := CelestialBody("eris", "Eris", Dwarf,
    [2, 4, 6, 8, 10, 12], "hsl(0 0% 95%)", "\U{26AA}")

  const ArrokothBody: CelestialBody := CelestialBody("arrokoth", "Arrokoth", Kuiper,
    [1, 2, 3, 4, 5, 6, 7, 8, 9, 10, 11, 12], "hsl(30 30% 50%)", "\U{1F954}")

  /** The body table, keyed by body id. */
  const Bodies: map<string, CelestialBody> := map[
    "earth" := EarthBody,
    "moon" := MoonBody,
    "mars" := MarsBody,
    "ceres" := CeresBody,
    "jupiter" := JupiterBody,
    "europa" := EuropaBody,
    "saturn" := SaturnBody,
    "titan" := TitanBody,
    "uranus" := UranusBody,
    "neptune" := NeptuneBody,
    "pluto" := PlutoBody,
    "haumea" := HaumeaBody,
    "makemake" := MakemakeBody,
    "eris" := ErisBody,
    "arrokoth" := ArrokothBody
  ]

  /** The fact shown for each body, keyed by body id. */
  const BodyFacts: map<string, string> := map[
    "earth" :=
      "Earth is the only planet known to support life, with 71% of its surface covered by water.",
    "moon" :=
      "The Moon is Earth's only natural satellite. It takes 27.3 days to orbit Earth.",
    "mars" :=
      "Mars is called the Red Planet due to iron oxide (rust) on its surface. A day on Mars is 24.6 hours!",
    "ceres" :=
      "Ceres is the largest object in the asteroid belt, containing about one-third of the belt's total mass.",
    "jupiter" :=
      "Jupiter is the largest planet in our solar system, with 95 known moons. Its Great Red Spot is a storm larger than Earth!",
    "europa" :=
      "Europa is covered in ice and may have a vast ocean beneath its frozen surface\U{2014}making it a prime candidate for alien life!",
    "saturn" :=
      "Saturn's rings are made of billions of ice and rock particles, some as small as dust, others as large as mountains.",
    "titan" :=
      "Titan is Saturn's largest moon and has lakes and rivers\U{2014}but filled with liquid methane, not water!",
    "uranus" :=
      "Uranus rotates on its side at a 98\U{00B0} tilt, likely due to a massive collision billions of years ago.",
    "neptune" :=
      "Neptune has the fastest winds in the solar system, reaching speeds of over 1,200 mph (2,000 km/h)!",
    "pluto" :=
      "Pluto was reclassified as a dwarf planet in 2006. It has a heart-shaped glacier called Tombaugh Regio!",
    "haumea" :=
      "Haumea is egg-shaped due to its incredibly fast rotation\U{2014}a day on Haumea is only 4 hours long!",
    "makemake" :=
      "Makemake is one of the brightest objects in the Kuiper Belt and is named after the Rapa Nui god of fertility.",
    "eris" :=
      "Eris is slightly smaller than Pluto but more massive. Its discovery led to Pluto being reclassified!",
    "arrokoth" :=
      "Arrokoth is the most distant object ever explored by a spacecraft. It looks like a snowman made of ancient space rock!"
  ]

  const Legs: seq<Leg> := [
    Leg("leg-1", "earth", "moon", 5, Inner),
    Leg("leg-2", "moon", "mars", 5, Inner),
    Leg("leg-3", "mars", "ceres", 5, Inner),
    Leg("leg-4", "ceres", "jupiter", 5, Giants),
    Leg("leg-5", "jupiter", "europa", 5, Giants),
    Leg("leg-6", "europa", "saturn", 5, Giants),
    Leg("leg-7", "saturn", "titan", 5, Giants),
    Leg("leg-8", "titan", "uranus", 5, Outer),
    Leg("leg-9", "uranus", "neptune", 5, Outer),
    Leg("leg-10", "neptune", "pluto", 5, KuiperBelt),
    Leg("leg-11", "pluto", "haumea", 5, KuiperBelt),
    Leg("leg-12", "haumea", "makemake", 5, KuiperBelt),
    Leg("leg-13", "makemake", "eris", 5, KuiperBelt),
    Leg("leg-14", "eris", "arrokoth", 5, KuiperBelt)
  ]

  /** Number of waypoints in every leg; the progression logic hard-codes it. */
  const WaypointsPerLeg: int := 5

  function ChapterName(chapter: Chapter): (name: string)
    ensures |name| > 0
  {
    match chapter
    case Inner => "Inner System"
    case Giants => "Gas Giants"
    case Outer => "Ice Giants"
    case KuiperBelt => "Kuiper Belt"
  }

  lemma ChapterNamesDistinct(a: Chapter, b: Chapter)
    requires a != b
    ensures ChapterName(a) != ChapterName(b)
  {
  }

  lemma TwoDigitNames()
    ensures NatToString(10) == "10" && NatToString(11) == "11" && NatToString(12) == "12"
    ensures NatToString(13) == "13" && NatToString(14) == "14"
  {
    assert NatToString(1) == "1";
  }

  lemma LegNames()
    ensures |Legs| == 14
    ensures forall i :: 0 <= i < |Legs| ==> Legs[i].id == "leg-" + NatToString(i + 1)
  {
    TwoDigitNames();
  }

  /** Leg `i` (0-based) is called "leg-<i+1>", so the ids are distinct and in route order. */
  lemma LegIds()
    ensures |Legs| == 14
    ensures forall i :: 0 <= i < |Legs| ==> Legs[i].id == "leg-" + NatToString(i + 1)
    ensures forall i, j :: 0 <= i < j < |Legs| ==> Legs[i].id != Legs[j].id
  {
    LegNames();
    forall i, j | 0 <= i < j < |Legs| ensures Legs[i].id != Legs[j].id {
      NatToStringInjective(i + 1, j + 1);
      assert Legs[i].id[4..] == NatToString(i + 1);
      assert Legs[j].id[4..] == NatToString(j + 1);
    }
  }

  lemma LegIdIndex(i: int, j: int)
    requires 0 <= i < |Legs| && 0 <= j < |Legs| && Legs[i].id == Legs[j].id
    ensures i == j
  {
    LegIds();
  }

  /** Each leg starts where the previous one ended. */
  lemma LegsFormChain()
    ensures forall i :: 0 <= i < |Legs| - 1 ==> Legs[i].toBodyId == Legs[i + 1].fromBodyId
  {
  }

  /** Every body a leg names is in the body table, filed under its own id. */
  lemma BodiesResolve()
    ensures forall i :: 0 <= i < |Legs| ==> Legs[i].fromBodyId in Bodies && Legs[i].toBodyId in Bodies
    ensures forall k :: k in Bodies ==> Bodies[k].id == k
  {
  }

  /** Every focus list has at least three tables, all in 1..12. */
  predicate FocusValid(body: CelestialBody) {
    |body.focusTables| >= 3 && forall t :: t in body.focusTables ==> 1 <= t <= 12
  }

  lemma FocusTablesValid()
    ensures forall k :: k in Bodies ==> FocusValid(Bodies[k])
  {
    var all := [EarthBody, MoonBody, MarsBody, CeresBody, JupiterBody, EuropaBody, SaturnBody, TitanBody,
                UranusBody, NeptuneBody, PlutoBody, HaumeaBody, MakemakeBody, ErisBody, ArrokothBody];
    assert forall i :: 0 <= i < |all| ==> FocusValid(all[i]);
    forall k | k in Bodies ensures FocusValid(Bodies[k]) {
      assert Bodies[k] in all;
    }
  }

  /** Every body has a fact, and every fact belongs to a body. */
  lemma FactsMatchBodies()
    ensures BodyFacts.Keys == Bodies.Keys
  {
  }

  lemma EveryLegHasFiveWaypoints()
    ensures forall i :: 0 <= i < |Legs| ==> Legs[i].waypointsRequired == WaypointsPerLeg
  {
  }
}
