/** The three player ranks, their configuration table, and the XP thresholds
    that pick a rank. */
module Ranks {
  import opened Results

  datatype Rank = Cadet | Captain | Commander

  datatype RankInfo = RankInfo(
    name: string,
    image: string,
    color: string,
    xpRequired: int,
    nextRank: Option<int>)

  /** `RANK_CONFIG`: each rank's requirement is reached before its next
      threshold, and only the top rank has no next threshold. */
  function RankConfig(rank: Rank): (info: RankInfo)
    ensures info.xpRequired >= 0
    ensures info.nextRank.Some? ==> info.xpRequired < info.nextRank.value
    ensures info.nextRank.None? <==> rank == Commander
  {
    match rank
    case Cadet => RankInfo("Space Cadet", "/rank-cadet.png", "text-muted-foreground", 0, Some(500))
    case Captain => RankInfo("Space Captain", "/rank-captain.png", "text-primary", 500, Some(2000))
    case Commander => RankInfo("Space Commander", "/rank-commander.png", "text-secondary", 2000, None)
  }

  /** Position in the order cadet < captain < commander. */
  function Order(rank: Rank): nat {
    match rank
    case Cadet => 0
    case Captain => 1
    case Commander => 2
  }

  function Promotion(rank: Rank): Option<Rank> {
    match rank
    case Cadet => Some(Captain)
    case Captain => Some(Commander)
    case Commander => None
  }

  /** The rank for an XP total: the highest rank whose threshold in the
      configuration table the total reaches, and below the next threshold. */
  function GetRankFromXP(xp: int): (r: Rank)
    ensures xp >= 0 ==> RankConfig(r).xpRequired <= xp
    ensures RankConfig(r).nextRank.Some? ==> xp < RankConfig(r).nextRank.value
    ensures forall other :: RankConfig(other).xpRequired <= xp ==> Order(other) <= Order(r)
  {
    if xp >= 2000 then Commander
    else if xp >= 500 then Captain
    else Cadet
  }

  /** Each rank's `nextRank` is the threshold of the rank above it, and only
      the top rank has none; thresholds rise with the rank. */
  lemma RankConfigChain(rank: Rank)
    ensures Promotion(rank).Some? <==> RankConfig(rank).nextRank.Some?
    ensures Promotion(rank).Some? ==>
              RankConfig(rank).nextRank.value == RankConfig(Promotion(rank).value).xpRequired &&
              Order(Promotion(rank).value) == Order(rank) + 1 &&
              RankConfig(rank).xpRequired < RankConfig(Promotion(rank).value).xpRequired
  {
  }

  lemma RankThresholds(xp: int)
    ensures GetRankFromXP(xp) == Commander <==> xp >= 2000
    ensures GetRankFromXP(xp) == Captain <==> 500 <= xp < 2000
    ensures GetRankFromXP(xp) == Cadet <==> xp < 500
  {
  }

  /** More XP never means a lower rank. */
  lemma GetRankFromXPMonotone(xp1: int, xp2: int)
    requires xp1 <= xp2
    ensures Order(GetRankFromXP(xp1)) <= Order(GetRankFromXP(xp2))
  {
  }
}
