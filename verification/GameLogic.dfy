/** Round generation and practice scoring: the table×multiplier pool, the
    weakness-first ordering, the 60/40 weak/random split, the shuffle, the
    practice XP formula and the miss-count update. Randomness is an input:
    `draws` choose the random picks, `choices` choose the shuffle. */
module GameLogic {
  import opened Results
  import opened GameTypes
  import opened Decimal
  import opened Sorting
  import opened Accuracy

  /** The key "7x8" under which misses of the fact 7 × 8 are counted. Its
      only 'x' sits right after the first number. */
  function PairKey(a: int, b: int): (key: string)
    ensures var n := |IntToString(a)|;
            n < |key| && key[n] == 'x' && key[..n] == IntToString(a) && key[n + 1..] == IntToString(b)
    ensures var n := |IntToString(a)|;
            'x' !in key[..n] && 'x' !in key[n + 1..]
  {
    NoXInNumber(a);
    NoXInNumber(b);
    var sa, sb := IntToString(a), IntToString(b);
    var key := sa + "x" + sb;
    assert key[..|sa|] == sa && key[|sa| + 1..] == sb;
    key
  }

  /** `weakAreas[key] || 0`: an absent key counts as no misses. */
  function Lookup(weakAreas: map<string, int>, key: string): int {
    if key in weakAreas then weakAreas[key] else 0
  }

  function MissCount(weakAreas: map<string, int>, p: Pair): int {
    Lookup(weakAreas, PairKey(p.0, p.1))
  }

  function Max0(n: int): nat {
    if n > 0 then n else 0
  }

  function Row(table: int, maxMultiplier: int): seq<Pair> {
    seq(Max0(maxMultiplier), i => (table, i + 1))
  }

  /** Every selected table (in order) paired with 1..maxMultiplier. */
  function BuildPool(tables: seq<int>, maxMultiplier: int): (pool: seq<Pair>)
    ensures |pool| == |tables| * Max0(maxMultiplier)
    ensures forall p :: p in pool <==> p.0 in tables && 1 <= p.1 <= maxMultiplier
  {
    if tables == [] then []
    else
      var rest := BuildPool(tables[1..], maxMultiplier);
      assert forall t :: t in tables <==> t == tables[0] || t in tables[1..] by {
        assert tables == [tables[0]] + tables[1..];
      }
      assert forall p: Pair :: p in Row(tables[0], maxMultiplier) <==> p.0 == tables[0] && 1 <= p.1 <= maxMultiplier by {
        forall p: Pair | p.0 == tables[0] && 1 <= p.1 <= maxMultiplier
          ensures p in Row(tables[0], maxMultiplier)
        {
          assert Row(tables[0], maxMultiplier)[p.1 - 1] == p;
        }
      }
      Row(tables[0], maxMultiplier) + rest
  }

  lemma DivModUnique(a: int, m: int, q: int, r: int)
    requires m > 0 && 0 <= r < m && a == q * m + r
    ensures a / m == q && a % m == r
  {
    var d := q - a / m;
    assert d * m == a % m - r by {
      assert a == (a / m) * m + a % m;
      assert d * m == q * m - (a / m) * m;
    }
    MulCancel(d, 1, m);
    MulCancel(-1, d, m);
  }

  lemma DivModStep(i: int, m: int)
    requires m > 0 && i >= m
    ensures (i - m) / m == i / m - 1 && (i - m) % m == i % m && i / m >= 1
  {
    DivModUnique(i, m, i / m, i % m);
    DivModUnique(i - m, m, i / m - 1, i % m);
  }

  lemma PoolStep(tables: seq<int>, m: int, i: int)
    requires m > 0 && |tables| > 0 && 0 <= i < |tables| * m
    ensures i < m ==> BuildPool(tables, m)[i] == (tables[0], i + 1)
    ensures i >= m ==> i - m < |tables[1..]| * m && BuildPool(tables, m)[i] == BuildPool(tables[1..], m)[i - m]
  {
    var n := |tables|;
    MulPred(n, m);
    var row := Row(tables[0], m);
    var rest := BuildPool(tables[1..], m);
    assert |row| == m;
    assert BuildPool(tables, m) == row + rest;
    if i < m {
      assert (row + rest)[i] == row[i];
    } else {
      assert (row + rest)[i] == rest[i - m];
    }
  }

  lemma MulPred(n: int, m: int)
    ensures (n - 1) * m == n * m - m
  {
  }

  /** The pool is table-major: entry i is (tables[i / m], i % m + 1). */
  lemma {:induction false} PoolLayout(tables: seq<int>, m: int, i: int)
    requires m > 0 && 0 <= i < |tables| * m
    ensures 0 <= i / m < |tables|
    ensures BuildPool(tables, m)[i] == (tables[i / m], i % m + 1)
    decreases |tables|
  {
    PoolStep(tables, m, i);
    if i < m {
      DivModUnique(i, m, 0, i);
    } else {
      DivModStep(i, m);
      PoolLayout(tables[1..], m, i - m);
      assert tables[1..][(i - m) / m] == tables[i / m];
    }
  }

  /** The sort key of `OrderByWeakness`: more misses sort earlier. */
  function Weakness(weakAreas: map<string, int>): Pair -> int {
    (p: Pair) => -MissCount(weakAreas, p)
  }

  /** Stable sort by descending miss count, done only when there is a
      non-empty weak-area map. Pairs with the same miss count keep their pool
      order, which decides which of them fall in the weak prefix. */
  function OrderByWeakness(pool: seq<Pair>, stats: Option<PlayerStats>): (r: seq<Pair>)
    ensures multiset(r) == multiset(pool) && |r| == |pool|
    ensures stats.None? || |stats.value.weakAreas| == 0 ==> r == pool
    ensures stats.Some? ==> forall i, j :: 0 <= i < j < |r| ==>
              MissCount(stats.value.weakAreas, r[i]) >= MissCount(stats.value.weakAreas, r[j])
    ensures stats.Some? ==> forall c :: WithKey(r, Weakness(stats.value.weakAreas), c) ==
                                        WithKey(pool, Weakness(stats.value.weakAreas), c)
  {
    if stats.Some? && |stats.value.weakAreas| > 0 then
      var w := stats.value.weakAreas;
      SortByStableAll(pool, Weakness(w));
      SortBy(pool, Weakness(w))
    else
      assert stats.Some? ==> stats.value.weakAreas == map[];
      pool
  }

  /** `Math.floor(questionsPerRound * 0.6)`, computed exactly. */
  function WeakCount(questionsPerRound: int): (n: int)
    ensures 5 * n <= 3 * questionsPerRound < 5 * n + 5
  {
    (3 * questionsPerRound) / 5
  }

  function RandomCount(questionsPerRound: int): int {
    questionsPerRound - WeakCount(questionsPerRound)
  }

  /** `s.slice(start)` for an integer `start`. */
  function SliceFrom<T>(s: seq<T>, start: int): (r: seq<T>)
    ensures 0 <= start <= |s| ==> r == s[start..]
    ensures start >= |s| ==> r == []
  {
    if start < 0 then (if |s| + start > 0 then s[|s| + start..] else s)
    else if start >= |s| then []
    else s[start..]
  }

  /** How many weak picks the first loop takes. */
  function WeakTaken(poolSize: int, questionsPerRound: int): nat {
    var w := Max0(WeakCount(questionsPerRound));
    if w <= poolSize then w else Max0(poolSize)
  }

  /** `remaining[Math.floor(Math.random() * remaining.length)]` per draw. */
  function Draw(remaining: seq<Pair>, draws: seq<nat>): (r: seq<Pair>)
    requires remaining != [] || draws == []
    ensures |r| == |draws|
    ensures forall p :: p in r ==> p in remaining
  {
    seq(|draws|, i requires 0 <= i < |draws| => remaining[draws[i] % |remaining|])
  }

  /** Every pair of the remaining pool is a possible pick. */
  lemma DrawReachesEveryPair(remaining: seq<Pair>, i: nat)
    requires i < |remaining|
    ensures Draw(remaining, [i]) == [remaining[i]]
  {
    ModSmall(i, |remaining|);
  }

  /** The weak prefix followed by the random picks, before shuffling. A random
      pick from an empty tail is `undefined` in the source, and destructuring
      it throws; that is the `Err` case. */
  function SelectPairs(pool: seq<Pair>, questionsPerRound: int, draws: seq<nat>): (r: Result<seq<Pair>>)
    requires |draws| == Max0(RandomCount(questionsPerRound))
    ensures r.Err? <==> RandomCount(questionsPerRound) > 0 && |pool| <= WeakCount(questionsPerRound)
    ensures r.Ok? ==> |r.value| == Max0(questionsPerRound)
    ensures r.Ok? ==> var n := WeakTaken(|pool|, questionsPerRound);
              n <= |r.value| && n <= |pool| && r.value[..n] == pool[..n]
    ensures r.Ok? ==> forall i :: WeakTaken(|pool|, questionsPerRound) <= i < |r.value| ==>
              r.value[i] in SliceFrom(pool, WeakCount(questionsPerRound))
    ensures r.Ok? ==> forall p :: p in r.value ==> p in pool
  {
    var wc := WeakCount(questionsPerRound);
    var weak := pool[..WeakTaken(|pool|, questionsPerRound)];
    var remaining := SliceFrom(pool, wc);
    if RandomCount(questionsPerRound) > 0 && remaining == [] then
      Err("Cannot destructure an undefined pair")
    else
      var picks := Draw(remaining, draws);
      var r := weak + picks;
      assert forall i :: |weak| <= i < |r| ==> r[i] == picks[i - |weak|];
      assert r[..|weak|] == weak;
      assert forall p :: p in remaining ==> p in pool by {
        if wc < 0 && |pool| + wc > 0 {
          assert forall p :: p in pool[|pool| + wc..] ==> p in pool;
        }
      }
      Ok(r)
  }

  function ToQuestion(p: Pair): Question {
    Question(p.0, p.1, p.0 * p.1, None, None)
  }

  function PairsOf(questions: seq<Question>): seq<Pair> {
    seq(|questions|, i requires 0 <= i < |questions| => (questions[i].num1, questions[i].num2))
  }

  /** Materialises each pair as an unanswered question. */
  function ToQuestions(pairs: seq<Pair>): (qs: seq<Question>)
    ensures PairsOf(qs) == pairs
    ensures forall q :: q in qs ==>
              (q.num1, q.num2) in pairs && q.answer == q.num1 * q.num2 &&
              q.userAnswer.None? && q.correct.None?
  {
    var qs := seq(|pairs|, i requires 0 <= i < |pairs| => ToQuestion(pairs[i]));
    assert forall q :: q in qs ==> exists i :: 0 <= i < |pairs| && q == ToQuestion(pairs[i]);
    qs
  }

  /** One round of questions. The caller's random source supplies one draw per
      random pick and a shuffle. */
  function GenerateQuestions(settings: GameSettings, stats: Option<PlayerStats>,
                             draws: seq<nat>, choices: seq<nat>): (r: Result<seq<Question>>)
    requires |draws| == Max0(RandomCount(settings.questionsPerRound))
    ensures r.Err? <==>
              (RandomCount(settings.questionsPerRound) > 0 &&
               |settings.selectedTables| * Max0(settings.maxMultiplier) <= WeakCount(settings.questionsPerRound))
    ensures r.Ok? ==> |r.value| == Max0(settings.questionsPerRound)
    ensures r.Ok? ==> forall q :: q in r.value ==>
              && q.num1 in settings.selectedTables
              && 1 <= q.num2 <= settings.maxMultiplier
              && q.answer == q.num1 * q.num2
              && q.userAnswer.None? && q.correct.None?
    ensures r.Ok? ==>
              var pool := OrderByWeakness(BuildPool(settings.selectedTables, settings.maxMultiplier), stats);
              multiset(PairsOf(r.value)) == multiset(SelectPairs(pool, settings.questionsPerRound, draws).value)
  {
    var pool := OrderByWeakness(BuildPool(settings.selectedTables, settings.maxMultiplier), stats);
    match SelectPairs(pool, settings.questionsPerRound, draws)
    case Err(e) => Err(e)
    case Ok(selected) =>
      var shuffled := Shuffle(selected, choices);
      var qs := ToQuestions(shuffled);
      assert forall q :: q in qs ==>
               q.num1 in settings.selectedTables && 1 <= q.num2 <= settings.maxMultiplier by {
        forall q | q in qs
          ensures q.num1 in settings.selectedTables && 1 <= q.num2 <= settings.maxMultiplier
        {
          var p := (q.num1, q.num2);
          assert p in multiset(shuffled);
          assert p in selected;
          assert p in multiset(pool);
          assert p in BuildPool(settings.selectedTables, settings.maxMultiplier);
        }
      }
      Ok(qs)
  }

  /** A round whose pool is larger than its weak share never fails and has
      exactly `questionsPerRound` questions. */
  lemma FullRound(settings: GameSettings, stats: Option<PlayerStats>, draws: seq<nat>, choices: seq<nat>)
    requires |draws| == Max0(RandomCount(settings.questionsPerRound))
    requires settings.questionsPerRound >= 0
    requires |settings.selectedTables| * Max0(settings.maxMultiplier) > WeakCount(settings.questionsPerRound)
    ensures var r := GenerateQuestions(settings, stats, draws, choices);
            r.Ok? && |r.value| == settings.questionsPerRound
  {
  }

  /** Practice XP: 50 plus the floored percentage of correct answers. A zero
      total gives NaN or Infinity in the source and is excluded. */
  function CalculateXP(score: int, totalQuestions: int): (xp: int)
    requires totalQuestions != 0
    ensures totalQuestions > 0 ==>
              (xp - 50) * totalQuestions <= 100 * score < (xp - 49) * totalQuestions
    ensures totalQuestions > 0 && 0 <= score <= totalQuestions ==> 50 <= xp <= 150
  {
    FloorPercentRange(score, totalQuestions);
    50 + FloorPercent(score, totalQuestions)
  }

  lemma CalculateXPMonotone(s1: int, s2: int, total: int)
    requires total > 0 && s1 <= s2
    ensures CalculateXP(s1, total) <= CalculateXP(s2, total)
  {
    FloorPercentMonotone(s1, s2, total);
  }

  /** Questions answered wrongly (`correct === false`) whose key is `key`. */
  function MissesFor(questions: seq<Question>, key: string): nat {
    if questions == [] then 0
    else
      (if questions[0].correct == Some(false) && PairKey(questions[0].num1, questions[0].num2) == key
       then 1 else 0) + MissesFor(questions[1..], key)
  }

  function RecordMiss(weakAreas: map<string, int>, q: Question): map<string, int> {
    if q.correct == Some(false) then
      var key := PairKey(q.num1, q.num2);
      weakAreas[key := Lookup(weakAreas, key) + 1]
    else weakAreas
  }

  /** Adds one miss to key "axb" per wrongly answered question a × b, on a
      copy of the map. */
  function UpdateWeakAreas(questions: seq<Question>, weakAreas: map<string, int>): (r: map<string, int>)
    ensures forall k :: Lookup(r, k) == Lookup(weakAreas, k) + MissesFor(questions, k)
    ensures forall k :: k in r <==> k in weakAreas || MissesFor(questions, k) > 0
    decreases |questions|
  {
    if questions == [] then weakAreas
    else UpdateWeakAreas(questions[1..], RecordMiss(weakAreas, questions[0]))
  }

  /** Keys no wrong answer mentions keep their entry; no count decreases. */
  lemma UpdateWeakAreasFrame(questions: seq<Question>, weakAreas: map<string, int>)
    ensures var r := UpdateWeakAreas(questions, weakAreas);
            forall k :: MissesFor(questions, k) == 0 ==>
              (k in r <==> k in weakAreas) && (k in weakAreas ==> r[k] == weakAreas[k])
    ensures var r := UpdateWeakAreas(questions, weakAreas);
            forall k :: k in weakAreas ==> k in r && r[k] >= weakAreas[k]
  {
    var r := UpdateWeakAreas(questions, weakAreas);
    forall k | k in weakAreas ensures k in r && r[k] >= weakAreas[k] {
      assert Lookup(r, k) == Lookup(weakAreas, k) + MissesFor(questions, k);
    }
    forall k | MissesFor(questions, k) == 0 && k in weakAreas ensures r[k] == weakAreas[k] {
      assert Lookup(r, k) == Lookup(weakAreas, k) + MissesFor(questions, k);
    }
  }
}
