/** The weak-areas dialog: the list of missed pairs by miss count, the
    "Practice Now" round built from the numbers in those pairs, and the
    difficulty label and colour for a count. The map's entries are given in
    the order `Object.entries` enumerates them. */
module WeakAreasDialog {
  import opened Results
  import opened GameTypes
  import opened Decimal
  import opened Sorting
  import opened GameLogic

  type Entry = (string, int)

  /** The entries list exactly the map's key/value pairs, each once. */
  predicate Enumerates(entries: seq<Entry>, weakAreas: map<string, int>) {
    Distinct(entries) &&
    (forall e :: e in entries ==> e.0 in weakAreas && weakAreas[e.0] == e.1) &&
    (forall k :: k in weakAreas ==> (k, weakAreas[k]) in entries)
  }

  function NegCount(e: Entry): int {
    -e.1
  }

  /** The dialog's list: every entry once, most-missed first; entries with
      the same count keep their `Object.entries` order. */
  function WeakAreasList(entries: seq<Entry>): (r: seq<Entry>)
    ensures multiset(r) == multiset(entries)
    ensures forall i, j :: 0 <= i < j < |r| ==> r[i].1 >= r[j].1
    ensures forall c :: WithKey(r, NegCount, c) == WithKey(entries, NegCount, c)
  {
    SortByStableAll(entries, NegCount);
    var r := SortBy(entries, NegCount);
    assert forall i, j :: 0 <= i < j < |r| ==> NegCount(r[i]) <= NegCount(r[j]);
    r
  }

  /** Sorting the list neither loses nor duplicates a weak area. */
  lemma WeakAreasListEnumerates(entries: seq<Entry>, weakAreas: map<string, int>)
    requires Enumerates(entries, weakAreas)
    ensures Enumerates(WeakAreasList(entries), weakAreas)
  {
    var r := WeakAreasList(entries);
    DistinctPermutation(r, entries);
    forall e ensures e in r <==> e in entries {
      assert e in r <==> e in multiset(entries);
    }
  }

  /** Index of the first `c` in `s`, or -1. */
  function IndexOf(s: string, c: char): (r: int)
    ensures -1 <= r < |s|
    ensures r >= 0 ==> s[r] == c && c !in s[..r]
    ensures r < 0 <==> c !in s
  {
    if s == [] then -1
    else if s[0] == c then 0
    else
      var k := IndexOf(s[1..], c);
      assert s[1..][..k + 1] == s[1..k + 2] by {
        if k >= 0 {
          assert s[1..][..k] == s[1..k + 1];
        }
      }
      if k < 0 then -1 else k + 1
  }

  /** `a` and `b` are the first two pieces of `key.split('x')`: `a` is the
      text before the first 'x', and `b` runs from there to the next 'x' or to
      the end of the key. */
  predicate FirstTwoPieces(key: string, a: string, b: string) {
    && |a| + 1 + |b| <= |key|
    && key[..|a|] == a && key[|a|] == 'x' && key[|a| + 1..|a| + 1 + |b|] == b
    && 'x' !in a && 'x' !in b
    && (|a| + 1 + |b| == |key| || key[|a| + 1 + |b|] == 'x')
  }

  /** A key has at most one pair of first two pieces. */
  lemma PiecesUnique(key: string, a: string, b: string, a2: string, b2: string)
    requires FirstTwoPieces(key, a, b) && FirstTwoPieces(key, a2, b2)
    ensures a == a2 && b == b2
  {
    assert forall k :: 0 <= k < |a| ==> key[k] == a[k];
    assert forall k :: 0 <= k < |a2| ==> key[k] == a2[k];
    assert |a| == |a2|;
    var n := |a| + 1;
    assert forall k :: 0 <= k < |b| ==> key[n + k] == b[k];
    assert forall k :: 0 <= k < |b2| ==> key[n + k] == b2[k];
    assert |b| == |b2|;
  }

  lemma PiecesDetermined(key: string)
    ensures forall a, b, a2, b2 :: FirstTwoPieces(key, a, b) && FirstTwoPieces(key, a2, b2) ==>
              a == a2 && b == b2
  {
    forall a, b, a2, b2 | FirstTwoPieces(key, a, b) && FirstTwoPieces(key, a2, b2)
      ensures a == a2 && b == b2
    {
      PiecesUnique(key, a, b, a2, b2);
    }
  }

  /** The first two pieces of `key.split('x')`; None when there is no 'x',
      since the second piece is then missing. */
  function SplitPair(key: string): (r: Option<(string, string)>)
    ensures r.None? <==> 'x' !in key
    ensures r.Some? ==> FirstTwoPieces(key, r.value.0, r.value.1)
  {
    var i := IndexOf(key, 'x');
    if i < 0 then None
    else
      var rest := key[i + 1..];
      var j := IndexOf(rest, 'x');
      if j < 0 then
        PiecesToEnd(key, i);
        Some((key[..i], rest))
      else
        PiecesToNextX(key, i, j);
        Some((key[..i], rest[..j]))
  }

  lemma PiecesToEnd(key: string, i: int)
    requires 0 <= i < |key| && key[i] == 'x' && 'x' !in key[..i] && 'x' !in key[i + 1..]
    ensures FirstTwoPieces(key, key[..i], key[i + 1..])
  {
    assert key[i + 1..i + 1 + |key[i + 1..]|] == key[i + 1..];
  }

  lemma PiecesToNextX(key: string, i: int, j: int)
    requires 0 <= i < |key| && key[i] == 'x' && 'x' !in key[..i]
    requires 0 <= j < |key[i + 1..]| && key[i + 1..][j] == 'x' && 'x' !in key[i + 1..][..j]
    ensures FirstTwoPieces(key, key[..i], key[i + 1..][..j])
  {
    assert key[i + 1..i + 1 + j] == key[i + 1..][..j];
    assert key[i + 1 + j] == key[i + 1..][j];
  }

  /** `pair.split('x').map(Number)` read as `[num1, num2]`: the two numbers
      written in the first two pieces, and None where either would be NaN. */
  function ParseKey(key: string): (r: Option<Pair>)
    ensures r.Some? <==> exists a, b :: FirstTwoPieces(key, a, b) && ParseNumber(a).Some? && ParseNumber(b).Some?
    ensures r.Some? ==> exists a, b :: FirstTwoPieces(key, a, b) &&
                          ParseNumber(a) == Some(r.value.0) && ParseNumber(b) == Some(r.value.1)
  {
    PiecesDetermined(key);
    match SplitPair(key)
    case None => None
    case Some(pieces) =>
      match (ParseNumber(pieces.0), ParseNumber(pieces.1))
      case (Some(a), Some(b)) => Some((a, b))
      case _ => None
  }

  /** The dialog reads back exactly the pair that the game's key for a × b
      encodes. */
  lemma ParsePairKey(a: int, b: int)
    ensures ParseKey(PairKey(a, b)) == Some((a, b))
  {
    var sa, sb := IntToString(a), IntToString(b);
    var key := PairKey(a, b);
    NoXInNumber(a);
    NoXInNumber(b);
    SplitWhole(key, sa, sb);
    ParseIntToString(a);
    ParseIntToString(b);
  }

  /** A key made of two 'x'-free pieces joined by one 'x' splits into them. */
  lemma SplitWhole(key: string, a: string, b: string)
    requires |a| + 1 + |b| == |key|
    requires key[..|a|] == a && key[|a|] == 'x' && key[|a| + 1..] == b
    requires 'x' !in a && 'x' !in b
    ensures SplitPair(key) == Some((a, b))
  {
    assert key[|a| + 1..|a| + 1 + |b|] == b;
    assert FirstTwoPieces(key, a, b);
    var r := SplitPair(key);
    assert r.Some?;
    PiecesUnique(key, a, b, r.value.0, r.value.1);
  }

  /** The game's keys for two facts are equal exactly when the facts are. */
  lemma PairKeyInjective(a: int, b: int, c: int, d: int)
    ensures PairKey(a, b) == PairKey(c, d) <==> a == c && b == d
  {
    ParsePairKey(a, b);
    ParsePairKey(c, d);
  }

  predicate AllKeysParse(entries: seq<Entry>) {
    forall e :: e in entries ==> ParseKey(e.0).Some?
  }

  /** Whether `x` is one of the two numbers that `key` parses to. */
  predicate KeyHas(key: string, x: int) {
    ParseKey(key).Some? && (ParseKey(key).value.0 == x || ParseKey(key).value.1 == x)
  }

  /** Whether `x` is one of the two numbers of some entry's key. */
  predicate InSomeKey(entries: seq<Entry>, x: int) {
    exists e :: e in entries && KeyHas(e.0, x)
  }

  /** `Set.add`: appends `x` unless already present, keeping insertion order. */
  function AddUnique(acc: seq<int>, x: int): (r: seq<int>)
    ensures forall y :: y in r <==> y in acc || y == x
    ensures Distinct(acc) ==> Distinct(r)
  {
    if x in acc then acc
    else
      var r := acc + [x];
      assert Distinct(acc) ==> Distinct(r) by {
        if Distinct(acc) {
          forall i, j | 0 <= i < j < |r| ensures r[i] != r[j] {
            if j == |acc| {
              assert r[i] in acc;
            }
          }
        }
      }
      r
  }

  /** The numbers of every key, added first then second, entry by entry. */
  function CollectNumbers(entries: seq<Entry>, acc: seq<int>): (r: seq<int>)
    requires AllKeysParse(entries)
    ensures forall x :: x in r <==> x in acc || InSomeKey(entries, x)
    ensures Distinct(acc) ==> Distinct(r)
    decreases |entries|
  {
    if entries == [] then acc
    else
      var p := ParseKey(entries[0].0).value;
      var next := AddUnique(AddUnique(acc, p.0), p.1);
      var r := CollectNumbers(entries[1..], next);
      CollectStep(entries, acc, r);
      r
  }

  lemma CollectStep(entries: seq<Entry>, acc: seq<int>, r: seq<int>)
    requires entries != [] && ParseKey(entries[0].0).Some?
    requires forall x :: x in r <==> (x in acc || KeyHas(entries[0].0, x) || InSomeKey(entries[1..], x))
    ensures forall x :: x in r <==> (x in acc || InSomeKey(entries, x))
  {
    forall x ensures InSomeKey(entries, x) <==> (KeyHas(entries[0].0, x) || InSomeKey(entries[1..], x)) {
      if InSomeKey(entries, x) {
        var e :| e in entries && KeyHas(e.0, x);
        if e != entries[0] {
          assert e in entries[1..];
        }
      }
      if InSomeKey(entries[1..], x) {
        var e :| e in entries[1..] && KeyHas(e.0, x);
        assert e in entries;
      }
      if KeyHas(entries[0].0, x) {
        assert entries[0] in entries;
      }
    }
  }

  /** The tables of a "Practice Now" round: each number that occurs in some
      weak pair, once, in ascending order. */
  function PracticeTables(entries: seq<Entry>): (r: seq<int>)
    requires AllKeysParse(entries)
    ensures StrictlyAscending(r)
    ensures forall x :: x in r <==> InSomeKey(entries, x)
  {
    var unique := CollectNumbers(entries, []);
    SortDistinctStrict(unique);
    var r := SortBy(unique, Id);
    assert forall x :: x in r <==> x in multiset(unique);
    r
  }

  function PracticeSettings(entries: seq<Entry>): (r: GameSettings)
    requires AllKeysParse(entries)
    ensures r.maxMultiplier == 12 && r.questionsPerRound == 10
    ensures forall x :: x in r.selectedTables <==> InSomeKey(entries, x)
    ensures StrictlyAscending(r.selectedTables)
  {
    GameSettings(PracticeTables(entries), 12, 10)
  }

  /** Keys written by the game always parse, and any weak area puts at least
      one table into the practice round. */
  lemma GameKeysParse(entries: seq<Entry>)
    requires forall e :: e in entries ==> exists a, b :: e.0 == PairKey(a, b)
    ensures AllKeysParse(entries)
    ensures entries != [] ==> PracticeTables(entries) != []
  {
    forall e | e in entries ensures ParseKey(e.0).Some? {
      var a, b :| e.0 == PairKey(a, b);
      ParsePairKey(a, b);
    }
    if entries != [] {
      var p := ParseKey(entries[0].0).value;
      assert KeyHas(entries[0].0, p.0);
    }
  }

  /** "Practice Now" with at least one weak area always yields a full round of
      ten questions. */
  lemma PracticeNowNeverFails(entries: seq<Entry>, stats: Option<PlayerStats>,
                              draws: seq<nat>, choices: seq<nat>)
    requires AllKeysParse(entries) && entries != [] && |draws| == 4
    ensures RandomCount(10) == 4
    ensures var r := GenerateQuestions(PracticeSettings(entries), stats, draws, choices);
            r.Ok? && |r.value| == 10
  {
    var p := ParseKey(entries[0].0).value;
    assert KeyHas(entries[0].0, p.0);
    assert p.0 in PracticeTables(entries);
  }

  /** The colour of a weak area's miss count: red from 5, amber from 3. */
  function DifficultyColor(count: int): (c: string)
    ensures c == "text-destructive" <==> count >= 5
    ensures c == "text-warning" <==> 3 <= count < 5
    ensures c == "text-success" <==> count < 3
  {
    if count >= 5 then "text-destructive"
    else if count >= 3 then "text-warning"
    else "text-success"
  }

  /** The words shown next to a weak area's miss count. */
  function DifficultyLabel(count: int): (l: string)
    ensures l == "Needs lots of practice" <==> count >= 5
    ensures l == "Getting better" <==> 3 <= count < 5
    ensures l == "Almost there" <==> count < 3
    ensures l == "Needs lots of practice" <==> DifficultyColor(count) == "text-destructive"
    ensures l == "Almost there" <==> DifficultyColor(count) == "text-success"
  {
    if count >= 5 then "Needs lots of practice"
    else if count >= 3 then "Getting better"
    else "Almost there"
  }

  /** Label and colour split counts at the same thresholds, 5 and 3. */
  lemma DifficultyBandsAgree(count: int)
    ensures DifficultyLabel(count) == "Needs lots of practice" <==> DifficultyColor(count) == "text-destructive"
    ensures DifficultyLabel(count) == "Getting better" <==> DifficultyColor(count) == "text-warning"
    ensures DifficultyLabel(count) == "Almost there" <==> DifficultyColor(count) == "text-success"
  {
  }
}
