/** The table-selection screen's state logic: toggling a table, "All",
    "Random", "Clear", and the settings handed to a practice round. The random
    count and order are inputs. */
module SelectTables {
  import opened Results
  import opened GameTypes
  import opened Sorting
  import opened GameLogic

  /** The selectable tables 1..12. */
  const Tables: seq<int> := seq(12, i => i + 1)

  lemma TablesAreOneToTwelve()
    ensures |Tables| == 12 && StrictlyAscending(Tables)
    ensures forall x :: x in Tables <==> 1 <= x <= 12
  {
    forall x | 1 <= x <= 12 ensures x in Tables {
      assert Tables[x - 1] == x;
    }
  }

  /** A reachable selection: ascending, no repeats, tables 1..12 only. */
  predicate ValidSelection(selected: seq<int>) {
    StrictlyAscending(selected) && forall x :: x in selected ==> 1 <= x <= 12
  }

  /** Removes `num` if selected, otherwise adds it and re-sorts. */
  function ToggleTable(selected: seq<int>, num: int): (r: seq<int>)
    ensures num in r <==> num !in selected
    ensures forall x :: x != num ==> (x in r <==> x in selected)
    ensures StrictlyAscending(selected) ==> StrictlyAscending(r)
  {
    if num in selected then RemoveAll(selected, num)
    else
      AddTable(selected, num);
      SortBy(selected + [num], Id)
  }

  lemma AddTable(selected: seq<int>, num: int)
    requires num !in selected
    ensures var r := SortBy(selected + [num], Id);
            (forall x :: x in r <==> x == num || x in selected) &&
            (StrictlyAscending(selected) ==> StrictlyAscending(r))
  {
    var added := selected + [num];
    var r := SortBy(added, Id);
    forall x ensures x in r <==> x == num || x in selected {
      assert x in r <==> x in multiset(added);
    }
    if StrictlyAscending(selected) {
      forall i, j | 0 <= i < j < |added| ensures added[i] != added[j] {
        if j == |selected| {
          assert added[i] in selected;
        }
      }
      SortDistinctStrict(added);
    }
  }

  /** Toggling the same table twice gives back the selection. */
  lemma ToggleTwiceRestores(selected: seq<int>, num: int)
    requires StrictlyAscending(selected)
    ensures ToggleTable(ToggleTable(selected, num), num) == selected
  {
    var once := ToggleTable(selected, num);
    var twice := ToggleTable(once, num);
    forall x ensures x in twice <==> x in selected {
      if x == num {
      }
    }
    StrictlyAscendingUnique(twice, selected);
  }

  /** "All": every table except 1. */
  function SelectAll(): (r: seq<int>)
    ensures |r| == 11 && StrictlyAscending(r)
    ensures forall i :: 0 <= i < |r| ==> r[i] == i + 2
    ensures forall x :: x in r <==> 2 <= x <= 12
  {
    var r := RemoveAll(Tables, 1);
    TablesAreOneToTwelve();
    var expected := seq(11, i => i + 2);
    forall x | 2 <= x <= 12 ensures x in expected {
      assert expected[x - 2] == x;
    }
    StrictlyAscendingUnique(r, expected);
    assert |expected| == 11;
    r
  }

  /** "Random": `countDraw % 3 + 5` tables (five to seven) of 2..12, taken from
      the front of a shuffle and sorted. */
  function SelectRandom(countDraw: nat, choices: seq<nat>): (r: seq<int>)
    ensures |r| == countDraw % 3 + 5
    ensures 5 <= |r| <= 7
    ensures StrictlyAscending(r)
    ensures forall x :: x in r ==> 2 <= x <= 12
  {
    var available := SelectAll();
    var count := countDraw % 3 + 5;
    RandomPick(available, choices, count);
    SortBy(Shuffle(available, choices)[..count], Id)
  }

  /** Sorting the first `count` entries of a shuffle of distinct tables gives
      `count` of those tables in strictly ascending order. */
  lemma RandomPick(available: seq<int>, choices: seq<nat>, count: nat)
    requires StrictlyAscending(available) && count <= |available|
    ensures |Shuffle(available, choices)| == |available|
    ensures var r := SortBy(Shuffle(available, choices)[..count], Id);
            |r| == count && StrictlyAscending(r) && forall x :: x in r ==> x in available
  {
    var shuffled := Shuffle(available, choices);
    assert Distinct(available);
    DistinctPermutation(shuffled, available);
    var picked := shuffled[..count];
    DistinctPrefix(shuffled, count);
    SortDistinctStrict(picked);
    var r := SortBy(picked, Id);
    forall x | x in r ensures x in available {
      assert x in multiset(picked);
      assert x in shuffled;
      assert x in multiset(available);
    }
  }

  /** A round can start only with a non-empty selection; practice rounds use
      multipliers up to 12 and ten questions. */
  function StartGame(selected: seq<int>): (r: Option<GameSettings>)
    ensures r.None? <==> |selected| == 0
    ensures r.Some? ==> (r.value.selectedTables == selected &&
                         r.value.maxMultiplier == 12 && r.value.questionsPerRound == 10)
  {
    if |selected| == 0 then None else Some(GameSettings(selected, 12, 10))
  }

  /** A practice round started from this screen always has enough pairs for
      its four random picks, so it yields exactly ten questions. */
  lemma PracticeRoundsNeverFail(selected: seq<int>, stats: Option<PlayerStats>,
                                draws: seq<nat>, choices: seq<nat>)
    requires StartGame(selected).Some? && |draws| == 4
    ensures RandomCount(10) == 4
    ensures var r := GenerateQuestions(StartGame(selected).value, stats, draws, choices);
            r.Ok? && |r.value| == 10
  {
  }

  /** The user actions that change the selection. */
  datatype SelectionAction =
    | Toggle(num: int)
    | SelectAllTables
    | SelectRandomTables(countDraw: nat, choices: seq<nat>)
    | ClearSelection

  function Apply(selected: seq<int>, action: SelectionAction): seq<int> {
    match action
    case Toggle(num) => ToggleTable(selected, num)
    case SelectAllTables => SelectAll()
    case SelectRandomTables(countDraw, choices) => SelectRandom(countDraw, choices)
    case ClearSelection => []
  }

  /** From any valid selection, any sequence of button presses on the
      twelve table buttons leaves a valid selection. */
  lemma {:induction false} ActionsKeepSelectionValid(selected: seq<int>, actions: seq<SelectionAction>)
    requires ValidSelection(selected)
    requires forall i :: 0 <= i < |actions| ==> actions[i].Toggle? ==> actions[i].num in Tables
    ensures ValidSelection(ApplyAll(selected, actions))
    decreases |actions|
  {
    if actions != [] {
      var next := Apply(selected, actions[0]);
      TablesAreOneToTwelve();
      assert ValidSelection(next);
      ActionsKeepSelectionValid(next, actions[1..]);
    }
  }

  function ApplyAll(selected: seq<int>, actions: seq<SelectionAction>): seq<int>
    decreases |actions|
  {
    if actions == [] then selected else ApplyAll(Apply(selected, actions[0]), actions[1..])
  }
}
