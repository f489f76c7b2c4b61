/** The silhouette quiz's round controller
    (src/components/WhosThatPokemon/WhosThatPokemon.jsx) without its
    rendering: loading a Pokémon with three wrong names, shuffling the four
    options, answering once per round and restarting. The random ids, the
    provider's answers and the shuffle are parameters. */
module WhosThatPokemon {
  import opened Common
  import WS = WhosThatPokemonSlice

  /** Wrong names offered beside the right one. */
  const WrongCount := 3

  datatype QuizOption = QuizOption(name: string, isCorrect: bool)

  function IsCorrectOf(o: QuizOption): bool { o.isCorrect }

  // ---------------------------------------------------------------------
  // generateWrongOptions

  /** The ids the wrong-option loop fetches successfully, in order: a draw
      already in `used` is skipped; a new one is marked used, and kept when
      the provider knows it; the loop stops once `need` are kept. */
  function WrongPicks(used: set<int>, draws: seq<int>, provider: map<int, Pokemon>, need: nat): seq<int>
    decreases |draws|
  {
    if need == 0 || draws == [] then []
    else if draws[0] in used then WrongPicks(used, draws[1..], provider, need)
    else if draws[0] in provider then [draws[0]] + WrongPicks(used + {draws[0]}, draws[1..], provider, need - 1)
    else WrongPicks(used + {draws[0]}, draws[1..], provider, need)
  }

  /** The ids that could serve as wrong options: drawn, not yet used, known to the provider. */
  function Available(used: set<int>, draws: seq<int>, provider: map<int, Pokemon>): set<int>
  {
    (Elements(draws) - used) * provider.Keys
  }

  /** The picks are distinct, drawn, known to the provider and never an id already used. */
  lemma {:induction false} WrongPicksMembers(used: set<int>, draws: seq<int>, provider: map<int, Pokemon>, need: nat)
    ensures var r := WrongPicks(used, draws, provider, need);
      && Distinct(r)
      && forall k :: 0 <= k < |r| ==> r[k] !in used && r[k] in provider && r[k] in draws
    decreases |draws|
  {
    if need > 0 && draws != [] {
      var d, rest := draws[0], draws[1..];
      assert forall x :: x in rest ==> x in draws;
      if d in used {
        WrongPicksMembers(used, rest, provider, need);
      } else if d in provider {
        WrongPicksMembers(used + {d}, rest, provider, need - 1);
      } else {
        WrongPicksMembers(used + {d}, rest, provider, need);
      }
    }
  }

  /** A draw already used changes nothing that is available. */
  lemma AvailableSkip(used: set<int>, draws: seq<int>, provider: map<int, Pokemon>)
    requires draws != [] && draws[0] in used
    ensures Available(used, draws, provider) == Available(used, draws[1..], provider)
  {
    DrawElements(draws);
  }

  /** A new draw the provider does not know is only marked used. */
  lemma AvailableFailed(used: set<int>, draws: seq<int>, provider: map<int, Pokemon>)
    requires draws != [] && draws[0] !in used && draws[0] !in provider
    ensures Available(used, draws, provider) == Available(used + {draws[0]}, draws[1..], provider)
  {
    DrawElements(draws);
  }

  /** A new draw the provider knows is one available id fewer for the rest. */
  lemma AvailableKept(used: set<int>, draws: seq<int>, provider: map<int, Pokemon>)
    requires draws != [] && draws[0] !in used && draws[0] in provider
    ensures |Available(used, draws, provider)| == |Available(used + {draws[0]}, draws[1..], provider)| + 1
  {
    DrawElements(draws);
    var d := draws[0];
    var a, b := Available(used, draws, provider), Available(used + {d}, draws[1..], provider);
    assert a == b + {d} && d !in b;
  }

  lemma DrawElements(draws: seq<int>)
    requires draws != []
    ensures Elements(draws) == {draws[0]} + Elements(draws[1..])
  {
    assert draws == [draws[0]] + draws[1..];
  }

  /** One draw consumed: skipped, kept or failed, the pick count follows the available ids. */
  lemma LengthSkip(used: set<int>, draws: seq<int>, provider: map<int, Pokemon>, need: nat)
    requires draws != [] && need > 0 && draws[0] in used
    requires |WrongPicks(used, draws[1..], provider, need)| == Min(need, |Available(used, draws[1..], provider)|)
    ensures |WrongPicks(used, draws, provider, need)| == Min(need, |Available(used, draws, provider)|)
  {
    AvailableSkip(used, draws, provider);
  }

  lemma LengthKept(used: set<int>, draws: seq<int>, provider: map<int, Pokemon>, need: nat)
    requires draws != [] && need > 0 && draws[0] !in used && draws[0] in provider
    requires |WrongPicks(used + {draws[0]}, draws[1..], provider, need - 1)|
             == Min(need - 1, |Available(used + {draws[0]}, draws[1..], provider)|)
    ensures |WrongPicks(used, draws, provider, need)| == Min(need, |Available(used, draws, provider)|)
  {
    AvailableKept(used, draws, provider);
  }

  lemma LengthFailed(used: set<int>, draws: seq<int>, provider: map<int, Pokemon>, need: nat)
    requires draws != [] && need > 0 && draws[0] !in used && draws[0] !in provider
    requires |WrongPicks(used + {draws[0]}, draws[1..], provider, need)|
             == Min(need, |Available(used + {draws[0]}, draws[1..], provider)|)
    ensures |WrongPicks(used, draws, provider, need)| == Min(need, |Available(used, draws, provider)|)
  {
    AvailableFailed(used, draws, provider);
  }

  /** There are as many picks as needed, or as many as are available. */
  lemma {:induction false} WrongPicksLength(used: set<int>, draws: seq<int>, provider: map<int, Pokemon>, need: nat)
    ensures |WrongPicks(used, draws, provider, need)| == Min(need, |Available(used, draws, provider)|)
    decreases |draws|
  {
    if draws == [] {
      assert Available(used, draws, provider) == {};
    } else if need == 0 {
    } else {
      var d := draws[0];
      if d in used {
        WrongPicksLength(used, draws[1..], provider, need);
        LengthSkip(used, draws, provider, need);
      } else if d in provider {
        WrongPicksLength(used + {d}, draws[1..], provider, need - 1);
        LengthKept(used, draws, provider, need);
      } else {
        WrongPicksLength(used + {d}, draws[1..], provider, need);
        LengthFailed(used, draws, provider, need);
      }
    }
  }

  /** One pass of the loop body, read on the remaining draws from position i. */
  lemma WrongPicksStep(used: set<int>, draws: seq<int>, provider: map<int, Pokemon>, need: nat, i: nat)
    requires i < |draws| && need > 0
    ensures WrongPicks(used, draws[i..], provider, need)
      == if draws[i] in used then WrongPicks(used, draws[i + 1..], provider, need)
         else if draws[i] in provider then [draws[i]] + WrongPicks(used + {draws[i]}, draws[i + 1..], provider, need - 1)
         else WrongPicks(used + {draws[i]}, draws[i + 1..], provider, need)
  {
    assert draws[i..][0] == draws[i] && draws[i..][1..] == draws[i + 1..];
  }

  /** One pass of the loop keeps "picked so far + still to pick == all picks". */
  lemma LoopStep(used: set<int>, draws: seq<int>, provider: map<int, Pokemon>, ids: seq<int>, picks: seq<int>, i: nat)
    requires i < |draws| && |ids| < WrongCount
    requires ids + WrongPicks(used, draws[i..], provider, WrongCount - |ids|) == picks
    ensures var d := draws[i];
      var used' := used + {d};
      var ids' := if d !in used && d in provider then ids + [d] else ids;
      ids' + WrongPicks(used', draws[i + 1..], provider, WrongCount - |ids'|) == picks
  {
    var d := draws[i];
    WrongPicksStep(used, draws, provider, WrongCount - |ids|, i);
    if d in used {
      assert used + {d} == used;
    } else if d in provider {
      ConcatAssoc(ids, [d], WrongPicks(used + {d}, draws[i + 1..], provider, WrongCount - |ids| - 1));
    }
  }

  /** `{ name, isCorrect: false }` for each fetched id. */
  function WrongOptionsFor(ids: seq<int>, provider: map<int, Pokemon>): (r: seq<QuizOption>)
    requires forall k :: 0 <= k < |ids| ==> ids[k] in provider
    ensures |r| == |ids|
    ensures forall k :: 0 <= k < |r| ==> r[k] == QuizOption(provider[ids[k]].name, false)
  {
    seq(|ids|, k requires 0 <= k < |ids| => QuizOption(provider[ids[k]].name, false))
  }

  /** One more fetched id adds its option at the end. */
  lemma WrongOptionsSnoc(ids: seq<int>, id: int, provider: map<int, Pokemon>)
    requires forall k :: 0 <= k < |ids| ==> ids[k] in provider
    requires id in provider
    ensures forall k :: 0 <= k < |ids + [id]| ==> (ids + [id])[k] in provider
    ensures WrongOptionsFor(ids + [id], provider) == WrongOptionsFor(ids, provider) + [QuizOption(provider[id].name, false)]
  {
  }

  /** The loop of `generateWrongOptions`: draw until three different ids,
      other than the right one, were fetched; an id whose fetch fails is
      still marked used. It ends only if the draws hold three such ids. */
  method GenerateWrongOptions(correctId: int, draws: seq<int>, provider: map<int, Pokemon>)
    returns (wrongOptions: seq<QuizOption>)
    requires |Available({correctId}, draws, provider)| >= WrongCount
    ensures var ids := WrongPicks({correctId}, draws, provider, WrongCount);
      && |ids| == WrongCount
      && (forall k :: 0 <= k < |ids| ==> ids[k] in provider)
      && wrongOptions == WrongOptionsFor(ids, provider)
  {
    WrongPicksMembers({correctId}, draws, provider, WrongCount);
    WrongPicksLength({correctId}, draws, provider, WrongCount);
    ghost var picks := WrongPicks({correctId}, draws, provider, WrongCount);
    wrongOptions := [];
    ghost var ids: seq<int> := [];
    var usedIds: set<int> := {correctId};
    var i := 0;
    while |wrongOptions| < WrongCount
      invariant i <= |draws| && |ids| == |wrongOptions| <= WrongCount
      invariant ids + WrongPicks(usedIds, draws[i..], provider, WrongCount - |ids|) == picks
      invariant |picks| == WrongCount
      invariant i == |draws| ==> |ids| == WrongCount
      invariant forall k :: 0 <= k < |ids| ==> ids[k] in provider
      invariant wrongOptions == WrongOptionsFor(ids, provider)
      decreases |draws| - i
    {
      var randomId := draws[i];
      LoopStep(usedIds, draws, provider, ids, picks, i);
      if randomId !in usedIds {
        usedIds := usedIds + {randomId};
        if randomId in provider {
          WrongOptionsSnoc(ids, randomId, provider);
          wrongOptions := wrongOptions + [QuizOption(provider[randomId].name, false)];
          ids := ids + [randomId];
        }
      }
      i := i + 1;
      assert i == |draws| ==> draws[i..] == [];
    }
    assert WrongPicks(usedIds, draws[i..], provider, 0) == [];
  }

  // ---------------------------------------------------------------------
  // The four options.

  /** The right name first, then the wrong ones, shuffled. */
  function AssembleOptions(name: string, wrong: seq<QuizOption>, swaps: seq<(nat, nat)>): seq<QuizOption>
    requires SwapsWithin(swaps, |wrong| + 1)
  {
    ApplySwaps([QuizOption(name, true)] + wrong, swaps)
  }

  /** Four options, exactly one of them correct, and a correct one names the Pokémon. */
  ghost predicate WellFormedOptions(options: seq<QuizOption>, name: string)
  {
    && |options| == WrongCount + 1
    && multiset(Project(options, IsCorrectOf))[true] == 1
    && forall o :: o in options && o.isCorrect ==> o.name == name
  }

  /** Whatever the shuffle, the assembled options are well formed when the
      wrong ones are three incorrect options. */
  lemma AssembleOptionsWellFormed(name: string, wrong: seq<QuizOption>, swaps: seq<(nat, nat)>)
    requires |wrong| == WrongCount && forall o :: o in wrong ==> !o.isCorrect
    requires SwapsWithin(swaps, |wrong| + 1)
    ensures WellFormedOptions(AssembleOptions(name, wrong, swaps), name)
  {
    var all := [QuizOption(name, true)] + wrong;
    var opts := AssembleOptions(name, wrong, swaps);
    ProjectSwaps(all, IsCorrectOf, swaps);
    ApplySwapsPermutes(Project(all, IsCorrectOf), swaps);
    assert Project(all, IsCorrectOf) == [true, false, false, false] by {
      assert wrong[0] in wrong && wrong[1] in wrong && wrong[2] in wrong;
    }
    forall o | o in opts && o.isCorrect ensures o.name == name {
      SwapsKeepElements(all, swaps, o);
    }
  }

  // ---------------------------------------------------------------------
  // handleOptionSelect as a change of the store.

  /** The dispatches of one answer: one more round played, then a hit
      (score and streak up) or a miss (streak back to zero), then the history entry. */
  function AnswerRound(s: WS.Stats, isCorrect: bool, name: string, timestamp: int): WS.Stats
  {
    var played := WS.Reduce(s, WS.IncrementTotalPlayed);
    var scored := WS.Reduce(played, if isCorrect then WS.IncrementScore else WS.ResetStreak);
    WS.Reduce(scored, WS.AddToHistory(WS.HistoryEntry(name, isCorrect, timestamp)))
  }

  /** What one answer does to the statistics. */
  lemma AnswerRoundEffect(s: WS.Stats, isCorrect: bool, name: string, timestamp: int)
    ensures var r := AnswerRound(s, isCorrect, name, timestamp);
      && r.totalPlayed == s.totalPlayed + 1
      && r.score == (if isCorrect then s.score + 1 else s.score)
      && r.streak == (if isCorrect then s.streak + 1 else 0)
      && r.bestStreak == (if isCorrect then Max(s.bestStreak, s.streak + 1) else s.bestStreak)
      && r.history[0] == WS.HistoryEntry(name, isCorrect, timestamp)
  {
  }

  /** An answer keeps the slice invariant, and the score never overtakes the
      rounds played. */
  lemma AnswerRoundKeepsInvariant(s: WS.Stats, isCorrect: bool, name: string, timestamp: int)
    requires WS.Valid(s) && s.score <= s.totalPlayed
    ensures var r := AnswerRound(s, isCorrect, name, timestamp);
      WS.Valid(r) && r.score <= r.totalPlayed
  {
    var played := WS.Reduce(s, WS.IncrementTotalPlayed);
    var scored := WS.Reduce(played, if isCorrect then WS.IncrementScore else WS.ResetStreak);
    WS.ReducePreservesValid(s, WS.IncrementTotalPlayed);
    WS.ReducePreservesValid(played, if isCorrect then WS.IncrementScore else WS.ResetStreak);
    WS.ReducePreservesValid(scored, WS.AddToHistory(WS.HistoryEntry(name, isCorrect, timestamp)));
  }

  /** The component's local state; `stats` is the store slice it dispatches to. */
  class WhosThatPokemon {
    var pokemon: Option<Pokemon>
    var options: seq<QuizOption>
    var selectedOption: Option<QuizOption>
    var isRevealed: bool
    var isLoading: bool
    var showFeedback: bool
    const stats: WS.QuizStats

    /** A round is answered exactly when an option is selected, and then the
        feedback shows; shown options are well formed for the shown Pokémon;
        the statistics satisfy the slice invariant and score <= totalPlayed. */
    ghost predicate Valid()
      reads this, stats
    {
      && (isRevealed <==> selectedOption.Some?)
      && showFeedback == isRevealed
      && (options != [] ==> pokemon.Some? && WellFormedOptions(options, pokemon.value.name))
      && WS.Valid(stats.State())
      && stats.State().score <= stats.State().totalPlayed
    }

    /** Mounting the component: the first Pokémon is loaded. */
    constructor (stats: WS.QuizStats, randomId: int, draws: seq<int>, provider: map<int, Pokemon>, swaps: seq<(nat, nat)>)
      requires WS.Valid(stats.State()) && stats.State().score <= stats.State().totalPlayed
      requires 1 <= randomId <= MaxPokemonId
      requires randomId in provider ==> |Available({randomId}, draws, provider)| >= WrongCount
      requires SwapsWithin(swaps, WrongCount + 1)
      ensures Valid() && this.stats == stats && !isLoading && !isRevealed && selectedOption.None?
      ensures randomId in provider ==>
        pokemon == Some(provider[randomId]) && options == OptionsFor(randomId, draws, provider, swaps)
      ensures randomId !in provider ==> pokemon.None? && options == []
    {
      this.stats := stats;
      pokemon, options, selectedOption := None, [], None;
      isRevealed, isLoading, showFeedback := false, true, false;
      new;
      FetchRandomPokemon(randomId, draws, provider, swaps);
    }

    /** The options a successful load offers. */
    static ghost function OptionsFor(randomId: int, draws: seq<int>, provider: map<int, Pokemon>, swaps: seq<(nat, nat)>): seq<QuizOption>
      requires randomId in provider && |Available({randomId}, draws, provider)| >= WrongCount
      requires SwapsWithin(swaps, WrongCount + 1)
    {
      WrongPicksMembers({randomId}, draws, provider, WrongCount);
      WrongPicksLength({randomId}, draws, provider, WrongCount);
      var ids := WrongPicks({randomId}, draws, provider, WrongCount);
      AssembleOptions(provider[randomId].name, WrongOptionsFor(ids, provider), swaps)
    }

    /** `fetchRandomPokemon` (also `handleNextPokemon`): the round is cleared;
        when the drawn Pokémon can be fetched it is shown with its shuffled
        options, otherwise the previous Pokémon and options stay. */
    method FetchRandomPokemon(randomId: int, draws: seq<int>, provider: map<int, Pokemon>, swaps: seq<(nat, nat)>)
      requires WS.Valid(stats.State()) && stats.State().score <= stats.State().totalPlayed
      requires options != [] ==> pokemon.Some? && WellFormedOptions(options, pokemon.value.name)
      requires 1 <= randomId <= MaxPokemonId
      requires randomId in provider ==> |Available({randomId}, draws, provider)| >= WrongCount
      requires SwapsWithin(swaps, WrongCount + 1)
      modifies this
      ensures Valid() && !isLoading && !isRevealed && selectedOption.None?
      ensures randomId in provider ==>
        pokemon == Some(provider[randomId]) && options == OptionsFor(randomId, draws, provider, swaps)
      ensures randomId !in provider ==> pokemon == old(pokemon) && options == old(options)
    {
      isLoading := true;
      isRevealed := false;
      selectedOption := None;
      showFeedback := false;
      if randomId in provider {
        var correctPokemon := provider[randomId];
        pokemon := Some(correctPokemon);
        var wrongOptions := GenerateWrongOptions(randomId, draws, provider);
        options := ApplySwaps([QuizOption(correctPokemon.name, true)] + wrongOptions, swaps);
        AssembleOptionsWellFormed(correctPokemon.name, wrongOptions, swaps);
      }
      isLoading := false;
    }

    /** `handleOptionSelect`: the first choice of a round reveals the answer and
        records it; any later choice is ignored. */
    method SelectOption(option: QuizOption, timestamp: int)
      requires Valid() && pokemon.Some?
      modifies this, stats
      ensures Valid()
      ensures old(selectedOption.Some? || isRevealed) ==> unchanged(this) && unchanged(stats)
      ensures !old(selectedOption.Some? || isRevealed) ==>
        && selectedOption == Some(option) && isRevealed && showFeedback
        && pokemon == old(pokemon) && options == old(options) && isLoading == old(isLoading)
        && stats.State() == AnswerRound(old(stats.State()), option.isCorrect, pokemon.value.name, timestamp)
    {
      if selectedOption.Some? || isRevealed {
        return;
      }
      selectedOption := Some(option);
      isRevealed := true;
      showFeedback := true;
      AnswerRoundKeepsInvariant(stats.State(), option.isCorrect, pokemon.value.name, timestamp);
      stats.IncrementTotalPlayed();
      if option.isCorrect {
        stats.IncrementScore();
        stats.AddToHistory(WS.HistoryEntry(pokemon.value.name, true, timestamp));
      } else {
        stats.ResetStreak();
        stats.AddToHistory(WS.HistoryEntry(pokemon.value.name, false, timestamp));
      }
    }

    /** `handleRestart`: score, rounds and streak back to zero, then a new Pokémon. */
    method Restart(randomId: int, draws: seq<int>, provider: map<int, Pokemon>, swaps: seq<(nat, nat)>)
      requires Valid()
      requires 1 <= randomId <= MaxPokemonId
      requires randomId in provider ==> |Available({randomId}, draws, provider)| >= WrongCount
      requires SwapsWithin(swaps, WrongCount + 1)
      modifies this, stats
      ensures Valid() && !isLoading && !isRevealed && selectedOption.None?
      ensures stats.State() == WS.Reduce(old(stats.State()), WS.ResetGame)
      ensures randomId in provider ==>
        pokemon == Some(provider[randomId]) && options == OptionsFor(randomId, draws, provider, swaps)
      ensures randomId !in provider ==> pokemon == old(pokemon) && options == old(options)
    {
      stats.ResetGame();
      FetchRandomPokemon(randomId, draws, provider, swaps);
    }
  }
}
