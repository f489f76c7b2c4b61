/** The silhouette quiz's persisted statistics and their reducer
    (src/store/slices/whosThatPokemonSlice.js). */
module WhosThatPokemonSlice {
  import opened Common

  /** One answered round as the history keeps it. */
  datatype HistoryEntry = HistoryEntry(pokemonName: string, isCorrect: bool, timestamp: int)

  datatype Stats = Stats(
    score: nat,
    totalPlayed: nat,
    streak: nat,
    bestStreak: nat,
    history: seq<HistoryEntry>)

  const Initial := Stats(0, 0, 0, 0, [])

  datatype Action =
    | IncrementScore
    | ResetStreak
    | IncrementTotalPlayed
    | AddToHistory(entry: HistoryEntry)
    | ResetGame
    | ResetAll

  /** The slice's reducer. */
  function Reduce(s: Stats, a: Action): Stats
  {
    match a
    case IncrementScore =>
      var streak := s.streak + 1;
      s.(score := s.score + 1, streak := streak,
         bestStreak := if streak > s.bestStreak then streak else s.bestStreak)
    case ResetStreak => s.(streak := 0)
    case IncrementTotalPlayed => s.(totalPlayed := s.totalPlayed + 1)
    case AddToHistory(entry) => s.(history := PushCapped(s.history, entry))
    case ResetGame => s.(score := 0, totalPlayed := 0, streak := 0)
    case ResetAll => Initial
  }

  function ReduceAll(s: Stats, actions: seq<Action>): Stats
  {
    if actions == [] then s else Reduce(ReduceAll(s, actions[..|actions| - 1]), actions[|actions| - 1])
  }

  /** The best streak is never behind the current one, and the history
      respects its bound. */
  ghost predicate Valid(s: Stats) {
    s.streak <= s.bestStreak && |s.history| <= HistoryLimit
  }

  /** A correct answer extends score and streak by one and lifts the best
      streak to the new streak when it falls behind. */
  lemma IncrementScoreEffect(s: Stats)
    ensures var r := Reduce(s, IncrementScore);
      && r.score == s.score + 1 && r.streak == s.streak + 1
      && r.bestStreak == Max(s.bestStreak, s.streak + 1)
      && r.totalPlayed == s.totalPlayed && r.history == s.history
  {
  }

  /** A new entry goes in front of the older ones, and only the oldest can drop out. */
  lemma AddToHistoryEffect(s: Stats, entry: HistoryEntry)
    ensures var r := Reduce(s, AddToHistory(entry));
      && r.history[0] == entry
      && r.history[1..] == s.history[..|r.history| - 1]
      && (|s.history| <= HistoryLimit ==> |r.history| <= HistoryLimit)
      && r.(history := s.history) == s
  {
  }

  lemma ReducePreservesValid(s: Stats, a: Action)
    requires Valid(s)
    ensures Valid(Reduce(s, a))
  {
  }

  /** `bestStreak >= streak` holds in every state reachable from the initial one. */
  lemma {:induction false} ReachableValid(actions: seq<Action>)
    ensures Valid(ReduceAll(Initial, actions))
  {
    if actions != [] {
      ReachableValid(actions[..|actions| - 1]);
      ReducePreservesValid(ReduceAll(Initial, actions[..|actions| - 1]), actions[|actions| - 1]);
    }
  }

  /** A fifth correct answer after four, then a miss. */
  lemma StreakScenario(s: Stats)
    requires s.streak == 4 && s.bestStreak == 4
    ensures Reduce(s, IncrementScore).streak == 5
    ensures Reduce(s, IncrementScore).bestStreak == 5
    ensures Reduce(Reduce(s, IncrementScore), ResetStreak).streak == 0
    ensures Reduce(Reduce(s, IncrementScore), ResetStreak).bestStreak == 5
  {
  }

  /** The slice's state object, updated in place by the reducers. */
  class QuizStats {
    var score: nat
    var totalPlayed: nat
    var streak: nat
    var bestStreak: nat
    var history: seq<HistoryEntry>

    ghost function State(): Stats
      reads this
    {
      Stats(score, totalPlayed, streak, bestStreak, history)
    }

    constructor ()
      ensures State() == Initial
    {
      score, totalPlayed, streak, bestStreak := 0, 0, 0, 0;
      history := [];
    }

    method IncrementScore()
      modifies this
      ensures State() == Reduce(old(State()), Action.IncrementScore)
    {
      score := score + 1;
      streak := streak + 1;
      if streak > bestStreak {
        bestStreak := streak;
      }
    }

    method ResetStreak()
      modifies this
      ensures State() == Reduce(old(State()), Action.ResetStreak)
    {
      streak := 0;
    }

    method IncrementTotalPlayed()
      modifies this
      ensures State() == Reduce(old(State()), Action.IncrementTotalPlayed)
    {
      totalPlayed := totalPlayed + 1;
    }

    method AddToHistory(entry: HistoryEntry)
      modifies this
      ensures State() == Reduce(old(State()), Action.AddToHistory(entry))
    {
      history := [entry] + history;
      if |history| > HistoryLimit {
        history := history[..|history| - 1];
      }
    }

    method ResetGame()
      modifies this
      ensures State() == Reduce(old(State()), Action.ResetGame)
    {
      score := 0;
      totalPlayed := 0;
      streak := 0;
    }

    method ResetAll()
      modifies this
      ensures State() == Initial
    {
      score, totalPlayed, streak, bestStreak := 0, 0, 0, 0;
      history := [];
    }
  }
}
