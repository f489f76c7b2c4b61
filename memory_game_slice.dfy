/** The memory game's persisted statistics and the reducer that updates them
    (src/store/slices/memoryGameSlice.js). `Reduce` is the reducer as a
    function of the old state and the action; `MemoryStats` is the state
    object the reducer's Immer drafts update field by field. */
module MemoryGameSlice {
  import opened Common

  /** One won game as the history keeps it. */
  datatype HistoryEntry = HistoryEntry(moves: nat, time: nat, timestamp: int)

  datatype Stats = Stats(
    moves: nat,
    time: nat,
    gamesPlayed: nat,
    gamesWon: nat,
    bestTime: Option<nat>,
    bestMoves: Option<nat>,
    averageMoves: nat,
    averageTime: nat,
    history: seq<HistoryEntry>)

  const Initial := Stats(0, 0, 0, 0, None, None, 0, 0, [])

  datatype Action =
    | IncrementMoves
    | SetTime(value: nat)
    | IncrementTime
    | GameWon(timestamp: int)
    | ResetCurrentGame
    | ResetStats
    | ResetAll

  /** `if (best === null || x < best) best = x`: the new record. */
  function Best(best: Option<nat>, x: nat): (r: nat)
    ensures r <= x && (best.Some? ==> r <= best.value)
    ensures r == x || (best.Some? && r == best.value)
  {
    if best.None? || x < best.value then x else best.value
  }

  /** `Math.round((avg * (won - 1) + x) / won)`, with `won` already incremented. */
  function RunningAverage(avg: nat, won: nat, x: nat): nat
    requires won >= 1
  {
    RoundDiv(avg * (won - 1) + x, won)
  }

  function Won(s: Stats, timestamp: int): (r: Stats)
    ensures r.gamesWon == s.gamesWon + 1 && r.gamesPlayed == s.gamesPlayed + 1
    ensures r.moves == s.moves && r.time == s.time
    ensures r.bestTime.Some? && r.bestTime.value <= s.time
    ensures s.bestTime.Some? ==> r.bestTime.value <= s.bestTime.value
    ensures r.bestMoves.Some? && r.bestMoves.value <= s.moves
    ensures s.bestMoves.Some? ==> r.bestMoves.value <= s.bestMoves.value
    ensures 1 <= |r.history| <= |s.history| + 1
    ensures r.history[0] == HistoryEntry(s.moves, s.time, timestamp)
    ensures r.history[1..] == s.history[..|r.history| - 1]
    ensures |s.history| <= HistoryLimit ==> |r.history| <= HistoryLimit
  {
    var won := s.gamesWon + 1;
    s.(gamesWon := won,
       gamesPlayed := s.gamesPlayed + 1,
       bestTime := Some(Best(s.bestTime, s.time)),
       bestMoves := Some(Best(s.bestMoves, s.moves)),
       averageTime := RunningAverage(s.averageTime, won, s.time),
       averageMoves := RunningAverage(s.averageMoves, won, s.moves),
       history := PushCapped(s.history, HistoryEntry(s.moves, s.time, timestamp)))
  }

  /** A state whose fields were each updated as gameWon prescribes is Won. */
  lemma WonFields(s: Stats, timestamp: int, r: Stats)
    requires r.moves == s.moves && r.time == s.time
    requires r.gamesWon == s.gamesWon + 1 && r.gamesPlayed == s.gamesPlayed + 1
    requires r.bestTime == Some(Best(s.bestTime, s.time)) && r.bestMoves == Some(Best(s.bestMoves, s.moves))
    requires r.averageTime == RunningAverage(s.averageTime, r.gamesWon, s.time)
    requires r.averageMoves == RunningAverage(s.averageMoves, r.gamesWon, s.moves)
    requires r.history == PushCapped(s.history, HistoryEntry(s.moves, s.time, timestamp))
    ensures r == Won(s, timestamp)
  {
  }

  /** The slice's reducer. */
  function Reduce(s: Stats, a: Action): Stats
  {
    match a
    case IncrementMoves => s.(moves := s.moves + 1)
    case SetTime(v) => s.(time := v)
    case IncrementTime => s.(time := s.time + 1)
    case GameWon(timestamp) => Won(s, timestamp)
    case ResetCurrentGame => s.(moves := 0, time := 0)
    case ResetStats =>
      s.(gamesPlayed := 0, gamesWon := 0, bestTime := None, bestMoves := None,
         averageMoves := 0, averageTime := 0, history := [])
    case ResetAll => Initial
  }

  function ReduceAll(s: Stats, actions: seq<Action>): Stats
  {
    if actions == [] then s else Reduce(ReduceAll(s, actions[..|actions| - 1]), actions[|actions| - 1])
  }

  /** What holds of the statistics in every state the reducer can reach:
      the records are null exactly while no game was won, no game is played
      without being won, the history holds the last min(won, 20) wins, no
      recorded game beats the records, and the averages never beat them. */
  ghost predicate Valid(s: Stats) {
    && (s.bestTime.None? <==> s.gamesWon == 0)
    && (s.bestMoves.None? <==> s.gamesWon == 0)
    && s.gamesPlayed == s.gamesWon
    && |s.history| == Min(s.gamesWon, HistoryLimit)
    && (forall i :: 0 <= i < |s.history| ==>
          && s.bestTime.Some? && s.bestTime.value <= s.history[i].time
          && s.bestMoves.Some? && s.bestMoves.value <= s.history[i].moves)
    && (s.gamesWon > 0 ==>
          s.bestTime.value <= s.averageTime && s.bestMoves.value <= s.averageMoves)
  }

  /** After the first win the average is that game's own value. */
  lemma FirstWinAverage(s: Stats, timestamp: int)
    requires s.gamesWon == 0
    ensures Won(s, timestamp).averageTime == s.time
    ensures Won(s, timestamp).averageMoves == s.moves
  {
    RoundDivExact(s.time, 1);
    RoundDivExact(s.moves, 1);
  }

  /** The new running average lies between the old average and the new value. */
  lemma AverageBetween(avg: nat, won: nat, x: nat)
    requires won >= 1
    ensures Min(avg, x) <= RunningAverage(avg, won, x) <= Max(avg, x)
  {
    var lo, hi := Min(avg, x), Max(avg, x);
    MulMonotone(won - 1, lo, avg);
    MulMonotone(won - 1, avg, hi);
    assert lo * won == lo * (won - 1) + lo;
    assert hi * won == hi * (won - 1) + hi;
    assert (won - 1) * avg == avg * (won - 1);
    RoundDivBetween(avg * (won - 1) + x, won, lo, hi);
  }

  lemma WonPreservesValid(s: Stats, timestamp: int)
    requires Valid(s)
    ensures Valid(Won(s, timestamp))
  {
    var r := Won(s, timestamp);
    if s.gamesWon == 0 {
      FirstWinAverage(s, timestamp);
    } else {
      AverageBetween(s.averageTime, r.gamesWon, s.time);
      AverageBetween(s.averageMoves, r.gamesWon, s.moves);
    }
    forall i | 0 <= i < |r.history|
      ensures r.bestTime.value <= r.history[i].time && r.bestMoves.value <= r.history[i].moves
    {
      if i > 0 {
        assert r.history[i] == r.history[1..][i - 1] == s.history[i - 1];
      }
    }
  }

  /** Every action keeps the invariant. */
  lemma ReducePreservesValid(s: Stats, a: Action)
    requires Valid(s)
    ensures Valid(Reduce(s, a))
  {
    if a.GameWon? {
      WonPreservesValid(s, a.timestamp);
    }
  }

  /** The invariant holds in every state reachable from the initial one. */
  lemma {:induction false} ReachableValid(actions: seq<Action>)
    ensures Valid(ReduceAll(Initial, actions))
  {
    if actions != [] {
      ReachableValid(actions[..|actions| - 1]);
      ReducePreservesValid(ReduceAll(Initial, actions[..|actions| - 1]), actions[|actions| - 1]);
    }
  }

  /** Across wins the records never get worse; only the two resets clear them. */
  lemma RecordsNeverWorsen(s: Stats, a: Action)
    requires Valid(s) && s.gamesWon > 0 && !a.ResetStats? && !a.ResetAll?
    ensures Reduce(s, a).bestTime.Some? && Reduce(s, a).bestTime.value <= s.bestTime.value
    ensures Reduce(s, a).bestMoves.Some? && Reduce(s, a).bestMoves.value <= s.bestMoves.value
  {
  }

  /** One move, then a win, from the initial state. */
  lemma FirstGameScenario(timestamp: int)
    ensures ReduceAll(Initial, [IncrementMoves, GameWon(timestamp)])
            == Stats(1, 0, 1, 1, Some(0), Some(1), 1, 0, [HistoryEntry(1, 0, timestamp)])
  {
    var actions := [IncrementMoves, GameWon(timestamp)];
    var afterMove := Initial.(moves := 1);
    assert actions[..1] == [IncrementMoves];
    assert ReduceAll(Initial, []) == Initial;
    assert ReduceAll(Initial, [IncrementMoves]) == afterMove by {
      assert [IncrementMoves][..0] == [];
    }
    assert ReduceAll(Initial, actions) == Won(afterMove, timestamp);
    FirstWinAverage(afterMove, timestamp);
    var r := Won(afterMove, timestamp);
    assert r.averageTime == 0 && r.averageMoves == 1;
    assert r.bestTime == Some(0);
    assert r.bestMoves == Some(1);
    assert r.history == [HistoryEntry(1, 0, timestamp)];
    assert r == Stats(1, 0, 1, 1, Some(0), Some(1), 1, 0, [HistoryEntry(1, 0, timestamp)]);
  }

  /** The slice's state object, updated in place by the reducers. */
  class MemoryStats {
    var moves: nat
    var time: nat
    var gamesPlayed: nat
    var gamesWon: nat
    var bestTime: Option<nat>
    var bestMoves: Option<nat>
    var averageMoves: nat
    var averageTime: nat
    var history: seq<HistoryEntry>

    ghost function State(): Stats
      reads this
    {
      Stats(moves, time, gamesPlayed, gamesWon, bestTime, bestMoves, averageMoves, averageTime, history)
    }

    constructor ()
      ensures State() == Initial
    {
      moves, time, gamesPlayed, gamesWon := 0, 0, 0, 0;
      bestTime, bestMoves := None, None;
      averageMoves, averageTime := 0, 0;
      history := [];
    }

    method IncrementMoves()
      modifies this
      ensures State() == Reduce(old(State()), Action.IncrementMoves)
      ensures moves == old(moves) + 1
    {
      moves := moves + 1;
    }

    method SetTime(value: nat)
      modifies this
      ensures State() == Reduce(old(State()), Action.SetTime(value))
      ensures time == value
    {
      time := value;
    }

    method IncrementTime()
      modifies this
      ensures State() == Reduce(old(State()), Action.IncrementTime)
      ensures time == old(time) + 1
    {
      time := time + 1;
    }

    method GameWon(timestamp: int)
      modifies this
      ensures State() == Reduce(old(State()), Action.GameWon(timestamp))
    {
      // The reducer's field updates, computed first and then stored.
      ghost var s := State();
      var won := gamesWon + 1;
      var newBestTime := bestTime;
      if newBestTime.None? || time < newBestTime.value {
        newBestTime := Some(time);
      }
      var newBestMoves := bestMoves;
      if newBestMoves.None? || moves < newBestMoves.value {
        newBestMoves := Some(moves);
      }
      var newHistory := [HistoryEntry(moves, time, timestamp)] + history;
      if |newHistory| > HistoryLimit {
        newHistory := newHistory[..|newHistory| - 1];
      }
      gamesWon, gamesPlayed := won, gamesPlayed + 1;
      bestTime, bestMoves := newBestTime, newBestMoves;
      averageTime := RunningAverage(averageTime, won, time);
      averageMoves := RunningAverage(averageMoves, won, moves);
      history := newHistory;
      WonFields(s, timestamp, State());
    }

    method ResetCurrentGame()
      modifies this
      ensures State() == Reduce(old(State()), Action.ResetCurrentGame)
    {
      moves := 0;
      time := 0;
    }

    method ResetStats()
      modifies this
      ensures State() == Reduce(old(State()), Action.ResetStats)
    {
      gamesPlayed := 0;
      gamesWon := 0;
      bestTime := None;
      bestMoves := None;
      averageMoves := 0;
      averageTime := 0;
      history := [];
    }

    method ResetAll()
      modifies this
      ensures State() == Initial
    {
      moves, time, gamesPlayed, gamesWon := 0, 0, 0, 0;
      bestTime, bestMoves := None, None;
      averageMoves, averageTime := 0, 0;
      history := [];
    }
  }
}
