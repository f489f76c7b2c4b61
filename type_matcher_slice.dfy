/** The type-matching game's persisted statistics and their reducer
    (src/store/slices/typeMatcherSlice.js). */
module TypeMatcherSlice {
  import opened Common

  /** Statistics of one Pokémon type. */
  datatype TypeStat = TypeStat(attempts: nat, correct: nat, accuracy: nat)

  /** One checked round as the history keeps it. */
  datatype HistoryEntry = HistoryEntry(
    pokemonName: string,
    types: seq<string>,
    guessedTypes: seq<Option<string>>,
    isCorrect: bool,
    timestamp: int)

  datatype Stats = Stats(
    score: nat,
    attempts: nat,
    bestScore: nat,
    accuracy: nat,
    typeStats: map<string, TypeStat>,
    history: seq<HistoryEntry>)

  const Initial := Stats(0, 0, 0, 0, map[], [])

  const Fresh := TypeStat(0, 0, 0)

  datatype Action =
    | IncrementScore
    | IncrementAttempts
    | UpdateTypeStats(types: seq<string>, isCorrect: bool)
    | AddToHistory(entry: HistoryEntry)
    | ResetGame
    | ResetStats
    | ResetAll

  /** The percentage of correct answers; 0 before the first attempt. */
  function AccuracyOf(score: nat, attempts: nat): nat
  {
    if attempts > 0 then Percent(score, attempts) else 0
  }

  /** One pass of the `types.forEach` body: create the entry if absent, count
      the attempt, count it correct when it was, recompute the accuracy. */
  function Bump(m: map<string, TypeStat>, t: string, isCorrect: bool): map<string, TypeStat>
  {
    var e := if t in m then m[t] else Fresh;
    var attempts := e.attempts + 1;
    var correct := if isCorrect then e.correct + 1 else e.correct;
    m[t := TypeStat(attempts, correct, Percent(correct, attempts))]
  }

  /** `types.forEach(...)`: one Bump per occurrence, in order. */
  function BumpAll(m: map<string, TypeStat>, types: seq<string>, isCorrect: bool): map<string, TypeStat>
  {
    if types == [] then m
    else Bump(BumpAll(m, types[..|types| - 1], isCorrect), types[|types| - 1], isCorrect)
  }

  /** Storing the bumped entry under its type is Bump. */
  lemma BumpStores(m: map<string, TypeStat>, t: string, isCorrect: bool, entry: TypeStat)
    requires var e := if t in m then m[t] else Fresh;
      && entry.attempts == e.attempts + 1
      && entry.correct == (if isCorrect then e.correct + 1 else e.correct)
      && entry.accuracy == Percent(entry.correct, entry.attempts)
    ensures m[t := entry] == Bump(m, t, isCorrect)
  {
  }

  /** The forEach after one more type is one more Bump. */
  lemma BumpAllSnoc(m: map<string, TypeStat>, types: seq<string>, isCorrect: bool, i: nat)
    requires i < |types|
    ensures BumpAll(m, types[..i + 1], isCorrect) == Bump(BumpAll(m, types[..i], isCorrect), types[i], isCorrect)
  {
    assert types[..i + 1][..i] == types[..i];
  }

  /** Number of occurrences of x in s. */
  function Count<T(==)>(s: seq<T>, x: T): nat
  {
    if s == [] then 0
    else Count(s[..|s| - 1], x) + (if s[|s| - 1] == x then 1 else 0)
  }

  lemma {:induction false} CountZero<T>(s: seq<T>, x: T)
    ensures Count(s, x) == 0 <==> x !in s
  {
    if s != [] {
      CountZero(s[..|s| - 1], x);
      assert s == s[..|s| - 1] + [s[|s| - 1]];
    }
  }

  /** The slice's reducer. */
  function Reduce(s: Stats, a: Action): Stats
  {
    match a
    case IncrementScore =>
      var score := s.score + 1;
      s.(score := score,
         bestScore := if score > s.bestScore then score else s.bestScore,
         accuracy := AccuracyOf(score, s.attempts))
    case IncrementAttempts =>
      var attempts := s.attempts + 1;
      s.(attempts := attempts, accuracy := Percent(s.score, attempts))
    case UpdateTypeStats(types, isCorrect) => s.(typeStats := BumpAll(s.typeStats, types, isCorrect))
    case AddToHistory(entry) => s.(history := PushCapped(s.history, entry))
    case ResetGame => s.(score := 0, attempts := 0, accuracy := 0)
    case ResetStats => s.(bestScore := 0, typeStats := map[], history := [])
    case ResetAll => Initial
  }

  function ReduceAll(s: Stats, actions: seq<Action>): Stats
  {
    if actions == [] then s else Reduce(ReduceAll(s, actions[..|actions| - 1]), actions[|actions| - 1])
  }

  /** A type entry: attempted at least once, never more correct answers than
      attempts, accuracy the rounded percentage of correct answers. */
  ghost predicate TypeStatValid(e: TypeStat) {
    e.attempts >= 1 && e.correct <= e.attempts && e.accuracy == Percent(e.correct, e.attempts)
  }

  /** The accuracy always agrees with score and attempts, every type entry is
      consistent, and the history respects its bound. */
  ghost predicate Valid(s: Stats) {
    && s.accuracy == AccuracyOf(s.score, s.attempts)
    && |s.history| <= HistoryLimit
    && forall t :: t in s.typeStats ==> TypeStatValid(s.typeStats[t])
  }

  /** updateTypeStats on the map as a whole: the listed types gain an entry,
      and types not listed are untouched. */
  lemma {:induction false} BumpAllKeys(m: map<string, TypeStat>, types: seq<string>, isCorrect: bool, t: string)
    ensures BumpAll(m, types, isCorrect).Keys == m.Keys + Elements(types)
    ensures t !in types && t in m ==> BumpAll(m, types, isCorrect)[t] == m[t]
  {
    if types != [] {
      var init, last := types[..|types| - 1], types[|types| - 1];
      BumpAllKeys(m, init, isCorrect, t);
      assert types == init + [last];
      assert Elements(types) == Elements(init) + {last};
    }
  }

  /** The effect of updateTypeStats on one listed type t: its entry gains one
      attempt per occurrence of t, and as many correct answers when the round
      was correct; its accuracy is recomputed. */
  lemma {:induction false} BumpAllEntry(m: map<string, TypeStat>, types: seq<string>, isCorrect: bool, t: string)
    ensures t in types <==> Count(types, t) > 0
    ensures t in types ==> t in BumpAll(m, types, isCorrect)
    ensures t in types ==>
      var base := if t in m then m[t] else Fresh;
      var e := BumpAll(m, types, isCorrect)[t];
      && e.attempts == base.attempts + Count(types, t)
      && e.correct == base.correct + (if isCorrect then Count(types, t) else 0)
      && e.accuracy == Percent(e.correct, e.attempts)
  {
    CountZero(types, t);
    BumpAllKeys(m, types, isCorrect, t);
    if types != [] {
      var init, last := types[..|types| - 1], types[|types| - 1];
      BumpAllEntry(m, init, isCorrect, t);
      BumpAllKeys(m, init, isCorrect, t);
      CountZero(init, t);
      assert types == init + [last];
    }
  }

  /** updateTypeStats keeps every entry consistent. */
  lemma {:induction false} BumpAllPreservesValid(m: map<string, TypeStat>, types: seq<string>, isCorrect: bool)
    requires forall t :: t in m ==> TypeStatValid(m[t])
    ensures forall t :: t in BumpAll(m, types, isCorrect) ==> TypeStatValid(BumpAll(m, types, isCorrect)[t])
  {
    if types != [] {
      var prev := BumpAll(m, types[..|types| - 1], isCorrect);
      BumpAllPreservesValid(m, types[..|types| - 1], isCorrect);
      var last := types[|types| - 1];
      var r := Bump(prev, last, isCorrect);
      forall t | t in r ensures TypeStatValid(r[t]) {
        if t != last {
          assert r[t] == prev[t];
        } else if last in prev {
          assert TypeStatValid(prev[last]);
        }
      }
    }
  }

  /** A correct answer adds one to the score, lifts the best score to it when
      it falls behind, and recomputes the accuracy. */
  lemma IncrementScoreEffect(s: Stats)
    ensures var r := Reduce(s, IncrementScore);
      && r.score == s.score + 1
      && r.bestScore == Max(s.bestScore, s.score + 1)
      && r.accuracy == (if s.attempts > 0 then RoundDiv((s.score + 1) * 100, s.attempts) else 0)
      && r.attempts == s.attempts && r.typeStats == s.typeStats && r.history == s.history
  {
  }

  /** Score 2 of 4 attempts, then a correct answer: accuracy 75. */
  lemma AccuracyScenario(s: Stats)
    requires s.score == 2 && s.attempts == 4
    ensures Reduce(s, IncrementScore).score == 3
    ensures Reduce(s, IncrementScore).accuracy == 75
  {
  }

  /** As long as the score does not exceed the attempts the accuracy is a
      percentage. */
  lemma AccuracyIsPercentage(s: Stats)
    requires Valid(s) && s.score <= s.attempts
    ensures s.accuracy <= 100
  {
  }

  lemma ReducePreservesValid(s: Stats, a: Action)
    requires Valid(s)
    ensures Valid(Reduce(s, a))
  {
    if a.UpdateTypeStats? {
      BumpAllPreservesValid(s.typeStats, a.types, a.isCorrect);
    }
  }

  /** The invariant holds in every state reachable from the initial one. */
  lemma {:induction false} ReachableValid(actions: seq<Action>)
    ensures Valid(ReduceAll(Initial, actions))
  {
    if actions != [] {
      ReachableValid(actions[..|actions| - 1]);
      ReducePreservesValid(ReduceAll(Initial, actions[..|actions| - 1]), actions[|actions| - 1]);
    }
  }

  /** The slice's state object, updated in place by the reducers. */
  class TypeMatcherStats {
    var score: nat
    var attempts: nat
    var bestScore: nat
    var accuracy: nat
    var typeStats: map<string, TypeStat>
    var history: seq<HistoryEntry>

    ghost function State(): Stats
      reads this
    {
      Stats(score, attempts, bestScore, accuracy, typeStats, history)
    }

    constructor ()
      ensures State() == Initial
    {
      score, attempts, bestScore, accuracy := 0, 0, 0, 0;
      typeStats := map[];
      history := [];
    }

    method IncrementScore()
      modifies this
      ensures State() == Reduce(old(State()), Action.IncrementScore)
    {
      score := score + 1;
      if score > bestScore {
        bestScore := score;
      }
      accuracy := if attempts > 0 then Percent(score, attempts) else 0;
    }

    method IncrementAttempts()
      modifies this
      ensures State() == Reduce(old(State()), Action.IncrementAttempts)
    {
      attempts := attempts + 1;
      accuracy := Percent(score, attempts);
    }

    method UpdateTypeStats(types: seq<string>, isCorrect: bool)
      modifies this
      ensures State() == Reduce(old(State()), Action.UpdateTypeStats(types, isCorrect))
    {
      for i := 0 to |types|
        invariant typeStats == BumpAll(old(typeStats), types[..i], isCorrect)
        invariant score == old(score) && attempts == old(attempts) && bestScore == old(bestScore)
        invariant accuracy == old(accuracy) && history == old(history)
      {
        ghost var before := typeStats;
        var t := types[i];
        // The entry is a value: it is created when absent, updated field by
        // field, and stored back under its type.
        var entry := if t in typeStats then typeStats[t] else Fresh;
        entry := entry.(attempts := entry.attempts + 1);
        if isCorrect {
          entry := entry.(correct := entry.correct + 1);
        }
        entry := entry.(accuracy := Percent(entry.correct, entry.attempts));
        typeStats := typeStats[t := entry];
        BumpStores(before, t, isCorrect, entry);
        BumpAllSnoc(old(typeStats), types, isCorrect, i);
      }
      assert types[..|types|] == types;
    }

    method AddToHistory(entry: HistoryEntry)
      modifies this
      ensures State() == Reduce(old(State()), Action.AddToHistory(entry))
    {
      history := [entry] + history;
      if |history| > HistoryLimit {
        history := history[..|history| - 1];
      }
    }

    method ResetGame()
      modifies this
      ensures State() == Reduce(old(State()), Action.ResetGame)
    {
      score := 0;
      attempts := 0;
      accuracy := 0;
    }

    method ResetStats()
      modifies this
      ensures State() == Reduce(old(State()), Action.ResetStats)
    {
      bestScore := 0;
      typeStats := map[];
      history := [];
    }

    method ResetAll()
      modifies this
      ensures State() == Initial
    {
      score, attempts, bestScore, accuracy := 0, 0, 0, 0;
      typeStats := map[];
      history := [];
    }
  }
}
