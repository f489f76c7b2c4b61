/** Definitions shared by the three reducers and the three round controllers:
    the nullable value, the record the Pokémon provider returns, the bounded
    newest-first history, Math.round on a ratio of naturals, and the shuffle. */
module Common {

  /** A JavaScript value that may be null (or an absent array slot). */
  datatype Option<+T> = None | Some(value: T)

  /** A record as the external Pokémon provider returns it. The artwork URL
      is display-only and is not part of the model. */
  datatype Pokemon = Pokemon(id: int, name: string, types: seq<string>)

  /** Highest Pokémon key the games draw from (the first generation). */
  const MaxPokemonId := 151

  /** Number of entries every reducer keeps in its history. */
  const HistoryLimit := 20

  function Min(a: int, b: int): int { if a <= b then a else b }

  function Max(a: int, b: int): int { if a <= b then b else a }

  /** No element occurs twice. */
  ghost predicate Distinct<T>(s: seq<T>) {
    forall i, j :: 0 <= i < j < |s| ==> s[i] != s[j]
  }

  function Elements<T>(s: seq<T>): set<T> {
    set x | x in s
  }

  lemma {:induction false} DistinctCardinality<T>(s: seq<T>)
    requires Distinct(s)
    ensures |Elements(s)| == |s|
  {
    if s != [] {
      var init := s[..|s| - 1];
      DistinctCardinality(init);
      assert Elements(s) == Elements(init) + {s[|s| - 1]};
      assert s[|s| - 1] !in Elements(init);
    }
  }

  /** The elements of any sequence number at most its length. */
  lemma {:induction false} ElementsCardinality<T>(s: seq<T>)
    ensures |Elements(s)| <= |s|
  {
    if s != [] {
      var init := s[..|s| - 1];
      ElementsCardinality(init);
      assert Elements(s) == Elements(init) + {s[|s| - 1]};
    }
  }

  /** A subset as large as its superset is the superset. */
  lemma SubsetOfSameSize<T>(a: set<T>, b: set<T>)
    requires a <= b && |a| == |b|
    ensures a == b
  {
    assert |b - a| == |b| - |a|;
  }

  // ---------------------------------------------------------------------
  // History: `history.unshift(entry)` followed by one `history.pop()` when
  // the length went over the limit.

  function PushCapped<T>(history: seq<T>, entry: T): (r: seq<T>)
    ensures |r| == if |history| + 1 > HistoryLimit then |history| else |history| + 1
    ensures r[0] == entry
    ensures r[1..] == history[..|r| - 1]
    ensures |history| <= HistoryLimit ==> |r| <= HistoryLimit
  {
    var grown := [entry] + history;
    if |grown| > HistoryLimit then grown[..|grown| - 1] else grown
  }

  /** Pushes the entries of `entries` one after the other, first to last. */
  function PushAll<T>(history: seq<T>, entries: seq<T>): seq<T>
  {
    if entries == [] then history
    else PushCapped(PushAll(history, entries[..|entries| - 1]), entries[|entries| - 1])
  }

  function Reversed<T>(s: seq<T>): (r: seq<T>)
    ensures |r| == |s|
  {
    if s == [] then [] else [s[|s| - 1]] + Reversed(s[..|s| - 1])
  }

  /** One push onto a capped prefix of `rest` is the capped prefix of
      `[e] + rest`. */
  lemma PushCappedPrefix<T>(before: seq<T>, e: T, rest: seq<T>)
    requires |before| == Min(HistoryLimit, |rest|) && before == rest[..|before|]
    ensures PushCapped(before, e) == ([e] + rest)[..Min(HistoryLimit, |rest| + 1)]
  {
    var r := PushCapped(before, e);
    var all := [e] + rest;
    var n := Min(HistoryLimit, |rest| + 1);
    assert |r| == n;
    forall k | 0 <= k < n ensures r[k] == all[k] {
      if k > 0 {
        assert r[k] == r[1..][k - 1] == before[k - 1];
      }
    }
  }

  /** However many entries are pushed onto a history that respects the limit,
      the result is the newest entries first, followed by the older history,
      cut to at most HistoryLimit entries. */
  lemma {:induction false} PushAllKeepsNewest<T>(history: seq<T>, entries: seq<T>)
    requires |history| <= HistoryLimit
    ensures PushAll(history, entries)
            == (Reversed(entries) + history)[..Min(HistoryLimit, |entries| + |history|)]
  {
    if entries == [] {
      assert Reversed(entries) + history == history;
    } else {
      var init, e := entries[..|entries| - 1], entries[|entries| - 1];
      PushAllKeepsNewest(history, init);
      var rest := Reversed(init) + history;
      assert Reversed(entries) + history == [e] + rest;
      PushCappedPrefix(PushAll(history, init), e, rest);
    }
  }

  // ---------------------------------------------------------------------
  // Math.round(n / d) for naturals: the nearest integer, halves rounded up.

  function RoundDiv(n: nat, d: nat): (r: nat)
    requires d > 0
    ensures 2 * d * r <= 2 * n + d < 2 * d * (r + 1)
  {
    (2 * n + d) / (2 * d)
  }

  lemma MulMonotone(m: nat, a: int, b: int)
    requires a <= b
    ensures m * a <= m * b
  {
    assert m * b == m * a + m * (b - a);
  }

  /** A ratio that is a whole number rounds to itself. */
  lemma RoundDivExact(k: nat, d: nat)
    requires d > 0
    ensures RoundDiv(k * d, d) == k
  {
    var r := RoundDiv(k * d, d);
    assert 2 * d * r <= 2 * d * k + d < 2 * d * (r + 1);
    if r > k {
      MulMonotone(2 * d, k + 1, r);
    } else if r < k {
      MulMonotone(2 * d, r + 1, k);
    }
  }

  /** Rounding a ratio that lies between two whole numbers stays between them. */
  lemma RoundDivBetween(n: nat, d: nat, lo: nat, hi: nat)
    requires d > 0 && lo * d <= n <= hi * d
    ensures lo <= RoundDiv(n, d) <= hi
  {
    var r := RoundDiv(n, d);
    assert 2 * d * (hi + 1) == 2 * (hi * d) + 2 * d;
    assert 2 * d * lo == 2 * (lo * d);
    assert 2 * d * (r + 1) == 2 * d * r + 2 * d;
    if r > hi {
      MulMonotone(2 * d, hi + 1, r);
    }
    if r < lo {
      MulMonotone(2 * d, r + 1, lo);
    }
  }

  /** An accuracy percentage, `Math.round((hits / tries) * 100)`, computed on exact rationals. */
  function Percent(hits: nat, tries: nat): (r: nat)
    requires tries > 0
    ensures hits <= tries ==> r <= 100
    ensures hits == tries ==> r == 100
    ensures hits == 0 ==> r == 0
  {
    PercentRange(hits, tries);
    RoundDiv(hits * 100, tries)
  }

  lemma PercentRange(hits: nat, tries: nat)
    requires tries > 0
    ensures hits <= tries ==> RoundDiv(hits * 100, tries) <= 100
    ensures hits == tries ==> RoundDiv(hits * 100, tries) == 100
    ensures hits == 0 ==> RoundDiv(hits * 100, tries) == 0
  {
    if hits <= tries {
      assert hits * 100 <= 100 * tries;
      RoundDivBetween(hits * 100, tries, 0, 100);
    }
    if hits == tries { RoundDivExact(100, tries); }
    if hits == 0 { RoundDivExact(0, tries); }
  }

  // ---------------------------------------------------------------------
  // The shuffle. `array.sort(() => Math.random() - 0.5)` reorders the array
  // in place; whatever the comparator answers, the outcome is reached by a
  // sequence of exchanges, which is what a caller supplies here.

  ghost predicate SwapsWithin(swaps: seq<(nat, nat)>, n: nat) {
    forall k :: 0 <= k < |swaps| ==> swaps[k].0 < n && swaps[k].1 < n
  }

  function ApplySwaps<T>(s: seq<T>, swaps: seq<(nat, nat)>): (r: seq<T>)
    requires SwapsWithin(swaps, |s|)
    ensures |r| == |s|
  {
    if swaps == [] then s
    else
      var t := ApplySwaps(s, swaps[..|swaps| - 1]);
      var (i, j) := swaps[|swaps| - 1];
      t[i := t[j]][j := t[i]]
  }

  /** The shuffle is a permutation: it neither loses nor duplicates an element. */
  lemma {:induction false} ApplySwapsPermutes<T>(s: seq<T>, swaps: seq<(nat, nat)>)
    requires SwapsWithin(swaps, |s|)
    ensures multiset(ApplySwaps(s, swaps)) == multiset(s)
  {
    if swaps != [] {
      var init := swaps[..|swaps| - 1];
      ApplySwapsPermutes(s, init);
      var t := ApplySwaps(s, init);
      var (i, j) := swaps[|swaps| - 1];
      assert multiset(t[i := t[j]]) == multiset(t) - multiset{t[i]} + multiset{t[j]};
    }
  }

  /** `s.map(f)`. */
  function Project<T, U>(s: seq<T>, f: T -> U): (r: seq<U>)
    ensures |r| == |s|
    ensures forall k :: 0 <= k < |s| ==> r[k] == f(s[k])
  {
    seq(|s|, k requires 0 <= k < |s| => f(s[k]))
  }

  lemma ConcatAssoc<T>(a: seq<T>, b: seq<T>, c: seq<T>)
    ensures a + (b + c) == (a + b) + c
  {
  }

  /** Mapping distributes over concatenation. */
  lemma ProjectConcat<T, U>(a: seq<T>, b: seq<T>, f: T -> U)
    ensures Project(a + b, f) == Project(a, f) + Project(b, f)
  {
    assert forall k :: 0 <= k < |b| ==> (a + b)[|a| + k] == b[k];
  }

  /** Shuffling and then projecting is projecting and then shuffling. */
  lemma {:induction false} ProjectSwaps<T, U>(s: seq<T>, f: T -> U, swaps: seq<(nat, nat)>)
    requires SwapsWithin(swaps, |s|)
    ensures Project(ApplySwaps(s, swaps), f) == ApplySwaps(Project(s, f), swaps)
  {
    if swaps != [] {
      ProjectSwaps(s, f, swaps[..|swaps| - 1]);
    }
  }

  /** Shuffling keeps the elements pairwise different. */
  lemma {:induction false} SwapsKeepDistinct<T>(s: seq<T>, swaps: seq<(nat, nat)>)
    requires SwapsWithin(swaps, |s|) && Distinct(s)
    ensures Distinct(ApplySwaps(s, swaps))
  {
    if swaps != [] {
      SwapsKeepDistinct(s, swaps[..|swaps| - 1]);
    }
  }

  /** Shuffling neither adds nor removes a value. */
  lemma SwapsKeepElements<T>(s: seq<T>, swaps: seq<(nat, nat)>, x: T)
    requires SwapsWithin(swaps, |s|)
    ensures x in ApplySwaps(s, swaps) <==> x in s
  {
    ApplySwapsPermutes(s, swaps);
    assert x in ApplySwaps(s, swaps) <==> x in multiset(ApplySwaps(s, swaps));
  }

  /** The different values of s, in order of first occurrence. */
  function Dedup(s: seq<int>): seq<int>
  {
    if s == [] then []
    else
      var init := s[..|s| - 1];
      if s[|s| - 1] in init then Dedup(init) else Dedup(init) + [s[|s| - 1]]
  }

  lemma {:induction false} DedupFacts(s: seq<int>)
    ensures Distinct(Dedup(s))
    ensures Elements(Dedup(s)) == Elements(s)
  {
    if s != [] {
      var init := s[..|s| - 1];
      DedupFacts(init);
      assert Elements(s) == Elements(init) + {s[|s| - 1]};
    }
  }

  /** Looking at fewer draws yields a prefix of the different values. */
  lemma {:induction false} DedupPrefix(s: seq<int>, i: nat)
    requires i <= |s|
    ensures Dedup(s[..i]) <= Dedup(s)
  {
    if i < |s| {
      var init := s[..|s| - 1];
      assert s[..i] == init[..i];
      DedupPrefix(init, i);
    } else {
      assert s[..i] == s;
    }
  }
}
