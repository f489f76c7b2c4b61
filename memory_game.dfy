/** The memory game's round controller (src/components/MemoryGame/MemoryGame.jsx)
    without its rendering: the time display, the choice of six different
    Pokémon, the deck of pairs, the click guard, the resolution of a face-up
    pair, the win check and the restart. Random draws, the provider's answers
    and the shuffle are parameters. */
module MemoryGame {
  import opened Common
  import opened Text
  import MG = MemoryGameSlice

  /** Pairs on the table: 6 pairs, 12 cards. */
  const NumberOfPairs := 6

  // ---------------------------------------------------------------------
  // formatTime

  /** `formatTime`: minutes padded to two digits, a colon, seconds padded to two digits. */
  function FormatTime(seconds: nat): (r: string)
    ensures |r| >= 5 && r[|r| - 3] == ':'
    ensures AllDigits(r[..|r| - 3]) && AllDigits(r[|r| - 2..])
    ensures DecimalValue(r[|r| - 2..]) < 60
    ensures seconds < 6000 ==> |r| == 5
  {
    var mins := Pad2(seconds / 60);
    var secs := Pad2(seconds % 60);
    assert (mins + ":" + secs)[|mins| + 1..] == secs;
    assert (mins + ":" + secs)[..|mins|] == mins;
    mins + ":" + secs
  }

  /** Reads an "MM:SS" display back as a number of seconds. */
  function ParseTime(t: string): nat
    requires |t| >= 3 && AllDigits(t[..|t| - 3]) && AllDigits(t[|t| - 2..])
  {
    DecimalValue(t[..|t| - 3]) * 60 + DecimalValue(t[|t| - 2..])
  }

  /** The display loses nothing: it reads back as the elapsed seconds. */
  lemma FormatTimeRoundTrip(seconds: nat)
    ensures ParseTime(FormatTime(seconds)) == seconds
  {
    var mins := Pad2(seconds / 60);
    var secs := Pad2(seconds % 60);
    var t := FormatTime(seconds);
    assert t[|t| - 2..] == secs;
    assert t[..|t| - 3] == mins;
  }

  // ---------------------------------------------------------------------
  // Choosing six different Pokémon: the `while` loop over random draws.

  /** The Pokémon keys a round is dealt: the first six different draws. */
  function ChosenIds(draws: seq<int>): (ids: seq<int>)
    requires |Elements(draws)| >= NumberOfPairs
    ensures |ids| == NumberOfPairs && Distinct(ids)
    ensures forall k :: 0 <= k < |ids| ==> ids[k] in draws
  {
    DedupFacts(draws);
    DistinctCardinality(Dedup(draws));
    var ids := Dedup(draws)[..NumberOfPairs];
    assert forall k :: 0 <= k < |ids| ==> ids[k] in Elements(Dedup(draws));
    ids
  }

  /** The id-selection loop of `fetchPokemonCards`: draw until six different
      keys are in `usedIds`. It ends only if the draws hold six different
      values, which the caller promises. */
  method SelectIds(draws: seq<int>) returns (ids: seq<int>)
    requires forall k :: 0 <= k < |draws| ==> 1 <= draws[k] <= MaxPokemonId
    requires |Elements(draws)| >= NumberOfPairs
    ensures ids == ChosenIds(draws)
    ensures forall k :: 0 <= k < |ids| ==> 1 <= ids[k] <= MaxPokemonId
  {
    DedupFacts(draws);
    DistinctCardinality(Dedup(draws));
    ids := [];
    var usedIds: set<int> := {};
    var i := 0;
    assert draws[..|draws|] == draws;
    while |ids| < NumberOfPairs
      invariant i <= |draws|
      invariant ids == Dedup(draws[..i])
      invariant usedIds == Elements(draws[..i])
      invariant |ids| <= NumberOfPairs
      decreases |draws| - i
    {
      var randomId := draws[i];
      if randomId !in usedIds {
        usedIds := usedIds + {randomId};
        ids := ids + [randomId];
      }
      i := i + 1;
      assert draws[..i][..i - 1] == draws[..i - 1];
      assert Elements(draws[..i]) == Elements(draws[..i - 1]) + {randomId};
    }
    DedupPrefix(draws, i);
    assert ids == Dedup(draws)[..NumberOfPairs];
    forall k | 0 <= k < |ids| ensures 1 <= ids[k] <= MaxPokemonId {
      assert ids[k] in Elements(Dedup(draws));
    }
  }

  // ---------------------------------------------------------------------
  // The deck.

  datatype Card = Card(id: string, pokemonId: int, name: string, isFlipped: bool, isMatched: bool)

  function IdOf(c: Card): string { c.id }

  function PokemonIdOf(c: Card): int { c.pokemonId }

  function KeyOf(p: Pokemon): int { p.id }

  /** The card id `${index}-a` or `${index}-b`. */
  function CardId(index: nat, side: char): string
  {
    NatToString(index) + "-" + [side]
  }

  /** Different pairs or different sides never share a card id. */
  lemma CardIdInjective(i: nat, a: char, j: nat, b: char)
    requires CardId(i, a) == CardId(j, b)
    ensures i == j && a == b
  {
    var x, y := CardId(i, a), CardId(j, b);
    assert x[|x| - 1] == a && y[|y| - 1] == b;
    assert x[..|x| - 2] == NatToString(i);
    assert y[..|y| - 2] == NatToString(j);
    NatToStringInjective(i, j);
  }

  /** The two face-down cards for the index-th Pokémon. */
  function PairCards(p: Pokemon, index: nat): seq<Card>
  {
    [Card(CardId(index, 'a'), p.id, p.name, false, false),
     Card(CardId(index, 'b'), p.id, p.name, false, false)]
  }

  /** `responses.flatMap(...)`: card 2i and card 2i+1 are the pair of Pokémon i. */
  function BuildDeck(ps: seq<Pokemon>): (deck: seq<Card>)
    ensures |deck| == 2 * |ps|
    ensures forall k :: 0 <= k < |deck| ==> deck[k] == PairCards(ps[k / 2], k / 2)[k % 2]
  {
    if ps == [] then []
    else BuildDeck(ps[..|ps| - 1]) + PairCards(ps[|ps| - 1], |ps| - 1)
  }

  /** Every chosen id could be fetched. */
  predicate AllFetched(ids: seq<int>, provider: map<int, Pokemon>)
  {
    forall k :: 0 <= k < |ids| ==> ids[k] in provider
  }

  /** `Promise.all(ids.map(fetch))` when every fetch succeeds: the responses in id order. */
  function Responses(ids: seq<int>, provider: map<int, Pokemon>): (r: seq<Pokemon>)
    requires AllFetched(ids, provider)
    ensures |r| == |ids| && forall k :: 0 <= k < |ids| ==> r[k] == provider[ids[k]]
  {
    seq(|ids|, k requires 0 <= k < |ids| => provider[ids[k]])
  }

  /** The dealt round: the deck, shuffled. */
  function Deal(ps: seq<Pokemon>, swaps: seq<(nat, nat)>): seq<Card>
    requires SwapsWithin(swaps, 2 * |ps|)
  {
    ApplySwaps(BuildDeck(ps), swaps)
  }

  lemma DeckIdsDistinct(ps: seq<Pokemon>)
    ensures Distinct(Project(BuildDeck(ps), IdOf))
  {
    var deck := BuildDeck(ps);
    var ids := Project(deck, IdOf);
    forall k1, k2 | 0 <= k1 < k2 < |ids| ensures ids[k1] != ids[k2] {
      var s1 := if k1 % 2 == 0 then 'a' else 'b';
      var s2 := if k2 % 2 == 0 then 'a' else 'b';
      assert ids[k1] == CardId(k1 / 2, s1);
      assert ids[k2] == CardId(k2 / 2, s2);
      if ids[k1] == ids[k2] {
        CardIdInjective(k1 / 2, s1, k2 / 2, s2);
      }
    }
  }

  /** Dealing one more Pokémon appends its key twice to the deck's keys. */
  lemma DeckKeysSnoc(init: seq<Pokemon>, p: Pokemon)
    ensures Project(BuildDeck(init + [p]), PokemonIdOf)
            == Project(BuildDeck(init), PokemonIdOf) + [p.id, p.id]
  {
    var ps := init + [p];
    assert ps[..|ps| - 1] == init;
    PairKeys(p, |init|);
    ProjectConcat(BuildDeck(init), PairCards(p, |init|), PokemonIdOf);
  }

  /** Each Pokémon of the round contributes exactly two cards. */
  lemma {:induction false} DeckKeys(ps: seq<Pokemon>)
    ensures multiset(Project(BuildDeck(ps), PokemonIdOf))
            == multiset(Project(ps, KeyOf)) + multiset(Project(ps, KeyOf))
  {
    if ps != [] {
      var init, p := ps[..|ps| - 1], ps[|ps| - 1];
      assert ps == init + [p];
      DeckKeys(init);
      DeckKeysSnoc(init, p);
      KeysSnoc(init, p);
    }
  }

  lemma PairKeys(p: Pokemon, index: nat)
    ensures Project(PairCards(p, index), PokemonIdOf) == [p.id, p.id]
  {
    var keys := Project(PairCards(p, index), PokemonIdOf);
    assert keys[0] == p.id && keys[1] == p.id;
  }

  lemma KeysSnoc(init: seq<Pokemon>, p: Pokemon)
    ensures Project(init + [p], KeyOf) == Project(init, KeyOf) + [p.id]
  {
    ProjectConcat(init, [p], KeyOf);
    assert Project([p], KeyOf) == [p.id];
  }

  lemma {:induction false} DistinctMultiplicity(s: seq<int>, x: int)
    requires Distinct(s) && x in s
    ensures multiset(s)[x] == 1
  {
    var init, last := s[..|s| - 1], s[|s| - 1];
    assert s == init + [last];
    if last == x {
      assert x !in init;
    } else {
      DistinctMultiplicity(init, x);
    }
  }

  /** A freshly dealt round: 2N cards with distinct ids, all face down and
      unmatched, in which every Pokémon key occurs exactly twice when the N
      Pokémon are different. */
  lemma DealFacts(ps: seq<Pokemon>, swaps: seq<(nat, nat)>)
    requires SwapsWithin(swaps, 2 * |ps|)
    ensures var d := Deal(ps, swaps);
      && |d| == 2 * |ps|
      && Distinct(Project(d, IdOf))
      && (forall k :: 0 <= k < |d| ==> !d[k].isFlipped && !d[k].isMatched)
      && multiset(Project(d, PokemonIdOf)) == multiset(Project(ps, KeyOf)) + multiset(Project(ps, KeyOf))
      && (Distinct(Project(ps, KeyOf)) ==>
            forall x :: x in Project(d, PokemonIdOf) ==> multiset(Project(d, PokemonIdOf))[x] == 2)
  {
    var deck := BuildDeck(ps);
    var d := Deal(ps, swaps);
    DeckIdsDistinct(ps);
    ProjectSwaps(deck, IdOf, swaps);
    SwapsKeepDistinct(Project(deck, IdOf), swaps);
    forall k | 0 <= k < |d| ensures !d[k].isFlipped && !d[k].isMatched {
      SwapsKeepElements(deck, swaps, d[k]);
    }
    DeckKeys(ps);
    ProjectSwaps(deck, PokemonIdOf, swaps);
    ApplySwapsPermutes(Project(deck, PokemonIdOf), swaps);
    var keys := Project(ps, KeyOf);
    if Distinct(keys) {
      forall x | x in Project(d, PokemonIdOf)
        ensures multiset(Project(d, PokemonIdOf))[x] == 2
      {
        assert x in multiset(Project(d, PokemonIdOf));
        assert x in multiset(keys);
        DistinctMultiplicity(keys, x);
      }
    }
  }

  // ---------------------------------------------------------------------
  // Card updates (`prevCards.map(...)`) and lookup (`cards.find(...)`).

  /** The position of the first card with the given id, if any. */
  function FindIndex(cards: seq<Card>, id: string): (r: Option<nat>)
    ensures r.Some? ==> r.value < |cards| && cards[r.value].id == id
    ensures r.Some? ==> forall j :: 0 <= j < r.value ==> cards[j].id != id
    ensures r.None? ==> forall k :: 0 <= k < |cards| ==> cards[k].id != id
  {
    if cards == [] then None
    else if cards[0].id == id then Some(0)
    else match FindIndex(cards[1..], id)
      case None => None
      case Some(j) => Some(j + 1)
  }

  function FlipUp(cards: seq<Card>, id: string): (r: seq<Card>)
  {
    seq(|cards|, k requires 0 <= k < |cards| =>
      if cards[k].id == id then cards[k].(isFlipped := true) else cards[k])
  }

  function MarkMatched(cards: seq<Card>, a: string, b: string): (r: seq<Card>)
  {
    seq(|cards|, k requires 0 <= k < |cards| =>
      if cards[k].id == a || cards[k].id == b then cards[k].(isMatched := true) else cards[k])
  }

  function FlipDown(cards: seq<Card>, a: string, b: string): (r: seq<Card>)
  {
    seq(|cards|, k requires 0 <= k < |cards| =>
      if cards[k].id == a || cards[k].id == b then cards[k].(isFlipped := false) else cards[k])
  }

  // ---------------------------------------------------------------------
  // The round invariant.

  /** How cards, face-up ids and matched ids fit together: card ids are
      unique; at most two distinct, unmatched cards are face up; the matched
      ids are distinct ids of cards and are exactly the matched cards; a card
      shows its face exactly when it is face up or matched. */
  ghost predicate Consistent(cards: seq<Card>, flipped: seq<string>, matched: seq<string>)
  {
    && Distinct(Project(cards, IdOf))
    && Distinct(flipped) && |flipped| <= 2
    && Distinct(matched)
    && (forall id :: id in flipped ==> id in Project(cards, IdOf))
    && (forall id :: id in matched ==> id in Project(cards, IdOf))
    && (forall k :: 0 <= k < |cards| ==> (cards[k].isMatched <==> cards[k].id in matched))
    && (forall k :: 0 <= k < |cards| ==> (cards[k].isFlipped <==> cards[k].id in flipped || cards[k].isMatched))
    && (forall k :: 0 <= k < |cards| ==> cards[k].id in flipped ==> !cards[k].isMatched)
  }

  /** A freshly dealt table with nothing flipped or matched is consistent. */
  lemma FreshTableConsistent(cards: seq<Card>)
    requires Distinct(Project(cards, IdOf))
    requires forall k :: 0 <= k < |cards| ==> !cards[k].isFlipped && !cards[k].isMatched
    ensures Consistent(cards, [], [])
  {
  }

  /** The win check compares lengths; that is the same as every card being matched. */
  lemma AllMatchedIff(cards: seq<Card>, flipped: seq<string>, matched: seq<string>)
    requires Consistent(cards, flipped, matched)
    ensures |matched| == |cards| <==> forall k :: 0 <= k < |cards| ==> cards[k].isMatched
  {
    var ids := Project(cards, IdOf);
    DistinctCardinality(ids);
    DistinctCardinality(matched);
    assert Elements(matched) <= Elements(ids);
    if |matched| == |cards| {
      SubsetOfSameSize(Elements(matched), Elements(ids));
      forall k | 0 <= k < |cards| ensures cards[k].isMatched {
        assert ids[k] in Elements(ids);
      }
    }
    if forall k :: 0 <= k < |cards| ==> cards[k].isMatched {
      forall x | x in Elements(ids) ensures x in Elements(matched) {
        var k :| 0 <= k < |ids| && ids[k] == x;
        assert cards[k].isMatched;
      }
      assert Elements(ids) == Elements(matched);
    }
  }

  /** An accepted click keeps the round consistent. */
  lemma ClickKeepsConsistent(cards: seq<Card>, flipped: seq<string>, matched: seq<string>, k: nat)
    requires Consistent(cards, flipped, matched) && |flipped| < 2
    requires k < |cards| && !cards[k].isMatched && cards[k].id !in flipped
    ensures Consistent(FlipUp(cards, cards[k].id), flipped + [cards[k].id], matched)
  {
    var id := cards[k].id;
    var r := FlipUp(cards, id);
    assert Project(r, IdOf) == Project(cards, IdOf);
    forall j | 0 <= j < |cards| && j != k ensures cards[j].id != id {
      assert Project(cards, IdOf)[j] != Project(cards, IdOf)[k];
    }
  }

  /** Resolving a matching pair keeps the round consistent and adds its two ids. */
  lemma MatchKeepsConsistent(cards: seq<Card>, a: string, b: string, matched: seq<string>)
    requires Consistent(cards, [a, b], matched)
    ensures Consistent(MarkMatched(cards, a, b), [], matched + [a, b])
  {
    var r := MarkMatched(cards, a, b);
    assert Project(r, IdOf) == Project(cards, IdOf);
    forall x | x == a || x == b ensures x !in matched {
      assert x in [a, b];
      var k :| 0 <= k < |cards| && Project(cards, IdOf)[k] == x;
      assert !cards[k].isMatched;
    }
    assert [a, b][0] != [a, b][1];
    var m := matched + [a, b];
    forall i, j | 0 <= i < j < |m| ensures m[i] != m[j] {
      if j >= |matched| && i < |matched| {
        assert m[i] in matched;
      }
    }
  }

  /** Turning a non-matching pair back keeps the round consistent. */
  lemma MismatchKeepsConsistent(cards: seq<Card>, a: string, b: string, matched: seq<string>)
    requires Consistent(cards, [a, b], matched)
    ensures Consistent(FlipDown(cards, a, b), [], matched)
  {
    var r := FlipDown(cards, a, b);
    assert Project(r, IdOf) == Project(cards, IdOf);
  }

  /** The round controller's own state; `stats` is the store it dispatches to. */
  class MemoryGame {
    var cards: seq<Card>
    var flippedCards: seq<string>
    var matchedCards: seq<string>
    var isPlaying: bool
    var isLoading: bool
    var gameWon: bool
    const stats: MG.MemoryStats

    /** Besides consistency: the round is won exactly when it has cards and
        all of them are matched, and a won round is stopped with no card face up. */
    ghost predicate Valid()
      reads this
    {
      && Consistent(cards, flippedCards, matchedCards)
      && (gameWon <==> 0 < |cards| == |matchedCards|)
      && (gameWon ==> !isPlaying && flippedCards == [])
    }

    /** The guards of `handleCardClick` all let this click through. */
    ghost predicate AcceptsClick(cardId: string)
      reads this
    {
      && !gameWon
      && |flippedCards| != 2
      && var k := FindIndex(cards, cardId);
         k.Some? && !cards[k.value].isMatched && cardId !in flippedCards
    }

    /** The two face-up cards show the same Pokémon. */
    ghost predicate PairMatches()
      reads this
      requires |flippedCards| == 2
    {
      var i, j := FindIndex(cards, flippedCards[0]), FindIndex(cards, flippedCards[1]);
      i.Some? && j.Some? && cards[i.value].pokemonId == cards[j.value].pokemonId
    }

    /** Mounting the component: an empty table, then the first deal. */
    constructor (stats: MG.MemoryStats, draws: seq<int>, provider: map<int, Pokemon>, swaps: seq<(nat, nat)>)
      requires forall k :: 0 <= k < |draws| ==> 1 <= draws[k] <= MaxPokemonId
      requires |Elements(draws)| >= NumberOfPairs
      requires SwapsWithin(swaps, 2 * NumberOfPairs)
      ensures Valid() && this.stats == stats && !isLoading && !isPlaying && !gameWon
      ensures flippedCards == [] && matchedCards == []
      ensures cards == Dealt(draws, provider, swaps)
    {
      this.stats := stats;
      cards, flippedCards, matchedCards := [], [], [];
      isPlaying, isLoading, gameWon := false, true, false;
      new;
      FetchCards(draws, provider, swaps);
    }

    /** What `fetchPokemonCards` puts on the table: the dealt deck when every
        chosen Pokémon could be fetched, nothing otherwise. */
    static ghost function Dealt(draws: seq<int>, provider: map<int, Pokemon>, swaps: seq<(nat, nat)>): seq<Card>
      requires |Elements(draws)| >= NumberOfPairs
      requires SwapsWithin(swaps, 2 * NumberOfPairs)
    {
      var ids := ChosenIds(draws);
      if AllFetched(ids, provider) then Deal(Responses(ids, provider), swaps)
      else []
    }

    /** `fetchPokemonCards`, run on an empty table. */
    method FetchCards(draws: seq<int>, provider: map<int, Pokemon>, swaps: seq<(nat, nat)>)
      requires cards == [] && flippedCards == [] && matchedCards == [] && !gameWon && !isPlaying
      requires forall k :: 0 <= k < |draws| ==> 1 <= draws[k] <= MaxPokemonId
      requires |Elements(draws)| >= NumberOfPairs
      requires SwapsWithin(swaps, 2 * NumberOfPairs)
      modifies this
      ensures Valid() && !isLoading
      ensures flippedCards == [] && matchedCards == [] && !gameWon && !isPlaying
      ensures cards == Dealt(draws, provider, swaps)
      ensures (forall k :: k in provider ==> provider[k].id == k) ==>
        forall x :: x in Project(cards, PokemonIdOf) ==> multiset(Project(cards, PokemonIdOf))[x] == 2
    {
      isLoading := true;
      var ids := SelectIds(draws);
      if AllFetched(ids, provider) {
        var responses := Responses(ids, provider);
        var deck := BuildDeck(responses);
        cards := ApplySwaps(deck, swaps);
        DealFacts(responses, swaps);
        FreshTableConsistent(cards);
        if forall k :: k in provider ==> provider[k].id == k {
          assert Project(responses, KeyOf) == ids;
        }
      }
      isLoading := false;
    }

    /** `handleCardClick`. */
    method ClickCard(cardId: string)
      requires Valid()
      modifies this, stats
      ensures Valid()
      ensures !old(AcceptsClick(cardId)) ==> unchanged(this) && unchanged(stats)
      ensures old(AcceptsClick(cardId)) ==>
        && cards == FlipUp(old(cards), cardId)
        && flippedCards == old(flippedCards) + [cardId]
        && matchedCards == old(matchedCards)
        && isPlaying && isLoading == old(isLoading) && gameWon == old(gameWon)
        && stats.State() == (if |flippedCards| == 2 then MG.Reduce(old(stats.State()), MG.IncrementMoves)
                             else old(stats.State()))
    {
      if gameWon || |flippedCards| == 2 {
        return;
      }
      var k := FindIndex(cards, cardId);
      if k.None? || cards[k.value].isMatched || cardId in flippedCards {
        return;
      }
      if !isPlaying {
        isPlaying := true;
      }
      ClickKeepsConsistent(cards, flippedCards, matchedCards, k.value);
      cards := FlipUp(cards, cardId);
      var newFlippedCards := flippedCards + [cardId];
      flippedCards := newFlippedCards;
      if |newFlippedCards| == 2 {
        stats.IncrementMoves();
      }
    }

    /** `checkForMatch` once its delay has passed, followed by the win-check
        effect: a matching pair is marked matched and its ids recorded, any
        other pair is turned face down; the face-up list is emptied. */
    method ResolvePair(timestamp: int)
      requires Valid() && |flippedCards| == 2
      modifies this, stats
      ensures Valid() && flippedCards == [] && isLoading == old(isLoading)
      ensures old(PairMatches()) ==>
        matchedCards == old(matchedCards) + old(flippedCards)
        && cards == MarkMatched(old(cards), old(flippedCards)[0], old(flippedCards)[1])
      ensures !old(PairMatches()) ==>
        matchedCards == old(matchedCards)
        && cards == FlipDown(old(cards), old(flippedCards)[0], old(flippedCards)[1])
      ensures gameWon ==> !isPlaying && stats.State() == MG.Reduce(old(stats.State()), MG.GameWon(timestamp))
      ensures !gameWon ==> isPlaying == old(isPlaying) && unchanged(stats)
    {
      var firstId, secondId := flippedCards[0], flippedCards[1];
      var i, j := FindIndex(cards, firstId), FindIndex(cards, secondId);
      assert firstId in Project(cards, IdOf) && secondId in Project(cards, IdOf);
      assert flippedCards == [firstId, secondId];
      if cards[i.value].pokemonId == cards[j.value].pokemonId {
        MatchKeepsConsistent(cards, firstId, secondId, matchedCards);
        cards := MarkMatched(cards, firstId, secondId);
        matchedCards := matchedCards + [firstId, secondId];
        flippedCards := [];
      } else {
        MismatchKeepsConsistent(cards, firstId, secondId, matchedCards);
        cards := FlipDown(cards, firstId, secondId);
        flippedCards := [];
      }
      CheckForWin(timestamp);
    }

    /** The win-check effect: a non-empty table whose cards are all matched
        wins the round, stops play and dispatches `gameWon`. */
    method CheckForWin(timestamp: int)
      requires Consistent(cards, flippedCards, matchedCards) && flippedCards == [] && !gameWon
      modifies this, stats
      ensures Valid()
      ensures cards == old(cards) && matchedCards == old(matchedCards) && flippedCards == []
      ensures isLoading == old(isLoading)
      ensures gameWon == (0 < |cards| == |matchedCards|)
      ensures gameWon ==> !isPlaying && stats.State() == MG.Reduce(old(stats.State()), MG.GameWon(timestamp))
      ensures !gameWon ==> isPlaying == old(isPlaying) && unchanged(stats)
    {
      if |cards| > 0 && |matchedCards| == |cards| {
        gameWon := true;
        isPlaying := false;
        stats.GameWon(timestamp);
      }
    }

    /** `handleRestart`: clear the table, reset moves and time, deal again. */
    method Restart(draws: seq<int>, provider: map<int, Pokemon>, swaps: seq<(nat, nat)>)
      requires forall k :: 0 <= k < |draws| ==> 1 <= draws[k] <= MaxPokemonId
      requires |Elements(draws)| >= NumberOfPairs
      requires SwapsWithin(swaps, 2 * NumberOfPairs)
      modifies this, stats
      ensures Valid() && !isLoading && !isPlaying && !gameWon
      ensures flippedCards == [] && matchedCards == []
      ensures cards == Dealt(draws, provider, swaps)
      ensures stats.State() == MG.Reduce(old(stats.State()), MG.ResetCurrentGame)
    {
      cards := [];
      flippedCards := [];
      matchedCards := [];
      stats.ResetCurrentGame();
      isPlaying := false;
      gameWon := false;
      FetchCards(draws, provider, swaps);
    }
  }
}
