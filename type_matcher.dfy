/** The type-matching game's round controller
    (src/components/TypeMatcher/TypeMatcher.jsx) without its rendering:
    dropping dragged type names into the slots of a JavaScript array that
    may have gaps, removing a slot, checking the answer, moving on and
    restarting. Score and attempts live in the component, not in the store. */
module TypeMatcher {
  import opened Common

  datatype Feedback = NoFeedback | Warning | Success | Error

  // ---------------------------------------------------------------------
  // The `droppedTypes` array. `None` is a gap or an `undefined` entry.

  /** JavaScript truthiness of an entry: present and not the empty string. */
  predicate Truthy(o: Option<string>) {
    o.Some? && o.value != ""
  }

  /** `droppedTypes[i]`: out of range reads `undefined`. */
  function SlotAt(dropped: seq<Option<string>>, i: nat): Option<string>
  {
    if i < |dropped| then dropped[i] else None
  }

  /** `copy[i] = v` on a copy: overwrite inside the array, or grow it to
      i + 1 with gaps in between. */
  function SetSlot(dropped: seq<Option<string>>, i: nat, v: string): (r: seq<Option<string>>)
    ensures |r| == Max(|dropped|, i + 1)
    ensures r[i] == Some(v)
    ensures forall k :: 0 <= k < |r| && k != i ==> r[k] == SlotAt(dropped, k)
  {
    if i < |dropped| then dropped[i := Some(v)]
    else dropped + seq(i - |dropped|, _ => None) + [Some(v)]
  }

  /** `copy[index] = null` followed by `filter(t => t !== null)`: the slot
      disappears, later slots move up one place; gaps elsewhere stay. Writing
      past the end only adds gaps and the null, which the filter drops. */
  function RemoveAt(dropped: seq<Option<string>>, index: nat): seq<Option<string>>
  {
    if index < |dropped| then dropped[..index] + dropped[index + 1..] else dropped
  }

  /** `droppedTypes.filter(t => t)`: the filled slots' type names, in order. */
  function Filled(dropped: seq<Option<string>>): seq<string>
  {
    if dropped == [] then []
    else
      var last := dropped[|dropped| - 1];
      Filled(dropped[..|dropped| - 1]) + (if Truthy(last) then [last.value] else [])
  }

  /** The filled names are exactly the non-empty names present; there are
      no more of them than slots, and as many only when every slot is filled. */
  lemma {:induction false} FilledFacts(dropped: seq<Option<string>>)
    ensures |Filled(dropped)| <= |dropped|
    ensures forall x :: x in Filled(dropped) <==> Some(x) in dropped && x != ""
    ensures |Filled(dropped)| == |dropped| ==> forall k :: 0 <= k < |dropped| ==> Truthy(dropped[k])
  {
    if dropped != [] {
      var init := dropped[..|dropped| - 1];
      FilledFacts(init);
      assert dropped == init + [dropped[|dropped| - 1]];
    }
  }

  lemma {:induction false} FilledConcat(a: seq<Option<string>>, b: seq<Option<string>>)
    ensures Filled(a + b) == Filled(a) + Filled(b)
  {
    if b != [] {
      var init := b[..|b| - 1];
      FilledConcat(a, init);
      assert (a + b)[..|a + b| - 1] == a + init;
      assert (a + b)[|a + b| - 1] == b[|b| - 1];
    } else {
      assert a + b == a;
    }
  }

  /** Removing a slot keeps the other filled names in order and drops the
      removed slot's name, if it had one. */
  lemma RemoveAtFilled(dropped: seq<Option<string>>, index: nat)
    requires index < |dropped|
    ensures Filled(RemoveAt(dropped, index)) == Filled(dropped[..index]) + Filled(dropped[index + 1..])
    ensures Filled(dropped) == Filled(dropped[..index]) + Filled([dropped[index]]) + Filled(dropped[index + 1..])
    ensures |Filled(RemoveAt(dropped, index))| == |Filled(dropped)| - (if Truthy(dropped[index]) then 1 else 0)
  {
    FilledConcat(dropped[..index], dropped[index + 1..]);
    assert dropped == dropped[..index] + [dropped[index]] + dropped[index + 1..];
    FilledConcat(dropped[..index] + [dropped[index]], dropped[index + 1..]);
    FilledConcat(dropped[..index], [dropped[index]]);
    assert Filled([dropped[index]]) == Filled([]) + (if Truthy(dropped[index]) then [dropped[index].value] else []) by {
      assert [dropped[index]][..0] == [];
    }
  }

  /** The capacity test of `handleDrop`: refused when the array is already as
      long as the Pokémon has types and the target slot is empty. Gaps count
      toward the length. */
  predicate DropAllowed(typeCount: nat, dropped: seq<Option<string>>, slotIndex: nat)
  {
    !(|dropped| >= typeCount && !Truthy(SlotAt(dropped, slotIndex)))
  }

  /** `handleCheckAnswer`'s verdict: every type of the Pokémon was dropped
      somewhere and the array is exactly as long as the Pokémon has types. */
  predicate IsCorrectAnswer(types: seq<string>, dropped: seq<Option<string>>)
  {
    (forall t :: t in types ==> Some(t) in dropped) && |dropped| == |types|
  }

  /** The verdict ignores the order of the slots. */
  lemma AnswerOrderIrrelevant(types: seq<string>, d1: seq<Option<string>>, d2: seq<Option<string>>)
    requires multiset(d1) == multiset(d2)
    ensures IsCorrectAnswer(types, d1) == IsCorrectAnswer(types, d2)
  {
    assert |d1| == |multiset(d1)| == |multiset(d2)| == |d2|;
    forall x ensures x in d1 <==> x in d2 {
      assert x in d1 <==> x in multiset(d1);
      assert x in d2 <==> x in multiset(d2);
    }
  }

  /** Once the check is complete (as many filled slots as types, the array no
      longer than that) and the types are distinct non-empty names, the
      verdict is set equality of the dropped and the required types. */
  lemma CorrectIffSameTypes(types: seq<string>, dropped: seq<Option<string>>)
    requires Distinct(types) && forall k :: 0 <= k < |types| ==> types[k] != ""
    requires |dropped| <= |types| && |Filled(dropped)| == |types|
    ensures IsCorrectAnswer(types, dropped) <==> Elements(Filled(dropped)) == Elements(types)
  {
    FilledFacts(dropped);
    var f := Filled(dropped);
    assert |dropped| == |types|;
    if IsCorrectAnswer(types, dropped) {
      assert Elements(types) <= Elements(f);
      DistinctCardinality(types);
      ElementsCardinality(f);
      assert |Elements(f) - Elements(types)| == |Elements(f)| - |Elements(types)|;
      SubsetOfSameSize(Elements(types), Elements(f));
    }
    if Elements(f) == Elements(types) {
      forall t | t in types ensures Some(t) in dropped {
        assert t in Elements(types);
      }
    }
  }

  /** Dropping into slot 1 of an empty two-type round first leaves a gap at
      slot 0 that can no longer be filled, and the check then only warns. */
  lemma GapScenario(types: seq<string>, first: string)
    requires |types| == 2 && first != ""
    ensures DropAllowed(|types|, [], 1)
    ensures SetSlot([], 1, first) == [None, Some(first)]
    ensures !DropAllowed(|types|, SetSlot([], 1, first), 0)
    ensures |Filled(SetSlot([], 1, first))| != |types|
  {
    var d := SetSlot([], 1, first);
    assert d == [None, Some(first)];
    assert d[..1] == [None] && d[..1][..0] == [];
    assert Filled(d[..1]) == [];
    assert Filled(d) == [first];
  }

  /** The component's local state. */
  class TypeMatcher {
    var pokemon: Option<Pokemon>
    var droppedTypes: seq<Option<string>>
    var isRevealed: bool
    var score: nat
    var attempts: nat
    var isLoading: bool
    var draggedType: Option<string>
    var feedback: Feedback

    /** The score never exceeds the attempts; without a Pokémon nothing is
        dropped; the array is never longer than the Pokémon has types; a
        revealed round was complete, and it shows success or error exactly
        while revealed. */
    ghost predicate Valid()
      reads this
    {
      && score <= attempts
      && (pokemon.None? ==> droppedTypes == [] && !isRevealed)
      && (pokemon.Some? ==> |droppedTypes| <= |pokemon.value.types|)
      && (isRevealed ==> pokemon.Some? && |Filled(droppedTypes)| == |pokemon.value.types|)
      && ((feedback == Success || feedback == Error) <==> isRevealed)
    }

    /** Mounting the component: no score yet, then the first Pokémon. */
    constructor (randomId: int, provider: map<int, Pokemon>)
      requires 1 <= randomId <= MaxPokemonId
      ensures Valid() && !isLoading && score == 0 && attempts == 0
      ensures !isRevealed && droppedTypes == [] && feedback == NoFeedback && draggedType.None?
      ensures pokemon == (if randomId in provider then Some(provider[randomId]) else None)
    {
      pokemon, droppedTypes, isRevealed := None, [], false;
      score, attempts := 0, 0;
      isLoading, draggedType, feedback := true, None, NoFeedback;
      new;
      FetchRandomPokemon(randomId, provider);
    }

    /** `fetchRandomPokemon` (also `handleNext`): a fresh round with empty
        slots and no feedback; the drawn Pokémon when it can be fetched, the
        previous one otherwise. */
    method FetchRandomPokemon(randomId: int, provider: map<int, Pokemon>)
      requires Valid() && 1 <= randomId <= MaxPokemonId
      modifies this
      ensures Valid() && !isLoading && !isRevealed && droppedTypes == [] && feedback == NoFeedback
      ensures pokemon == (if randomId in provider then Some(provider[randomId]) else old(pokemon))
      ensures score == old(score) && attempts == old(attempts) && draggedType == old(draggedType)
    {
      isLoading := true;
      isRevealed := false;
      droppedTypes := [];
      feedback := NoFeedback;
      if randomId in provider {
        pokemon := Some(provider[randomId]);
      }
      isLoading := false;
    }

    /** `handleDragStart`: remember the type being dragged. */
    method DragStart(typeName: string)
      requires Valid()
      modifies this
      ensures Valid()
      ensures draggedType == Some(typeName)
      ensures pokemon == old(pokemon) && droppedTypes == old(droppedTypes) && isRevealed == old(isRevealed)
      ensures score == old(score) && attempts == old(attempts) && isLoading == old(isLoading)
      ensures feedback == old(feedback)
    {
      draggedType := Some(typeName);
    }

    /** The guards of `handleDrop` let a drop into this slot through. */
    ghost predicate AcceptsDrop(slotIndex: nat)
      reads this
      requires pokemon.Some?
    {
      Truthy(draggedType) && !isRevealed && DropAllowed(|pokemon.value.types|, droppedTypes, slotIndex)
    }

    /** `handleDrop` on one of the rendered drop zones 0 .. types.length - 1. */
    method Drop(slotIndex: nat)
      requires Valid() && pokemon.Some? && slotIndex < |pokemon.value.types|
      modifies this
      ensures Valid()
      ensures !old(AcceptsDrop(slotIndex)) ==> unchanged(this)
      ensures old(AcceptsDrop(slotIndex)) ==>
        && droppedTypes == SetSlot(old(droppedTypes), slotIndex, old(draggedType).value)
        && draggedType.None?
        && pokemon == old(pokemon) && isRevealed == old(isRevealed) && feedback == old(feedback)
        && score == old(score) && attempts == old(attempts) && isLoading == old(isLoading)
      ensures |Filled(droppedTypes)| <= |pokemon.value.types|
    {
      FilledFacts(droppedTypes);
      if !Truthy(draggedType) || isRevealed {
        return;
      }
      if |droppedTypes| >= |pokemon.value.types| && !Truthy(SlotAt(droppedTypes, slotIndex)) {
        return;
      }
      var newDroppedTypes := SetSlot(droppedTypes, slotIndex, draggedType.value);
      droppedTypes := newDroppedTypes;
      draggedType := None;
      FilledFacts(droppedTypes);
    }

    /** `handleRemoveType`: outside a revealed round the slot is taken out. */
    method RemoveType(index: nat)
      requires Valid()
      modifies this
      ensures Valid()
      ensures old(isRevealed) ==> unchanged(this)
      ensures !old(isRevealed) ==>
        && droppedTypes == RemoveAt(old(droppedTypes), index)
        && pokemon == old(pokemon) && isRevealed == old(isRevealed) && feedback == old(feedback)
        && score == old(score) && attempts == old(attempts) && draggedType == old(draggedType)
        && isLoading == old(isLoading)
      ensures !old(isRevealed) && index < |old(droppedTypes)| ==>
        Filled(droppedTypes) == Filled(old(droppedTypes)[..index]) + Filled(old(droppedTypes)[index + 1..])
    {
      if isRevealed {
        return;
      }
      if index < |droppedTypes| {
        RemoveAtFilled(droppedTypes, index);
      }
      droppedTypes := RemoveAt(droppedTypes, index);
    }

    /** `handleCheckAnswer`: an incomplete round only warns; a complete one is
        revealed, counts one attempt, and scores when the answer is correct. */
    method CheckAnswer()
      requires Valid() && pokemon.Some?
      modifies this
      ensures Valid()
      ensures var types := old(pokemon).value.types;
        if |Filled(old(droppedTypes))| != |types| then
          feedback == Warning
          && isRevealed == old(isRevealed) && score == old(score) && attempts == old(attempts)
          && droppedTypes == old(droppedTypes) && pokemon == old(pokemon) && isLoading == old(isLoading)
          && draggedType == old(draggedType)
        else
          var correct := IsCorrectAnswer(types, old(droppedTypes));
          && isRevealed
          && attempts == old(attempts) + 1
          && score == (if correct then old(score) + 1 else old(score))
          && feedback == (if correct then Success else Error)
          && droppedTypes == old(droppedTypes) && pokemon == old(pokemon) && isLoading == old(isLoading)
          && draggedType == old(draggedType)
    {
      var types := pokemon.value.types;
      if |Filled(droppedTypes)| != |types| {
        feedback := Warning;
        return;
      }
      isRevealed := true;
      attempts := attempts + 1;
      var correctTypes := forall t :: t in types ==> Some(t) in droppedTypes;
      if correctTypes && |droppedTypes| == |types| {
        score := score + 1;
        feedback := Success;
      } else {
        feedback := Error;
      }
    }

    /** `handleRestart`: score and attempts back to zero, then a new round. */
    method Restart(randomId: int, provider: map<int, Pokemon>)
      requires Valid() && 1 <= randomId <= MaxPokemonId
      modifies this
      ensures Valid() && score == 0 && attempts == 0
      ensures !isLoading && !isRevealed && droppedTypes == [] && feedback == NoFeedback
      ensures pokemon == (if randomId in provider then Some(provider[randomId]) else old(pokemon))
      ensures draggedType == old(draggedType)
    {
      score := 0;
      attempts := 0;
      FetchRandomPokemon(randomId, provider);
    }
  }
}
