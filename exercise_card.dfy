/**
 * One exercise of a weekly training day: its set count comes from the plan's
 * "NxM" text, and the weight and reps typed for each set are kept in the
 * browser store under a key made of the date and the exercise's position.
 */
module ExerciseCard {
  import opened Wrappers
  import opened Strings

  /**
   * `parseInt(setsReps.split('x')[0]) || 3`: the integer written before the
   * first 'x'; NaN and 0 are falsy, so both give 3. A negative count is kept.
   */
  function SetCount(setsReps: string): (n: int)
    ensures n != 0
  {
    match ParseInt(PrefixBefore(setsReps, 'x'))
    case None => 3
    case Some(v) => if v == 0 then 3 else v
  }

  /** A text that starts with a positive count and an 'x' gives that count. */
  lemma SetCountOfCount(k: nat, rest: string)
    requires k > 0
    ensures SetCount(NatToString(k) + "x" + rest) == k
  {
    DigitsHaveNoSeparator(k, 'x');
    PrefixBeforeSeparator(NatToString(k), 'x', rest);
    ParseIntOfNatToString(k);
  }

  /** A bare positive count, with no 'x' at all, is also that count. */
  lemma SetCountOfBareCount(k: nat)
    requires k > 0
    ensures SetCount(NatToString(k)) == k
  {
    DigitsHaveNoSeparator(k, 'x');
    PrefixBeforeAbsent(NatToString(k), 'x');
    ParseIntOfNatToString(k);
  }

  /** A zero count falls back to 3, like a missing one. */
  lemma SetCountOfZero(rest: string)
    ensures SetCount("0x" + rest) == 3
    ensures SetCount("x" + rest) == 3
  {
    PrefixBeforeSeparator("0", 'x', rest);
    PrefixBeforeSeparator("", 'x', rest);
    assert "0x" + rest == "0" + ['x'] + rest;
    assert "x" + rest == "" + ['x'] + rest;
    assert DigitPrefix("0", 10) == "0";
  }

  /** The values typed for one set; both start as the empty text. */
  datatype CardSet = CardSet(weight: string, reps: string)

  datatype Field = Weight | Reps

  /** `savedData[i]?.weight || ''` and the same for reps. */
  function SavedOrBlank(saved: map<int, CardSet>, i: int): (r: CardSet)
    ensures i !in saved ==> r == CardSet("", "")
    ensures i in saved ==> r == saved[i]
  {
    if i in saved then saved[i] else CardSet("", "")
  }

  /** The sets the card starts with: one per index below the count. */
  function InitialSets(count: int, saved: map<int, CardSet>): (r: seq<CardSet>)
    ensures |r| == if count < 0 then 0 else count
    ensures forall i :: 0 <= i < |r| ==> r[i] == SavedOrBlank(saved, i)
  {
    if count <= 0 then [] else InitialSets(count - 1, saved) + [SavedOrBlank(saved, count - 1)]
  }

  /** The `reduce` into `{ 0: sets[0], 1: sets[1], ... }`. */
  function IndexMap(sets: seq<CardSet>): (m: map<int, CardSet>)
    ensures forall i :: i in m <==> 0 <= i < |sets|
    ensures forall i :: 0 <= i < |sets| ==> m[i] == sets[i]
  {
    if |sets| == 0 then map[] else IndexMap(sets[..|sets| - 1])[|sets| - 1 := sets[|sets| - 1]]
  }

  /** Reading back what was saved, with the same count, rebuilds the same sets. */
  lemma InitialSetsOfIndexMap(sets: seq<CardSet>)
    ensures InitialSets(|sets|, IndexMap(sets)) == sets
  {
  }

  /** `workout_${date}_${index}`. */
  function CardKey(date: string, index: nat): string
  {
    "workout_" + date + "_" + NatToString(index)
  }

  /** Distinct (date, position) pairs have distinct keys, so cards never share saved data. */
  lemma CardKeyInjective(d1: string, i1: nat, d2: string, i2: nat)
    requires CardKey(d1, i1) == CardKey(d2, i2)
    ensures d1 == d2 && i1 == i2
  {
    DigitsHaveNoSeparator(i1, '_');
    DigitsHaveNoSeparator(i2, '_');
    assert CardKey(d1, i1) == ("workout_" + d1) + ['_'] + NatToString(i1);
    assert CardKey(d2, i2) == ("workout_" + d2) + ['_'] + NatToString(i2);
    SplitAtLastSeparator("workout_" + d1, NatToString(i1), "workout_" + d2, NatToString(i2), '_');
    assert d1 == ("workout_" + d1)[|"workout_"|..];
    assert d2 == ("workout_" + d2)[|"workout_"|..];
    ParseIntOfNatToString(i1);
    ParseIntOfNatToString(i2);
  }

  class Card {
    const setsReps: string
    const date: string
    const index: nat
    var sets: seq<CardSet>
    /** The card entries of the browser store, by key. */
    var storage: map<string, map<int, CardSet>>

    constructor (setsReps: string, date: string, index: nat, storage: map<string, map<int, CardSet>>)
      ensures this.setsReps == setsReps && this.date == date && this.index == index
      ensures sets == [] && this.storage == storage
    {
      this.setsReps, this.date, this.index := setsReps, date, index;
      sets := [];
      this.storage := storage;
    }

    function Key(): string
      reads this
    {
      CardKey(date, index)
    }

    /** The mount effect: one set per index below the count, filled from the saved entry. */
    method Init()
      modifies this
      ensures sets == InitialSets(SetCount(setsReps), if Key() in storage then storage[Key()] else map[])
      ensures storage == old(storage)
    {
      var numSets := SetCount(setsReps);
      var savedData: map<int, CardSet> := if Key() in storage then storage[Key()] else map[];
      var initialSets: seq<CardSet> := [];
      var i := 0;
      while i < numSets
        invariant 0 <= i <= (if numSets < 0 then 0 else numSets)
        invariant initialSets == InitialSets(i, savedData)
      {
        initialSets := initialSets + [SavedOrBlank(savedData, i)];
        i := i + 1;
      }
      sets := initialSets;
    }

    /** Writes one field of one set, then saves all sets under the card's key. */
    method HandleChange(setIndex: nat, field: Field, value: string)
      requires setIndex < |sets|
      modifies this
      ensures |sets| == |old(sets)|
      ensures field == Weight ==> sets[setIndex] == old(sets[setIndex]).(weight := value)
      ensures field == Reps ==> sets[setIndex] == old(sets[setIndex]).(reps := value)
      ensures forall k :: 0 <= k < |sets| && k != setIndex ==> sets[k] == old(sets[k])
      ensures storage == old(storage)[Key() := IndexMap(sets)]
    {
      var newSets := sets;
      var s := newSets[setIndex];
      newSets := newSets[setIndex := if field == Weight then s.(weight := value) else s.(reps := value)];
      sets := newSets;
      var dataToSave := IndexMap(newSets);
      storage := storage[Key() := dataToSave];
    }
  }

  /**
   * After a change, a card built again for the same key and count starts with
   * exactly the sets the previous card showed.
   */
  lemma ReloadAfterChange(sets: seq<CardSet>, setsReps: string)
    requires |sets| == SetCount(setsReps)
    ensures InitialSets(SetCount(setsReps), IndexMap(sets)) == sets
  {
    InitialSetsOfIndexMap(sets);
  }
}
