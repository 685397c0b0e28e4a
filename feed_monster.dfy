/** The monster game: the foods of a round sit on a shelf; dragging the
    wanted one into the monster's mouth (the top-right quarter) feeds it, any
    other drop puts the food back down. Positions are percentages of the play
    area, taken as reals. */
module FeedMonster {
  import opened Types
  import opened Permutations
  import opened Rounds

  datatype Food = Food(id: int, vocabItem: VocabularyItem, x: real, y: real)

  /** `!draggingId` in JavaScript: no drag, or the falsy id 0. */
  predicate Dragging(d: Option<int>)
  {
    d.Some? && d.value != 0
  }

  /** The mouth: right of the middle and in the top half. */
  predicate InMouth(f: Food)
  {
    f.x > 50.0 && f.y < 50.0
  }

  /** The shelf: food i at (20 + 30 i, 70), with id `now + i`. */
  function Layout(roundItems: seq<VocabularyItem>, now: int): (r: seq<Food>)
    ensures |r| == |roundItems|
    ensures forall i :: 0 <= i < |r| ==> r[i] == Food(now + i, roundItems[i], 20.0 + 30.0 * i as real, 70.0)
  {
    seq(|roundItems|, i requires 0 <= i < |roundItems| => Food(now + i, roundItems[i], 20.0 + 30.0 * i as real, 70.0))
  }

  predicate DistinctFoodIds(foods: seq<Food>)
  {
    forall i, j :: 0 <= i < j < |foods| ==> foods[i].id != foods[j].id
  }

  /** Foods laid out in one round have distinct ids and sit left to right
      30 points apart on the same shelf. */
  lemma LayoutShape(roundItems: seq<VocabularyItem>, now: int)
    ensures DistinctFoodIds(Layout(roundItems, now))
    ensures forall i, j :: 0 <= i < j < |roundItems| ==>
      Layout(roundItems, now)[j].x - Layout(roundItems, now)[i].x == 30.0 * (j - i) as real
      && Layout(roundItems, now)[i].y == Layout(roundItems, now)[j].y == 70.0
  {
  }

  /** `foods.find(f => f.id === id)` as a position. */
  function Find(foods: seq<Food>, id: int): (r: Option<nat>)
    ensures r.Some? ==> (r.value < |foods| && foods[r.value].id == id
                         && forall j :: 0 <= j < r.value ==> foods[j].id != id)
    ensures r.None? ==> forall j :: 0 <= j < |foods| ==> foods[j].id != id
  {
    if foods == [] then None
    else if foods[0].id == id then Some(0)
    else match Find(foods[1..], id)
      case None => None
      case Some(k) => Some(k + 1)
  }

  /** `prev.map(f => f.id === id ? { ...f, x, y } : f)`. */
  function MoveTo(foods: seq<Food>, id: int, x: real, y: real): (r: seq<Food>)
    ensures |r| == |foods|
    ensures forall i :: 0 <= i < |foods| ==> r[i] == if foods[i].id == id then foods[i].(x := x, y := y) else foods[i]
  {
    seq(|foods|, i requires 0 <= i < |foods| => if foods[i].id == id then foods[i].(x := x, y := y) else foods[i])
  }

  /** `prev.map(f => f.id === id ? { ...f, y: 70 } : f)`. */
  function PutBack(foods: seq<Food>, id: int): (r: seq<Food>)
    ensures |r| == |foods|
    ensures forall i :: 0 <= i < |foods| ==> r[i] == if foods[i].id == id then foods[i].(y := 70.0) else foods[i]
  {
    seq(|foods|, i requires 0 <= i < |foods| => if foods[i].id == id then foods[i].(y := 70.0) else foods[i])
  }

  /** Moving or putting back a food touches at most the food with that id,
      and only its position; ids and items stay. */
  lemma UpdatesTouchOne(foods: seq<Food>, id: int, x: real, y: real, k: nat)
    requires DistinctFoodIds(foods) && k < |foods| && foods[k].id == id
    ensures forall i :: 0 <= i < |foods| && i != k ==> MoveTo(foods, id, x, y)[i] == foods[i] && PutBack(foods, id)[i] == foods[i]
    ensures MoveTo(foods, id, x, y)[k] == foods[k].(x := x, y := y)
    ensures PutBack(foods, id)[k] == foods[k].(y := 70.0)
    ensures DistinctFoodIds(MoveTo(foods, id, x, y)) && DistinctFoodIds(PutBack(foods, id))
  {
    forall i | 0 <= i < |foods| && i != k ensures foods[i].id != id {
      if i < k { assert foods[i].id != foods[k].id; } else { assert foods[k].id != foods[i].id; }
    }
  }

  class MonsterGame {
    const items: seq<VocabularyItem>
    var target: Option<VocabularyItem>
    var foods: seq<Food>
    var score: nat
    var isEating: bool
    var draggingId: Option<int>

    ghost predicate Valid()
      reads this
    {
      DistinctFoodIds(foods)
    }

    /** Mounting runs the first round. */
    constructor (items: seq<VocabularyItem>, k: nat, pick: seq<nat>, mix: seq<nat>, now: int)
      requires k < |items|
      requires IsPermutation(pick, |Others(items, items[k])|)
      requires IsPermutation(mix, |Distractors(items, items[k], pick)| + 1)
      ensures Valid() && this.items == items && score == 0 && draggingId == None && !isEating
      ensures target == Some(items[k]) && foods == Layout(RoundOptions(items, items[k], pick, mix), now)
    {
      this.items := items;
      target, foods, score, isEating, draggingId := None, [], 0, false, None;
      new;
      StartRound(k, pick, mix, now);
    }

    /** `startRound`: target `items[k]`, its options laid out on the shelf;
        `now` is the clock reading the food ids start from. */
    method StartRound(k: nat, pick: seq<nat>, mix: seq<nat>, now: int)
      requires k < |items|
      requires IsPermutation(pick, |Others(items, items[k])|)
      requires IsPermutation(mix, |Distractors(items, items[k], pick)| + 1)
      modifies this
      ensures Valid()
      ensures !isEating && target == Some(items[k])
      ensures foods == Layout(RoundOptions(items, items[k], pick, mix), now)
      ensures score == old(score) && draggingId == old(draggingId)
    {
      isEating := false;
      var newTarget := items[k];
      target := Some(newTarget);
      var roundItems := RoundOptions(items, newTarget, pick, mix);
      LayoutShape(roundItems, now);
      foods := Layout(roundItems, now);
    }

    method DragStart(id: int)
      modifies this
      ensures draggingId == Some(id)
      ensures foods == old(foods) && score == old(score) && target == old(target) && isEating == old(isEating)
    {
      draggingId := Some(id);
    }

    /** `handleDragMove`, with the pointer already converted to percentages:
        only the dragged food moves. */
    method DragMove(x: real, y: real)
      requires Valid()
      modifies this
      ensures Valid()
      ensures !Dragging(old(draggingId)) ==> foods == old(foods)
      ensures Dragging(old(draggingId)) ==> foods == MoveTo(old(foods), old(draggingId).value, x, y)
      ensures draggingId == old(draggingId) && score == old(score) && target == old(target) && isEating == old(isEating)
    {
      if !Dragging(draggingId) {
        return;
      }
      var id := draggingId.value;
      assert DistinctFoodIds(MoveTo(foods, id, x, y)) by {
        match Find(foods, id)
        case None =>
          assert MoveTo(foods, id, x, y) == foods;
        case Some(k) =>
          UpdatesTouchOne(foods, id, x, y, k);
      }
      foods := MoveTo(foods, id, x, y);
    }

    /** `handleEat`: score, clear the shelf; the next round follows after a delay. */
    method Eat()
      modifies this
      ensures Valid()
      ensures isEating && score == old(score) + 1 && foods == []
      ensures target == old(target) && draggingId == old(draggingId)
    {
      isEating := true;
      score := score + 1;
      foods := [];
    }

    /** `handleDragEnd`: the wanted food dropped in the mouth is eaten; any
        other drop puts the dragged food back on the shelf's height. The drag
        always ends. */
    method DragEnd()
      requires Valid()
      modifies this
      ensures Valid()
      ensures draggingId == None && target == old(target)
      ensures !Dragging(old(draggingId)) || old(target).None? ==>
        foods == old(foods) && score == old(score) && isEating == old(isEating)
      ensures Dragging(old(draggingId)) && old(target).Some? ==>
        var dropped := Find(old(foods), old(draggingId).value);
        if dropped.Some? && InMouth(old(foods)[dropped.value])
           && old(foods)[dropped.value].vocabItem.id == old(target).value.id
        then foods == [] && score == old(score) + 1 && isEating
        else foods == PutBack(old(foods), old(draggingId).value) && score == old(score) && isEating == old(isEating)
    {
      if !Dragging(draggingId) || target.None? {
        draggingId := None;
        return;
      }
      var id := draggingId.value;
      var dropped := Find(foods, id);
      if dropped.Some? && InMouth(foods[dropped.value]) && foods[dropped.value].vocabItem.id == target.value.id {
        Eat();
      } else {
        assert DistinctFoodIds(PutBack(foods, id)) by {
          match dropped
          case None =>
            assert PutBack(foods, id) == foods;
          case Some(k) =>
            UpdatesTouchOne(foods, id, 0.0, 0.0, k);
        }
        foods := PutBack(foods, id);
      }
      draggingId := None;
    }
  }
}
