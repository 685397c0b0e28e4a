/** The sticker canvas: lesson items are placed as stickers, selected,
    dragged, resized within bounds and deleted; the backdrop cycles through
    four scenes. Positions are percentages of the canvas and scales are
    factors, both taken as reals. */
module StickerWorld {
  import opened Types

  datatype Sticker = Sticker(uniqueId: int, vocabItem: VocabularyItem, x: real, y: real, scale: real)

  /** What a drag remembers: the sticker and where it was when grabbed. */
  datatype Drag = Drag(id: int, initialX: real, initialY: real)

  /** The names of the four backgrounds, in cycling order. */
  const Backgrounds: seq<string> := ["Park", "Beach", "Space", "Room"]

  const MinScale: real := 0.5
  const MaxScale: real := 3.0
  /** The step of the minus and plus buttons. */
  const ScaleStep: real := 0.2

  /** `if (selectedId)`: a selection that is neither null nor the falsy id 0. */
  predicate Selected(s: Option<int>)
  {
    s.Some? && s.value != 0
  }

  /** `Math.max(0.5, Math.min(3, v))`. */
  function Clamp(v: real): (r: real)
    ensures MinScale <= r <= MaxScale
    ensures MinScale <= v <= MaxScale ==> r == v
    ensures v < MinScale ==> r == MinScale
    ensures v > MaxScale ==> r == MaxScale
  {
    if v < MinScale then MinScale else if v > MaxScale then MaxScale else v
  }

  /** Clamping keeps the order of scales. */
  lemma ClampMonotone(a: real, b: real)
    requires a <= b
    ensures Clamp(a) <= Clamp(b)
  {
  }

  /** One press of plus and one of minus restore any scale that stays in
      bounds on the way. */
  lemma ScaleStepsUndo(v: real)
    requires MinScale <= v <= MaxScale - ScaleStep
    ensures Clamp(Clamp(v + ScaleStep) - ScaleStep) == v
  {
  }

  /** `prev.find(s => s.uniqueId === id)` as a position. */
  function FindSticker(stickers: seq<Sticker>, id: int): (r: Option<nat>)
    ensures r.Some? ==> (r.value < |stickers| && stickers[r.value].uniqueId == id
                         && forall j :: 0 <= j < r.value ==> stickers[j].uniqueId != id)
    ensures r.None? ==> forall j :: 0 <= j < |stickers| ==> stickers[j].uniqueId != id
  {
    if stickers == [] then None
    else if stickers[0].uniqueId == id then Some(0)
    else match FindSticker(stickers[1..], id)
      case None => None
      case Some(k) => Some(k + 1)
  }

  /** `prev.filter(s => s.uniqueId !== id)`. */
  function Remove(stickers: seq<Sticker>, id: int): (r: seq<Sticker>)
    ensures |r| <= |stickers|
    ensures forall i :: 0 <= i < |r| ==> r[i].uniqueId != id && r[i] in stickers
    ensures forall i :: 0 <= i < |stickers| && stickers[i].uniqueId != id ==> stickers[i] in r
  {
    if stickers == [] then []
    else
      var rest := Remove(stickers[1..], id);
      if stickers[0].uniqueId != id then [stickers[0]] + rest else rest
  }

  /** Removing an id nobody carries keeps the list as it is. */
  lemma {:induction false} RemoveAbsent(stickers: seq<Sticker>, id: int)
    requires forall i :: 0 <= i < |stickers| ==> stickers[i].uniqueId != id
    ensures Remove(stickers, id) == stickers
  {
    if stickers != [] {
      assert forall i :: 0 <= i < |stickers[1..]| ==> stickers[1..][i].uniqueId != id by {
        forall i | 0 <= i < |stickers[1..]| ensures stickers[1..][i].uniqueId != id {
          assert stickers[1..][i] == stickers[i + 1];
        }
      }
      RemoveAbsent(stickers[1..], id);
      assert stickers == [stickers[0]] + stickers[1..];
    }
  }

  /** Removing distributes over concatenation, keeping the order. */
  lemma {:induction false} RemoveConcat(a: seq<Sticker>, b: seq<Sticker>, id: int)
    ensures Remove(a + b, id) == Remove(a, id) + Remove(b, id)
  {
    if a != [] {
      assert (a + b)[1..] == a[1..] + b;
      RemoveConcat(a[1..], b, id);
    } else {
      assert a + b == b;
    }
  }

  /** Placing a sticker whose clock id is not yet used and deleting it at
      once (it is the selection) gives back the canvas as it was. */
  lemma AddThenDelete(stickers: seq<Sticker>, s: Sticker)
    requires forall i :: 0 <= i < |stickers| ==> stickers[i].uniqueId != s.uniqueId
    ensures Remove(stickers + [s], s.uniqueId) == stickers
  {
    RemoveConcat(stickers, [s], s.uniqueId);
    RemoveAbsent(stickers, s.uniqueId);
    assert [s][1..] == [];
  }

  /** The `map` of `scaleSelected`: the selected sticker's scale moves by
      `delta` and is clamped. */
  function Rescale(stickers: seq<Sticker>, id: int, delta: real): (r: seq<Sticker>)
    ensures |r| == |stickers|
    ensures forall i :: 0 <= i < |r| ==>
      r[i] == if stickers[i].uniqueId == id then stickers[i].(scale := Clamp(stickers[i].scale + delta)) else stickers[i]
  {
    seq(|stickers|, i requires 0 <= i < |stickers| =>
      if stickers[i].uniqueId == id then stickers[i].(scale := Clamp(stickers[i].scale + delta)) else stickers[i])
  }

  /** The `map` of `handlePointerMove`. */
  function MoveSticker(stickers: seq<Sticker>, id: int, x: real, y: real): (r: seq<Sticker>)
    ensures |r| == |stickers|
    ensures forall i :: 0 <= i < |r| ==>
      r[i] == if stickers[i].uniqueId == id then stickers[i].(x := x, y := y) else stickers[i]
  {
    seq(|stickers|, i requires 0 <= i < |stickers| =>
      if stickers[i].uniqueId == id then stickers[i].(x := x, y := y) else stickers[i])
  }

  predicate ScalesInBounds(stickers: seq<Sticker>)
  {
    forall i :: 0 <= i < |stickers| ==> MinScale <= stickers[i].scale <= MaxScale
  }

  /** Every list operation keeps the scales within the button bounds. */
  lemma OperationsKeepScales(stickers: seq<Sticker>, id: int, delta: real, x: real, y: real)
    requires ScalesInBounds(stickers)
    ensures ScalesInBounds(Remove(stickers, id))
    ensures ScalesInBounds(Rescale(stickers, id, delta))
    ensures ScalesInBounds(MoveSticker(stickers, id, x, y))
  {
    var r := Remove(stickers, id);
    forall i | 0 <= i < |r| ensures MinScale <= r[i].scale <= MaxScale {
      assert r[i] in stickers;
    }
  }

  class Canvas {
    const items: seq<VocabularyItem>
    var stickers: seq<Sticker>
    var bgIndex: nat
    var selectedId: Option<int>
    /** `draggingRef.current`. */
    var dragging: Option<Drag>

    ghost predicate Valid()
      reads this
    {
      bgIndex < |Backgrounds| && ScalesInBounds(stickers)
    }

    function BackgroundName(): string
      requires Valid()
      reads this
    {
      Backgrounds[bgIndex]
    }

    constructor (items: seq<VocabularyItem>)
      ensures Valid() && this.items == items
      ensures stickers == [] && bgIndex == 0 && selectedId == None && dragging == None
    {
      this.items := items;
      stickers, bgIndex, selectedId, dragging := [], 0, None, None;
    }

    /** `addSticker`: a new sticker in the centre at natural size, selected;
        `now` is the clock reading that becomes its id. */
    method AddSticker(item: VocabularyItem, now: int)
      requires Valid()
      modifies this
      ensures Valid()
      ensures stickers == old(stickers) + [Sticker(now, item, 50.0, 50.0, 1.0)]
      ensures selectedId == Some(now)
      ensures bgIndex == old(bgIndex) && dragging == old(dragging)
    {
      stickers := stickers + [Sticker(now, item, 50.0, 50.0, 1.0)];
      selectedId := Some(now);
    }

    /** `deleteSelected`: drops every sticker with the selected id and
        clears the selection; nothing happens without a selection. */
    method DeleteSelected()
      requires Valid()
      modifies this
      ensures Valid()
      ensures !Selected(old(selectedId)) ==> stickers == old(stickers) && selectedId == old(selectedId)
      ensures Selected(old(selectedId)) ==> stickers == Remove(old(stickers), old(selectedId).value) && selectedId == None
      ensures bgIndex == old(bgIndex) && dragging == old(dragging)
    {
      if Selected(selectedId) {
        OperationsKeepScales(stickers, selectedId.value, 0.0, 0.0, 0.0);
        stickers := Remove(stickers, selectedId.value);
        selectedId := None;
      }
    }

    /** `scaleSelected(delta)`: the selected sticker grows or shrinks, never
        below half or above three times its natural size. */
    method ScaleSelected(delta: real)
      requires Valid()
      modifies this
      ensures Valid()
      ensures !Selected(old(selectedId)) ==> stickers == old(stickers)
      ensures Selected(old(selectedId)) ==> stickers == Rescale(old(stickers), old(selectedId).value, delta)
      ensures selectedId == old(selectedId) && bgIndex == old(bgIndex) && dragging == old(dragging)
    {
      if Selected(selectedId) {
        OperationsKeepScales(stickers, selectedId.value, delta, 0.0, 0.0);
        stickers := Rescale(stickers, selectedId.value, delta);
      }
    }

    /** `changeBackground`: the next of the four scenes, wrapping around. */
    method ChangeBackground()
      requires Valid()
      modifies this
      ensures Valid()
      ensures bgIndex == (old(bgIndex) + 1) % |Backgrounds|
      ensures stickers == old(stickers) && selectedId == old(selectedId) && dragging == old(dragging)
    {
      bgIndex := (bgIndex + 1) % |Backgrounds|;
    }

    /** `handlePointerDown` on sticker `id`: an unknown id changes nothing;
        otherwise it is selected and a drag from its position begins. */
    method PointerDown(id: int)
      requires Valid()
      modifies this
      ensures Valid()
      ensures stickers == old(stickers) && bgIndex == old(bgIndex)
      ensures FindSticker(stickers, id).None? ==> selectedId == old(selectedId) && dragging == old(dragging)
      ensures FindSticker(stickers, id).Some? ==>
        var s := stickers[FindSticker(stickers, id).value];
        selectedId == Some(id) && dragging == Some(Drag(id, s.x, s.y))
    {
      var found := FindSticker(stickers, id);
      if found.None? {
        return;
      }
      var s := stickers[found.value];
      selectedId := Some(id);
      dragging := Some(Drag(id, s.x, s.y));
    }

    /** `handlePointerMove`, with the pointer's travel since the drag began
        already converted to percentages of the canvas: the dragged sticker
        sits at its grab position plus that travel. */
    method PointerMove(deltaX: real, deltaY: real)
      requires Valid()
      modifies this
      ensures Valid()
      ensures old(dragging).None? ==> stickers == old(stickers)
      ensures old(dragging).Some? ==>
        var d := old(dragging).value;
        stickers == MoveSticker(old(stickers), d.id, d.initialX + deltaX, d.initialY + deltaY)
      ensures selectedId == old(selectedId) && bgIndex == old(bgIndex) && dragging == old(dragging)
    {
      if dragging.None? {
        return;
      }
      var d := dragging.value;
      OperationsKeepScales(stickers, d.id, 0.0, d.initialX + deltaX, d.initialY + deltaY);
      stickers := MoveSticker(stickers, d.id, d.initialX + deltaX, d.initialY + deltaY);
    }

    method PointerUp()
      requires Valid()
      modifies this
      ensures Valid()
      ensures dragging == None
      ensures stickers == old(stickers) && selectedId == old(selectedId) && bgIndex == old(bgIndex)
    {
      dragging := None;
    }

    /** `handleCanvasClick`: a click on empty canvas deselects, unless a drag
        is still in progress. */
    method CanvasClick()
      requires Valid()
      modifies this
      ensures Valid()
      ensures old(dragging).None? ==> selectedId == None
      ensures old(dragging).Some? ==> selectedId == old(selectedId)
      ensures stickers == old(stickers) && bgIndex == old(bgIndex) && dragging == old(dragging)
    {
      if dragging.None? {
        selectedId := None;
      }
    }
  }
}
