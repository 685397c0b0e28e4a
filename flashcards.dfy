/** The flashcard deck: one card at a time, tapped to flip between the word
    and its definition, paged with Prev and Next; the last card offers Finish
    instead of Next. */
module Flashcards {
  import opened Types
  import opened Strings

  /** The page counter `{currentIndex + 1} / {items.length}`. */
  function Counter(index: nat, n: nat): string
  {
    Dec(index + 1) + " / " + Dec(n)
  }

  /** The Finish button replaces Next on the last card. */
  predicate ShowsFinish(index: nat, n: nat)
  {
    index == n - 1
  }

  /** Finish shows exactly when the counter reads "n / n". */
  lemma FinishIffCounterFull(index: nat, n: nat)
    ensures ShowsFinish(index, n) <==> Counter(index, n) == Dec(n) + " / " + Dec(n)
  {
    if Counter(index, n) == Dec(n) + " / " + Dec(n) {
      var a, d := Dec(index + 1), Dec(n);
      assert a + " / " + d == a + (" / " + d);
      assert d + " / " + d == d + (" / " + d);
      SuffixCancel(a, d, " / " + d);
      DecInjective(index + 1, n);
    }
  }

  class Deck {
    const items: seq<VocabularyItem>
    var currentIndex: nat
    var flipped: bool

    ghost predicate Valid()
      reads this
    {
      currentIndex < |items|
    }

    /** The card on show, `items[currentIndex]`. */
    function Current(): (r: VocabularyItem)
      requires Valid()
      reads this
      ensures r in items
    {
      items[currentIndex]
    }

    /** The deck starts face up on the first card; it reads
        `items[currentIndex]`, so it needs at least one. */
    constructor (items: seq<VocabularyItem>)
      requires |items| > 0
      ensures Valid() && this.items == items && currentIndex == 0 && !flipped
    {
      this.items := items;
      currentIndex, flipped := 0, false;
    }

    /** `nextCard`: the next card, face up; on the last card only confetti. */
    method NextCard()
      requires Valid()
      modifies this
      ensures Valid()
      ensures old(currentIndex) < |items| - 1 ==> currentIndex == old(currentIndex) + 1 && !flipped
      ensures old(currentIndex) == |items| - 1 ==> currentIndex == old(currentIndex) && flipped == old(flipped)
    {
      if currentIndex < |items| - 1 {
        currentIndex := currentIndex + 1;
        // the effect on `currentIndex` turns the new card face up
        flipped := false;
      }
    }

    /** `prevCard`: the previous card, face up; nothing on the first card. */
    method PrevCard()
      requires Valid()
      modifies this
      ensures Valid()
      ensures old(currentIndex) > 0 ==> currentIndex == old(currentIndex) - 1 && !flipped
      ensures old(currentIndex) == 0 ==> currentIndex == 0 && flipped == old(flipped)
    {
      if currentIndex > 0 {
        currentIndex := currentIndex - 1;
        flipped := false;
      }
    }

    /** A tap on the card turns it over. */
    method Tap()
      requires Valid()
      modifies this
      ensures Valid()
      ensures flipped == !old(flipped) && currentIndex == old(currentIndex)
    {
      flipped := !flipped;
    }

    function PageCounter(): string
      reads this
    {
      Counter(currentIndex, |items|)
    }

    predicate FinishShown()
      reads this
    {
      ShowsFinish(currentIndex, |items|)
    }
  }
}
