/** The shadow game: find the silhouette of a randomly chosen lesson item
    among up to three; a right choice scores once and a new round follows. */
module ShadowMatch {
  import opened Types
  import opened Permutations
  import opened Rounds

  class ShadowGame {
    const items: seq<VocabularyItem>
    var currentItem: Option<VocabularyItem>
    var options: seq<VocabularyItem>
    var score: nat
    var isCorrect: bool
    /** The score when the current round began. */
    ghost var roundStart: nat

    /** Each round adds at most one point: the one of its right choice. */
    ghost predicate Valid()
      reads this
    {
      && |items| > 0
      && currentItem.Some?
      && score == roundStart + (if isCorrect then 1 else 0)
    }

    /** Mounting runs the first round. The target index `k` stands for
        `Math.floor(Math.random() * items.length)`. */
    constructor (items: seq<VocabularyItem>, k: nat, pick: seq<nat>, mix: seq<nat>)
      requires k < |items|
      requires IsPermutation(pick, |Others(items, items[k])|)
      requires IsPermutation(mix, |Distractors(items, items[k], pick)| + 1)
      ensures Valid() && this.items == items && score == 0
      ensures !isCorrect && currentItem == Some(items[k]) && options == RoundOptions(items, items[k], pick, mix)
    {
      this.items := items;
      currentItem, options, score, isCorrect := None, [], 0, false;
      roundStart := 0;
      new;
      NextRound(k, pick, mix);
    }

    /** `nextRound`: an unsolved round for target `items[k]`. */
    method NextRound(k: nat, pick: seq<nat>, mix: seq<nat>)
      requires k < |items|
      requires IsPermutation(pick, |Others(items, items[k])|)
      requires IsPermutation(mix, |Distractors(items, items[k], pick)| + 1)
      modifies this
      ensures Valid()
      ensures score == old(score) && roundStart == score
      ensures !isCorrect && currentItem == Some(items[k]) && options == RoundOptions(items, items[k], pick, mix)
    {
      isCorrect := false;
      var target := items[k];
      currentItem := Some(target);
      options := RoundOptions(items, target, pick, mix);
      roundStart := score;
    }

    /** `handleChoice`: ignored once the round is solved; the right item
        solves it and scores one, any other item changes nothing. */
    method Choice(item: VocabularyItem)
      requires Valid()
      modifies this
      ensures Valid()
      ensures currentItem == old(currentItem) && options == old(options) && roundStart == old(roundStart)
      ensures old(isCorrect) || item.id != currentItem.value.id ==> score == old(score) && isCorrect == old(isCorrect)
      ensures !old(isCorrect) && item.id == currentItem.value.id ==> isCorrect && score == old(score) + 1
      ensures score <= roundStart + 1
    {
      if currentItem.None? || isCorrect {
        return;
      }
      if item.id == currentItem.value.id {
        isCorrect := true;
        score := score + 1;
      }
    }
  }
}
