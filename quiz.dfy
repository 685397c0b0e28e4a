/** The listening quiz: round r asks for the r-th lesson item among up to
    three options. A right answer scores and, after a delay, moves on; a wrong
    one shows a frown that clears after a delay. */
module Quiz {
  import opened Types
  import opened Permutations
  import opened Rounds

  datatype Feedback = Idle | Correct | Wrong

  /** The score is the number of rounds finished, plus one while the
      "correct" banner of an unfinished round is showing. */
  predicate ScoreInv(n: nat, round: nat, score: nat, feedback: Feedback)
  {
    round <= n && score == round + (if feedback == Correct && round < n then 1 else 0)
  }

  /** The end screen shows once every round is done, and it reports a full score. */
  lemma EndScore(n: nat, round: nat, score: nat, feedback: Feedback)
    requires ScoreInv(n, round, score, feedback) && round >= n
    ensures score == n
  {
  }

  /** While a round is running the score never exceeds the round number by
      more than one, and never falls behind it. */
  lemma ScoreBounds(n: nat, round: nat, score: nat, feedback: Feedback)
    requires ScoreInv(n, round, score, feedback)
    ensures round <= score <= round + 1 && score <= n
    ensures score == round + 1 <==> feedback == Correct && round < n
  {
  }

  /** `renderEmojiContent`: a plural item shows its emoji twice, a singular one once. */
  function QuizGlyphs(item: VocabularyItem): (r: seq<string>)
    ensures |r| == (if item.isPlural then 2 else 1)
    ensures forall i :: 0 <= i < |r| ==> r[i] == item.emoji
  {
    if item.isPlural then [item.emoji, item.emoji] else [item.emoji]
  }

  /** What the shuffles of round `r` must be: permutations of the right sizes. */
  ghost predicate ShufflesFor(items: seq<VocabularyItem>, r: nat, pick: seq<nat>, mix: seq<nat>)
  {
    r < |items| ==>
      && IsPermutation(pick, |Others(items, items[r])|)
      && IsPermutation(mix, |Distractors(items, items[r], pick)| + 1)
  }

  class QuizGame {
    const items: seq<VocabularyItem>
    var round: nat
    var options: seq<VocabularyItem>
    var target: Option<VocabularyItem>
    var feedback: Feedback
    var score: nat

    ghost predicate Valid()
      reads this
    {
      && ScoreInv(|items|, round, score, feedback)
      && (round < |items| ==> target == Some(items[round]))
      && (round == |items| && |items| > 0 ==> feedback == Correct)
      && (|items| == 0 ==> target == None)
    }

    /** Mounting: round 0, no target yet, and the round effect runs once. */
    constructor (items: seq<VocabularyItem>, pick: seq<nat>, mix: seq<nat>)
      requires ShufflesFor(items, 0, pick, mix)
      ensures Valid() && this.items == items && round == 0 && score == 0 && feedback == Feedback.Idle
      ensures |items| > 0 ==> target == Some(items[0]) && options == RoundOptions(items, items[0], pick, mix)
      ensures |items| == 0 ==> target == None && options == []
    {
      this.items := items;
      round, options, target, feedback, score := 0, [], None, Feedback.Idle, 0;
      new;
      StartRound(pick, mix);
    }

    /** `startRound(round)`: nothing once every round is done; otherwise clear
        the feedback, take `items[round]` as the target and deal its options. */
    method StartRound(pick: seq<nat>, mix: seq<nat>)
      requires ShufflesFor(items, round, pick, mix)
      modifies this
      ensures round == old(round) && score == old(score)
      ensures old(round) >= |items| ==>
        options == old(options) && target == old(target) && feedback == old(feedback)
      ensures old(round) < |items| ==>
        && feedback == Feedback.Idle
        && target == Some(items[round])
        && options == RoundOptions(items, items[round], pick, mix)
    {
      if round >= |items| {
        return;
      }
      feedback := Feedback.Idle;
      var correctItem := items[round];
      target := Some(correctItem);
      options := RoundOptions(items, correctItem, pick, mix);
    }

    /** `handleOptionClick`: ignored unless the feedback is idle and there is a
        target; the right item shows "correct" and scores, any other "wrong". */
    method Click(item: VocabularyItem)
      requires Valid()
      modifies this
      ensures Valid()
      ensures round == old(round) && options == old(options) && target == old(target)
      ensures old(feedback) != Feedback.Idle || old(target).None? ==> feedback == old(feedback) && score == old(score)
      ensures old(feedback) == Feedback.Idle && old(target).Some? && item.id == old(target).value.id ==>
        feedback == Correct && score == old(score) + 1
      ensures old(feedback) == Feedback.Idle && old(target).Some? && item.id != old(target).value.id ==>
        feedback == Wrong && score == old(score)
    {
      if feedback != Feedback.Idle || target.None? {
        return;
      }
      if item.id == target.value.id {
        feedback := Correct;
        score := score + 1;
      } else {
        feedback := Wrong;
      }
    }

    /** The timer after a wrong answer: the frown goes away, nothing else changes. */
    method ClearWrong()
      requires Valid() && feedback == Wrong
      modifies this
      ensures Valid()
      ensures feedback == Feedback.Idle
      ensures round == old(round) && score == old(score) && options == old(options) && target == old(target)
    {
      feedback := Feedback.Idle;
    }

    /** The timer after a right answer: the round advances by exactly one and
        the next round starts (or the end screen shows). */
    method Advance(pick: seq<nat>, mix: seq<nat>)
      requires Valid() && feedback == Correct && round < |items|
      requires ShufflesFor(items, round + 1, pick, mix)
      modifies this
      ensures Valid()
      ensures round == old(round) + 1 && score == old(score)
      ensures round < |items| ==> feedback == Feedback.Idle && options == RoundOptions(items, items[round], pick, mix)
    {
      round := round + 1;
      StartRound(pick, mix);
    }

    /** The end screen condition. */
    predicate Finished()
      reads this
    {
      round >= |items|
    }
  }
}
