/** The option chain shared by the quiz, the shadow game and the monster
    game: keep the items whose id differs from the target's, shuffle them,
    keep at most two, add the target and shuffle again. Both shuffles are
    given as index permutations. */
module Rounds {
  import opened Types
  import opened Permutations

  /** `items.filter(i => i.id !== target.id)`. */
  function Others(items: seq<VocabularyItem>, target: VocabularyItem): (r: seq<VocabularyItem>)
    ensures |r| <= |items|
    ensures forall i :: 0 <= i < |r| ==> r[i].id != target.id && r[i] in items
    ensures forall i :: 0 <= i < |items| && items[i].id != target.id ==> items[i] in r
  {
    if items == [] then []
    else
      var rest := Others(items[1..], target);
      if items[0].id != target.id then [items[0]] + rest else rest
  }

  /** `.sort(shuffle).slice(0, 2)` over the other items. */
  function Distractors(items: seq<VocabularyItem>, target: VocabularyItem, pick: seq<nat>): seq<VocabularyItem>
    requires IsPermutation(pick, |Others(items, target)|)
  {
    PermutationBounds(pick, |Others(items, target)|);
    var shuffled := Permute(Others(items, target), pick);
    shuffled[..Min(2, |shuffled|)]
  }

  /** `[...distractors, target].sort(shuffle)`. */
  function RoundOptions(items: seq<VocabularyItem>, target: VocabularyItem, pick: seq<nat>, mix: seq<nat>): seq<VocabularyItem>
    requires IsPermutation(pick, |Others(items, target)|)
    requires IsPermutation(mix, |Distractors(items, target, pick)| + 1)
  {
    var d := Distractors(items, target, pick) + [target];
    PermutationBounds(mix, |d|);
    Permute(d, mix)
  }

  /** The distractors are at most two other items, none sharing the target's id. */
  lemma DistractorsAreOthers(items: seq<VocabularyItem>, target: VocabularyItem, pick: seq<nat>)
    requires IsPermutation(pick, |Others(items, target)|)
    ensures |Distractors(items, target, pick)| == Min(2, |Others(items, target)|)
    ensures forall i :: 0 <= i < |Distractors(items, target, pick)| ==>
      Distractors(items, target, pick)[i].id != target.id && Distractors(items, target, pick)[i] in items
  {
    var o := Others(items, target);
    PermutePreservesMultiset(o, pick);
    var d := Distractors(items, target, pick);
    var shuffled := Permute(o, pick);
    forall i | 0 <= i < |d| ensures d[i].id != target.id && d[i] in items {
      assert d[i] == shuffled[i];
      assert shuffled[i] in multiset(o);
      var k :| 0 <= k < |o| && o[k] == shuffled[i];
    }
  }

  /** The options are exactly the distractors and the target, rearranged:
      min(3, 1 + #others) of them, the target among them exactly once, and
      every other option an item of the lesson with a different id. */
  lemma OptionsShape(items: seq<VocabularyItem>, target: VocabularyItem, pick: seq<nat>, mix: seq<nat>)
    requires IsPermutation(pick, |Others(items, target)|)
    requires IsPermutation(mix, |Distractors(items, target, pick)| + 1)
    ensures var r := RoundOptions(items, target, pick, mix);
      && |r| == Min(3, 1 + |Others(items, target)|)
      && multiset(r) == multiset(Distractors(items, target, pick) + [target])
      && multiset(r)[target] == 1
      && (forall i :: 0 <= i < |r| ==> r[i] == target || (r[i].id != target.id && r[i] in items))
  {
    DistractorsAreOthers(items, target, pick);
    var dist := Distractors(items, target, pick);
    var d := dist + [target];
    PermutePreservesMultiset(d, mix);
    var r := RoundOptions(items, target, pick, mix);
    assert target !in dist;
    assert multiset(d) == multiset(dist) + multiset{target};
    forall i | 0 <= i < |r| ensures r[i] == target || (r[i].id != target.id && r[i] in items) {
      assert r[i] in multiset(d);
      var k :| 0 <= k < |d| && d[k] == r[i];
      if k < |dist| { assert d[k] == dist[k]; }
    }
  }

  /** The target is always one of the options. */
  lemma TargetOffered(items: seq<VocabularyItem>, target: VocabularyItem, pick: seq<nat>, mix: seq<nat>)
    requires IsPermutation(pick, |Others(items, target)|)
    requires IsPermutation(mix, |Distractors(items, target, pick)| + 1)
    ensures target in RoundOptions(items, target, pick, mix)
  {
    OptionsShape(items, target, pick, mix);
    assert target in multiset(RoundOptions(items, target, pick, mix));
  }

  /** A lesson whose ids are all distinct leaves |items| - 1 others for any of
      its items, so from three items on every round shows three options. */
  lemma {:induction false} OthersOfDistinct(items: seq<VocabularyItem>, k: nat)
    requires k < |items| && DistinctIds(items)
    ensures |Others(items, items[k])| == |items| - 1
  {
    if k == 0 {
      assert forall i :: 0 <= i < |items[1..]| ==> items[1..][i].id != items[0].id by {
        forall i | 0 <= i < |items[1..]| ensures items[1..][i].id != items[0].id {
          assert items[1..][i] == items[i + 1];
        }
      }
      AllOthers(items[1..], items[0]);
    } else {
      assert DistinctIds(items[1..]) by {
        forall i, j | 0 <= i < j < |items[1..]| ensures items[1..][i].id != items[1..][j].id {
          assert items[1..][i] == items[i + 1] && items[1..][j] == items[j + 1];
        }
      }
      assert items[1..][k - 1] == items[k];
      OthersOfDistinct(items[1..], k - 1);
    }
  }

  lemma {:induction false} AllOthers(items: seq<VocabularyItem>, target: VocabularyItem)
    requires forall i :: 0 <= i < |items| ==> items[i].id != target.id
    ensures Others(items, target) == items
  {
    if items != [] {
      assert forall i :: 0 <= i < |items[1..]| ==> items[1..][i].id != target.id by {
        forall i | 0 <= i < |items[1..]| ensures items[1..][i].id != target.id {
          assert items[1..][i] == items[i + 1];
        }
      }
      AllOthers(items[1..], target);
      assert items == [items[0]] + items[1..];
    }
  }
}
