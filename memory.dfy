/** The memory game: a shuffled deck of pairs, at most two cards face up
    and waiting, and a delayed step that either retires a matching pair or
    turns a mismatched one back over. */
module Memory {
  import opened Types
  import opened Strings
  import opened Permutations

  datatype Card = Card(id: string, vocabId: string, isFlipped: bool, isMatched: bool, vocabItem: VocabularyItem)

  /** At most six pairs are dealt. */
  function PairCount(n: nat): nat { Min(n, 6) }

  /** `items.slice(0, 6)`. */
  function GameItems(items: seq<VocabularyItem>): (g: seq<VocabularyItem>)
    ensures |g| == PairCount(|items|)
    ensures forall i :: 0 <= i < |g| ==> g[i] == items[i]
  {
    items[..PairCount(|items|)]
  }

  /** One face-down, unmatched card per item, with ids `${tag}${i}`. */
  function Pair(g: seq<VocabularyItem>, tag: string): (r: seq<Card>)
    ensures |r| == |g|
    ensures forall i :: 0 <= i < |g| ==> r[i] == Card(tag + Dec(i), g[i].id, false, false, g[i])
  {
    seq(|g|, i requires 0 <= i < |g| => Card(tag + Dec(i), g[i].id, false, false, g[i]))
  }

  /** `[...pair1, ...pair2]` before the shuffle. */
  function Deck(items: seq<VocabularyItem>): seq<Card>
  {
    Pair(GameItems(items), "p1-") + Pair(GameItems(items), "p2-")
  }

  /** The ids of a list of items, as a set. */
  function IdSet(g: seq<VocabularyItem>): (r: set<string>)
    ensures forall i :: 0 <= i < |g| ==> g[i].id in r
  {
    if g == [] then {}
    else
      var rest := IdSet(g[1..]);
      assert forall i :: 1 <= i < |g| ==> g[i].id in rest by {
        forall i | 1 <= i < |g| ensures g[i].id in rest {
          assert g[1..][i - 1] == g[i];
        }
      }
      {g[0].id} + rest
  }

  /** Every id in the set is some item's id. */
  lemma {:induction false} IdSetMember(g: seq<VocabularyItem>, x: string) returns (i: nat)
    requires x in IdSet(g)
    ensures i < |g| && g[i].id == x
  {
    if g[0].id == x {
      i := 0;
    } else {
      var k := IdSetMember(g[1..], x);
      i := k + 1;
    }
  }

  predicate UniqueCardIds(cards: seq<Card>)
  {
    forall j, k :: 0 <= j < k < |cards| ==> cards[j].id != cards[k].id
  }

  /** What a card shows that no move changes: its own id and its item's id. */
  function Faces(cards: seq<Card>): (r: seq<(string, string)>)
    ensures |r| == |cards|
    ensures forall j :: 0 <= j < |cards| ==> r[j] == (cards[j].id, cards[j].vocabId)
  {
    seq(|cards|, j requires 0 <= j < |cards| => (cards[j].id, cards[j].vocabId))
  }

  /** Two card lists differ at most in their face-up and matched flags. */
  predicate SameFaces(a: seq<Card>, b: seq<Card>)
  {
    Faces(a) == Faces(b)
  }

  /** What never changes after dealing: the number of cards, their unique ids,
      and that the cards carry exactly the dealt items' ids. */
  ghost predicate DealtFaces(items: seq<VocabularyItem>, f: seq<(string, string)>)
  {
    var g := GameItems(items);
    && |f| == 2 * |g|
    && (forall j, k :: 0 <= j < k < |f| ==> f[j].0 != f[k].0)
    && (forall j :: 0 <= j < |f| ==> f[j].1 in IdSet(g))
    && (forall i :: 0 <= i < |g| ==> exists j :: 0 <= j < |f| && f[j].1 == g[i].id)
  }

  ghost predicate Dealt(items: seq<VocabularyItem>, cards: seq<Card>)
  {
    DealtFaces(items, Faces(cards))
  }

  lemma DealtUnique(items: seq<VocabularyItem>, cards: seq<Card>)
    requires Dealt(items, cards)
    ensures UniqueCardIds(cards)
  {
    var f := Faces(cards);
    forall j, k | 0 <= j < k < |cards| ensures cards[j].id != cards[k].id {
      assert f[j].0 != f[k].0;
    }
  }

  /** The matched flags agree with the set of retired item ids. */
  predicate FlagsAgree(cards: seq<Card>, matchedIds: set<string>)
  {
    forall j :: 0 <= j < |cards| ==> (cards[j].isMatched <==> cards[j].vocabId in matchedIds)
  }

  /** The changing part of the invariant, over the set `ids` of dealt item
      ids: `matchedIds` records which pairs have been retired, and `pending`
      lists at most two waiting cards, none of a retired pair. */
  predicate Progress(ids: set<string>, cards: seq<Card>, pending: seq<Card>, matchedCount: nat, matchedIds: set<string>)
  {
    && FlagsAgree(cards, matchedIds)
    && matchedIds <= ids
    && matchedCount == |matchedIds|
    && |pending| <= 2
    && (forall k :: 0 <= k < |pending| ==> pending[k].vocabId in ids && pending[k].vocabId !in matchedIds)
  }

  /** The game state invariant. */
  ghost predicate Inv(items: seq<VocabularyItem>, cards: seq<Card>, pending: seq<Card>, matchedCount: nat, matchedIds: set<string>)
  {
    Dealt(items, cards) && Progress(IdSet(GameItems(items)), cards, pending, matchedCount, matchedIds)
  }

  /** The win screen's condition. */
  predicate Won(matchedCount: nat, n: nat)
  {
    matchedCount == PairCount(n) && matchedCount > 0
  }

  /** The click guard: an unmatched, face-down card while fewer than two wait. */
  predicate Accepts(card: Card, pending: seq<Card>)
  {
    !card.isMatched && !card.isFlipped && |pending| < 2
  }

  /** `cards.map(c => c.id === id ? { ...c, isFlipped: true } : c)`. */
  function FlipUp(cards: seq<Card>, id: string): (r: seq<Card>)
    ensures |r| == |cards|
    ensures forall j :: 0 <= j < |cards| ==> r[j] == if cards[j].id == id then cards[j].(isFlipped := true) else cards[j]
  {
    seq(|cards|, j requires 0 <= j < |cards| => if cards[j].id == id then cards[j].(isFlipped := true) else cards[j])
  }

  /** `prev.map(c => c.vocabId === v ? { ...c, isMatched: true } : c)`. */
  function MarkMatched(cards: seq<Card>, v: string): (r: seq<Card>)
    ensures |r| == |cards|
    ensures forall j :: 0 <= j < |cards| ==> r[j] == if cards[j].vocabId == v then cards[j].(isMatched := true) else cards[j]
  {
    seq(|cards|, j requires 0 <= j < |cards| => if cards[j].vocabId == v then cards[j].(isMatched := true) else cards[j])
  }

  /** `prev.map(c => c.id === a || c.id === b ? { ...c, isFlipped: false } : c)`. */
  function FlipBack(cards: seq<Card>, a: string, b: string): (r: seq<Card>)
    ensures |r| == |cards|
    ensures forall j :: 0 <= j < |cards| ==> r[j] == if cards[j].id == a || cards[j].id == b then cards[j].(isFlipped := false) else cards[j]
  {
    seq(|cards|, j requires 0 <= j < |cards| => if cards[j].id == a || cards[j].id == b then cards[j].(isFlipped := false) else cards[j])
  }

  // ---- The deck ----

  lemma PairIdsDiffer(i: nat, j: nat)
    ensures "p1-" + Dec(i) != "p2-" + Dec(j)
  {
    assert ("p1-" + Dec(i))[1] == '1' && ("p2-" + Dec(j))[1] == '2';
  }

  lemma SameTagIds(tag: string, i: nat, j: nat)
    requires tag + Dec(i) == tag + Dec(j)
    ensures i == j
  {
    PrefixCancel(tag, Dec(i), Dec(j));
    DecInjective(i, j);
  }

  /** The unshuffled deck: card i and card m + i are the two cards of item i,
      both face down and unmatched, with ids "p1-i" and "p2-i", all distinct. */
  lemma DeckShape(items: seq<VocabularyItem>)
    ensures var d, m := Deck(items), PairCount(|items|);
      && |d| == 2 * m
      && (forall i :: 0 <= i < m ==>
            d[i] == Card("p1-" + Dec(i), items[i].id, false, false, items[i])
            && d[m + i] == Card("p2-" + Dec(i), items[i].id, false, false, items[i]))
      && UniqueCardIds(d)
  {
    var d, m := Deck(items), PairCount(|items|);
    var g := GameItems(items);
    forall i | 0 <= i < m
      ensures d[i] == Card("p1-" + Dec(i), items[i].id, false, false, items[i])
      ensures d[m + i] == Card("p2-" + Dec(i), items[i].id, false, false, items[i])
    {
      assert d[i] == Pair(g, "p1-")[i];
      assert d[m + i] == Pair(g, "p2-")[i];
    }
    forall j, k | 0 <= j < k < |d| ensures d[j].id != d[k].id {
      if k < m {
        if d[j].id == d[k].id { SameTagIds("p1-", j, k); }
      } else if j >= m {
        if d[j].id == d[k].id { SameTagIds("p2-", j - m, k - m); }
      } else {
        PairIdsDiffer(j, k - m);
      }
    }
  }

  /** Given distinct item ids, the only two cards of item i are i and m + i. */
  lemma DeckPairs(items: seq<VocabularyItem>, i: nat, j: nat)
    requires DistinctIds(GameItems(items))
    requires i < PairCount(|items|) && j < |Deck(items)|
    ensures Deck(items)[j].vocabId == items[i].id <==> j == i || j == PairCount(|items|) + i
  {
    DeckShape(items);
    var m, g := PairCount(|items|), GameItems(items);
    assert g[i] == items[i];
    if j < m { assert g[j] == items[j]; } else { assert g[j - m] == items[j - m]; }
  }

  /** A shuffled deck satisfies the dealing invariant. */
  lemma ShuffledDeckDealt(items: seq<VocabularyItem>, perm: seq<nat>)
    requires IsPermutation(perm, 2 * PairCount(|items|))
    ensures IndicesBelow(perm, |Deck(items)|)
    ensures Dealt(items, Permute(Deck(items), perm))
  {
    DeckShape(items);
    var d, m, g := Deck(items), PairCount(|items|), GameItems(items);
    PermutationBounds(perm, |d|);
    var c := Permute(d, perm);
    forall j | 0 <= j < |c| ensures c[j] == d[perm[j]] {
      PermuteAt(d, perm, j);
    }
    var f := Faces(c);
    forall j, k | 0 <= j < k < |f| ensures f[j].0 != f[k].0 {
      PermutationDistinct(perm, |d|, j, k);
    }
    forall j | 0 <= j < |f| ensures f[j].1 in IdSet(g) {
      var t := perm[j];
      if t < m { assert g[t] == items[t]; } else { assert g[t - m] == items[t - m]; }
    }
    forall i | 0 <= i < m ensures exists j :: 0 <= j < |f| && f[j].1 == g[i].id {
      var j := PermutationCovers(perm, |d|, i);
      assert c[j] == d[i];
      assert f[j].1 == g[i].id;
    }
  }

  /** Given distinct item ids, each dealt item lies on exactly two cards of
      the shuffled deck, `j1` and `j2`. */
  lemma ShuffledPairs(items: seq<VocabularyItem>, perm: seq<nat>, i: nat) returns (j1: nat, j2: nat)
    requires DistinctIds(GameItems(items))
    requires IsPermutation(perm, 2 * PairCount(|items|)) && i < PairCount(|items|)
    ensures IndicesBelow(perm, |Deck(items)|)
    ensures var c := Permute(Deck(items), perm);
      && j1 < |c| && j2 < |c| && j1 != j2
      && c[j1].vocabId == items[i].id && c[j2].vocabId == items[i].id
      && forall j :: 0 <= j < |c| && c[j].vocabId == items[i].id ==> j == j1 || j == j2
  {
    DeckShape(items);
    var d, m := Deck(items), PairCount(|items|);
    PermutationBounds(perm, |d|);
    var c := Permute(d, perm);
    j1 := PermutationCovers(perm, |d|, i);
    j2 := PermutationCovers(perm, |d|, m + i);
    PermuteAt(d, perm, j1);
    PermuteAt(d, perm, j2);
    DeckPairs(items, i, i);
    DeckPairs(items, i, m + i);
    forall j | 0 <= j < |c| && c[j].vocabId == items[i].id ensures j == j1 || j == j2 {
      PermuteAt(d, perm, j);
      DeckPairs(items, i, perm[j]);
      if perm[j] == i {
        PermutationInjective(perm, |d|, j, j1);
      } else {
        PermutationInjective(perm, |d|, j, j2);
      }
    }
  }

  /** A freshly dealt game satisfies the invariant. */
  lemma InitialInv(items: seq<VocabularyItem>, perm: seq<nat>)
    requires IsPermutation(perm, 2 * PairCount(|items|))
    ensures IndicesBelow(perm, |Deck(items)|)
    ensures Inv(items, Permute(Deck(items), perm), [], 0, {})
  {
    ShuffledDeckDealt(items, perm);
    var c := Permute(Deck(items), perm);
    NoneMatched(items, perm);
    assert forall j :: 0 <= j < |c| ==> (c[j].isMatched <==> c[j].vocabId in {});
  }

  /** Every card of a fresh deal is face down and unmatched. */
  lemma NoneMatched(items: seq<VocabularyItem>, perm: seq<nat>)
    requires IsPermutation(perm, 2 * PairCount(|items|))
    ensures IndicesBelow(perm, |Deck(items)|)
    ensures forall j :: 0 <= j < |Permute(Deck(items), perm)| ==>
      !Permute(Deck(items), perm)[j].isMatched && !Permute(Deck(items), perm)[j].isFlipped
  {
    DeckShape(items);
    var d := Deck(items);
    PermutationBounds(perm, |d|);
    forall j | 0 <= j < |perm| ensures !Permute(d, perm)[j].isMatched && !Permute(d, perm)[j].isFlipped {
      PermuteAt(d, perm, j);
      var m := PairCount(|items|);
      if perm[j] >= m { assert d[m + (perm[j] - m)] == d[perm[j]]; }
    }
  }

  /** An accepted click keeps the invariant. */
  lemma ClickProgress(ids: set<string>, cards: seq<Card>, pending: seq<Card>, matchedCount: nat, matchedIds: set<string>, k: nat)
    requires Progress(ids, cards, pending, matchedCount, matchedIds)
    requires k < |cards| && Accepts(cards[k], pending) && cards[k].vocabId in ids
    ensures Progress(ids, FlipUp(cards, cards[k].id), pending + [cards[k]], matchedCount, matchedIds)
  {
    var c := FlipUp(cards, cards[k].id);
    assert forall j :: 0 <= j < |c| ==> c[j].isMatched == cards[j].isMatched && c[j].vocabId == cards[j].vocabId;
  }

  /** With unique card ids, flipping by id touches only the clicked position. */
  lemma FlipUpOnly(cards: seq<Card>, k: nat)
    requires UniqueCardIds(cards) && k < |cards|
    ensures FlipUp(cards, cards[k].id)[k] == cards[k].(isFlipped := true)
    ensures forall j :: 0 <= j < |cards| && j != k ==> FlipUp(cards, cards[k].id)[j] == cards[j]
  {
    forall j | 0 <= j < |cards| && j != k ensures FlipUp(cards, cards[k].id)[j] == cards[j] {
      if j < k { assert cards[j].id != cards[k].id; } else { assert cards[k].id != cards[j].id; }
    }
  }

  /** Retiring a matching pair keeps the invariant and counts one more pair. */
  lemma MatchProgress(ids: set<string>, cards: seq<Card>, pending: seq<Card>, matchedCount: nat, matchedIds: set<string>)
    requires Progress(ids, cards, pending, matchedCount, matchedIds)
    requires |pending| == 2 && pending[0].vocabId == pending[1].vocabId
    ensures pending[0].vocabId !in matchedIds
    ensures Progress(ids, MarkMatched(cards, pending[0].vocabId), [], matchedCount + 1, matchedIds + {pending[0].vocabId})
  {
    var v := pending[0].vocabId;
    var c := MarkMatched(cards, v);
    assert FlagsAgree(c, matchedIds + {v}) by {
      forall j | 0 <= j < |c| ensures c[j].isMatched <==> c[j].vocabId in matchedIds + {v} {
        assert c[j].vocabId == cards[j].vocabId;
      }
    }
    assert |matchedIds + {v}| == |matchedIds| + 1;
  }

  /** Turning a mismatched pair back over keeps the invariant. */
  lemma MismatchProgress(ids: set<string>, cards: seq<Card>, pending: seq<Card>, matchedCount: nat, matchedIds: set<string>)
    requires Progress(ids, cards, pending, matchedCount, matchedIds)
    requires |pending| == 2
    ensures Progress(ids, FlipBack(cards, pending[0].id, pending[1].id), [], matchedCount, matchedIds)
  {
    var c := FlipBack(cards, pending[0].id, pending[1].id);
    assert forall j :: 0 <= j < |c| ==> c[j].isMatched == cards[j].isMatched && c[j].vocabId == cards[j].vocabId;
  }

  /** The three card updates keep every card's id and item. */
  lemma UpdatesKeepFaces(cards: seq<Card>, id: string, v: string, a: string, b: string)
    ensures SameFaces(cards, FlipUp(cards, id))
    ensures SameFaces(cards, MarkMatched(cards, v))
    ensures SameFaces(cards, FlipBack(cards, a, b))
  {
  }

  lemma ClickInv(items: seq<VocabularyItem>, cards: seq<Card>, pending: seq<Card>, matchedCount: nat, matchedIds: set<string>, k: nat)
    requires Inv(items, cards, pending, matchedCount, matchedIds)
    requires k < |cards| && Accepts(cards[k], pending)
    ensures Inv(items, FlipUp(cards, cards[k].id), pending + [cards[k]], matchedCount, matchedIds)
  {
    assert Faces(cards)[k].1 == cards[k].vocabId;
    ClickProgress(IdSet(GameItems(items)), cards, pending, matchedCount, matchedIds, k);
    UpdatesKeepFaces(cards, cards[k].id, "", "", "");
  }

  lemma MatchInv(items: seq<VocabularyItem>, cards: seq<Card>, pending: seq<Card>, matchedCount: nat, matchedIds: set<string>)
    requires Inv(items, cards, pending, matchedCount, matchedIds)
    requires |pending| == 2 && pending[0].vocabId == pending[1].vocabId
    ensures Inv(items, MarkMatched(cards, pending[0].vocabId), [], matchedCount + 1, matchedIds + {pending[0].vocabId})
  {
    MatchProgress(IdSet(GameItems(items)), cards, pending, matchedCount, matchedIds);
    UpdatesKeepFaces(cards, "", pending[0].vocabId, "", "");
  }

  lemma MismatchInv(items: seq<VocabularyItem>, cards: seq<Card>, pending: seq<Card>, matchedCount: nat, matchedIds: set<string>)
    requires Inv(items, cards, pending, matchedCount, matchedIds)
    requires |pending| == 2
    ensures Inv(items, FlipBack(cards, pending[0].id, pending[1].id), [], matchedCount, matchedIds)
  {
    MismatchProgress(IdSet(GameItems(items)), cards, pending, matchedCount, matchedIds);
    UpdatesKeepFaces(cards, "", "", pending[0].id, pending[1].id);
  }

  // ---- Counting and winning ----

  lemma {:induction false} IdSetSize(g: seq<VocabularyItem>)
    ensures |IdSet(g)| <= |g|
    ensures DistinctIds(g) ==> |IdSet(g)| == |g|
  {
    if g != [] {
      IdSetSize(g[1..]);
      if DistinctIds(g) {
        assert DistinctIds(g[1..]) by {
          forall i, j | 0 <= i < j < |g[1..]| ensures g[1..][i].id != g[1..][j].id {
            assert g[1..][i] == g[i + 1] && g[1..][j] == g[j + 1];
          }
        }
        if g[0].id in IdSet(g[1..]) {
          var i := IdSetMember(g[1..], g[0].id);
        }
      }
    }
  }

  lemma SubsetSameSize<T>(a: set<T>, b: set<T>)
    requires a <= b && |a| == |b|
    ensures a == b
  {
    assert b == a + (b - a);
    assert a * (b - a) == {};
  }

  /** At most one pair per dealt item can ever be counted. */
  lemma MatchedBound(items: seq<VocabularyItem>, cards: seq<Card>, pending: seq<Card>, matchedCount: nat, matchedIds: set<string>)
    requires Inv(items, cards, pending, matchedCount, matchedIds)
    ensures matchedCount <= PairCount(|items|)
  {
    var g := GameItems(items);
    IdSetSize(g);
    assert |matchedIds| <= |IdSet(g)| by {
      assert IdSet(g) == matchedIds + (IdSet(g) - matchedIds);
    }
  }

  /** With distinct item ids, the win screen shows exactly when every card
      is matched and at least one pair was dealt. */
  lemma WonIffAllMatched(items: seq<VocabularyItem>, cards: seq<Card>, pending: seq<Card>, matchedCount: nat, matchedIds: set<string>)
    requires Inv(items, cards, pending, matchedCount, matchedIds)
    requires DistinctIds(GameItems(items))
    ensures Won(matchedCount, |items|) <==>
      PairCount(|items|) > 0 && forall j :: 0 <= j < |cards| ==> cards[j].isMatched
  {
    var g := GameItems(items);
    IdSetSize(g);
    if Won(matchedCount, |items|) {
      SubsetSameSize(matchedIds, IdSet(g));
    }
    if PairCount(|items|) > 0 && forall j :: 0 <= j < |cards| ==> cards[j].isMatched {
      assert IdSet(g) <= matchedIds by {
        forall x | x in IdSet(g) ensures x in matchedIds {
          var i := IdSetMember(g, x);
          var f := Faces(cards);
          var j :| 0 <= j < |f| && f[j].1 == g[i].id;
          assert cards[j].vocabId == x;
        }
      }
      assert matchedIds == IdSet(g);
    }
  }

  // ---- The game ----

  class MemoryGame {
    const items: seq<VocabularyItem>
    var cards: seq<Card>
    var pending: seq<Card>
    var matchedCount: nat
    ghost var matchedIds: set<string>

    ghost predicate Valid()
      reads this
    {
      Inv(items, cards, pending, matchedCount, matchedIds)
    }

    /** Mounting the component deals a game. */
    constructor (items: seq<VocabularyItem>, perm: seq<nat>)
      requires IsPermutation(perm, 2 * PairCount(|items|))
      ensures Valid() && this.items == items
      ensures IndicesBelow(perm, |Deck(items)|)
      ensures cards == Permute(Deck(items), perm) && pending == [] && matchedCount == 0
    {
      this.items := items;
      new;
      Restart(perm);
    }

    /** `initializeGame`: deal the first six items twice, shuffled by `perm`. */
    method Restart(perm: seq<nat>)
      requires IsPermutation(perm, 2 * PairCount(|items|))
      modifies this
      ensures Valid()
      ensures IndicesBelow(perm, |Deck(items)|)
      ensures cards == Permute(Deck(items), perm) && pending == [] && matchedCount == 0
    {
      InitialInv(items, perm);
      cards := Permute(Deck(items), perm);
      pending := [];
      matchedCount := 0;
      matchedIds := {};
    }

    /** `handleCardClick` on the card at position `k`: an accepted click turns
        that card, and no other, face up and queues it. */
    method Click(k: nat)
      requires Valid() && k < |cards|
      modifies this
      ensures Valid()
      ensures matchedCount == old(matchedCount) && matchedIds == old(matchedIds)
      ensures !Accepts(old(cards[k]), old(pending)) ==> cards == old(cards) && pending == old(pending)
      ensures Accepts(old(cards[k]), old(pending)) ==>
        && cards == FlipUp(old(cards), old(cards[k].id))
        && pending == old(pending) + [old(cards[k])]
        && cards[k] == old(cards[k]).(isFlipped := true)
        && (forall j :: 0 <= j < |cards| && j != k ==> cards[j] == old(cards[j]))
    {
      var card := cards[k];
      if !Accepts(card, pending) {
        return;
      }
      var next := FlipUp(cards, card.id);
      ClickInv(items, cards, pending, matchedCount, matchedIds, k);
      DealtUnique(items, cards);
      FlipUpOnly(cards, k);
      cards, pending := next, pending + [card];
    }

    /** The delayed comparison once two cards wait. A match retires every card
        of that item and counts one pair; a mismatch turns exactly the two
        waiting cards back over. Either way the queue empties. */
    method Resolve()
      requires Valid() && |pending| == 2
      modifies this
      ensures Valid()
      ensures pending == []
      ensures old(pending[0].vocabId == pending[1].vocabId) ==>
        && cards == MarkMatched(old(cards), old(pending[0].vocabId))
        && matchedCount == old(matchedCount) + 1
      ensures old(pending[0].vocabId != pending[1].vocabId) ==>
        && cards == FlipBack(old(cards), old(pending[0].id), old(pending[1].id))
        && matchedCount == old(matchedCount)
    {
      var first, second := pending[0], pending[1];
      if first.vocabId == second.vocabId {
        var next := MarkMatched(cards, first.vocabId);
        ghost var retired := matchedIds + {first.vocabId};
        MatchInv(items, cards, pending, matchedCount, matchedIds);
        cards, pending, matchedCount, matchedIds := next, [], matchedCount + 1, retired;
      } else {
        var next := FlipBack(cards, first.id, second.id);
        MismatchInv(items, cards, pending, matchedCount, matchedIds);
        cards, pending := next, [];
      }
    }

    /** Whether the win screen is shown. */
    predicate HasWon()
      reads this
    {
      Won(matchedCount, |items|)
    }
  }
}
