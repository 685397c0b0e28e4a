/** The shared vocabulary of the application: the record every game is built
    from, the screens of the app shell, and the teacher panel's loading states. */
module Types {

  datatype Option<+T> = None | Some(value: T)

  /** One flashcard record. `audioBase64` is absent when no synthesized audio
      was produced; the games then fall back to live speech synthesis. */
  datatype VocabularyItem = VocabularyItem(
    id: string,
    english: string,
    definition: string,
    emoji: string,
    isPlural: bool,
    simpleSentence: string,
    audioBase64: Option<string>)

  datatype GameMode =
    | Dashboard | Menu
    | Flashcards | Quiz | MemoryMatch | BubblePop | ShadowMatch | StickerWorld | FeedMonster

  datatype LoadingState = Idle | GeneratingPlan | GeneratingAudio | Ready | Error

  /** The "unknown word" glyph. The offline resolver emits it for a word the
      dictionary does not know and the word renderer compares against it to
      show a letter avatar instead. Both sides use the same literal, which in
      the repository's text is the mis-decoded form of the star U+2B50; what
      matters for the model is only that the two sides agree. */
  const UnknownEmoji: string := "\U{201A}\U{2260}\U{00EA}"

  function Ids(items: seq<VocabularyItem>): (r: seq<string>)
    ensures |r| == |items|
    ensures forall i :: 0 <= i < |items| ==> r[i] == items[i].id
  {
    seq(|items|, i requires 0 <= i < |items| => items[i].id)
  }

  predicate DistinctIds(items: seq<VocabularyItem>)
  {
    forall i, j :: 0 <= i < j < |items| ==> items[i].id != items[j].id
  }

  function Min(a: int, b: int): int { if a <= b then a else b }
}
