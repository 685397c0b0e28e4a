/** How a lesson item is drawn: a letter avatar for the placeholder emoji,
    a pile of three emoji for a plural word, one emoji otherwise. The shadow
    mode only adds a style; it never changes what is drawn. */
module WordVisual {
  import opened Types
  import opened Strings
  import opened LessonResolver

  /** What the component returns, as the class names and glyphs it draws. */
  datatype Shape =
    | LetterAvatar(letter: string, bubbleClass: string)
    | HugePile(glyphs: seq<string>)
    | GridPile(glyphs: seq<string>, sizeClass: string)
    | Single(glyph: string, sizeClass: string)

  datatype Visual = Visual(shape: Shape, shadowed: bool)

  /** `getSizeClass`, with the `md` default both for `md` and for anything else. */
  function SizeClass(size: string): (r: string)
    ensures size == "sm" ==> r == "text-2xl"
    ensures size == "lg" ==> r == "text-6xl"
    ensures size == "xl" ==> r == "text-7xl"
    ensures size == "huge" ==> r == "text-[6rem] md:text-[9rem]"
    ensures size !in {"sm", "lg", "xl", "huge"} ==> r == "text-4xl"
  {
    match size
    case "sm" => "text-2xl"
    case "md" => "text-4xl"
    case "lg" => "text-6xl"
    case "xl" => "text-7xl"
    case "huge" => "text-[6rem] md:text-[9rem]"
    case _ => "text-4xl"
  }

  /** The avatar bubble: the default, then each matching size overrides it. */
  function BubbleClass(size: string): (r: string)
    ensures size == "huge" ==> r == "w-40 h-40 text-7xl border-8"
    ensures size == "lg" ==> r == "w-20 h-20 text-4xl border-4"
    ensures size == "sm" ==> r == "w-8 h-8 text-sm"
    ensures size !in {"huge", "lg", "sm"} ==> r == "w-12 h-12 text-2xl"
  {
    var b0 := "w-12 h-12 text-2xl";
    var b1 := if size == "huge" then "w-40 h-40 text-7xl border-8" else b0;
    var b2 := if size == "lg" then "w-20 h-20 text-4xl border-4" else b1;
    if size == "sm" then "w-8 h-8 text-sm" else b2
  }

  /** `item.english.charAt(0).toUpperCase()`: empty for an empty word. */
  function Initial(word: string): (r: string)
    ensures word == [] ==> r == []
    ensures word != [] ==> |r| == 1 && r[0] == UpperChar(word[0])
  {
    if word == [] then [] else [UpperChar(word[0])]
  }

  function RenderShape(item: VocabularyItem, size: string): Shape
  {
    if item.emoji == UnknownEmoji then LetterAvatar(Initial(item.english), BubbleClass(size))
    else if item.isPlural then
      if size == "huge" then HugePile([item.emoji, item.emoji, item.emoji])
      else GridPile([item.emoji, item.emoji, item.emoji], SizeClass(size))
    else Single(item.emoji, SizeClass(size))
  }

  /** The emoji a shape draws. */
  function Glyphs(s: Shape): seq<string>
  {
    match s
    case LetterAvatar(_, _) => []
    case HugePile(g) => g
    case GridPile(g, _) => g
    case Single(g, _) => [g]
  }

  /** `WordVisual`: the placeholder emoji gives a letter avatar and nothing
      else; any other emoji is drawn three times for a plural word, at every
      size, and once for a singular one; the shadow flag is carried as given. */
  function Render(item: VocabularyItem, size: string, shadowMode: bool): (r: Visual)
    ensures r.shadowed == shadowMode
    ensures r.shape.LetterAvatar? <==> item.emoji == UnknownEmoji
    ensures r.shape.LetterAvatar? ==> r.shape == LetterAvatar(Initial(item.english), BubbleClass(size))
    ensures !r.shape.LetterAvatar? ==>
      && |Glyphs(r.shape)| == (if item.isPlural then 3 else 1)
      && forall i :: 0 <= i < |Glyphs(r.shape)| ==> Glyphs(r.shape)[i] == item.emoji
    ensures r.shape.HugePile? <==> item.emoji != UnknownEmoji && item.isPlural && size == "huge"
  {
    Visual(RenderShape(item, size), shadowMode)
  }

  /** The placeholder wins over the plural flag. */
  lemma SentinelIgnoresPlural(item: VocabularyItem, size: string, shadowMode: bool)
    requires item.emoji == UnknownEmoji
    ensures Render(item, size, shadowMode) == Render(item.(isPlural := !item.isPlural), size, shadowMode)
  {
  }

  /** Shadow mode changes the style and nothing that is drawn. */
  lemma ShadowOnlyStyles(item: VocabularyItem, size: string)
    ensures Render(item, size, true).shape == Render(item, size, false).shape
    ensures Render(item, size, true).shadowed && !Render(item, size, false).shadowed
  {
  }

  /** A word the offline dictionary does not know is drawn as its own first
      letter, upper-cased, in the bubble for the requested size. */
  lemma UnknownWordAvatar(dict: map<string, Entry>, input: string, clock: nat -> nat, i: nat, size: string, shadowMode: bool)
    requires i < |Tokenize(input)| && Lookup(dict, KeyOf(Tokenize(input)[i])).None?
    ensures var word := Tokenize(input)[i];
      Render(OfflineContent(dict, Tokenize(input), clock)[i], size, shadowMode).shape
        == LetterAvatar([UpperChar(word[0])], BubbleClass(size))
  {
    var words := Tokenize(input);
    OfflineMiss(dict, words, clock, i);
    assert IsToken(words[i]);
  }
}
