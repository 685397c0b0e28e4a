/** The lesson-content service: the tokenizer for the teacher's word list, the
    offline dictionary resolver, the online/offline routing with its fallback,
    and the preference rule for the native speech voice. */
module LessonResolver {
  import opened Types
  import opened Strings

  // ---- Tokenizer ----

  /** `.map(w => w.trim())`. */
  function TrimAll(fields: seq<string>): (r: seq<string>)
    ensures |r| == |fields|
    ensures forall i :: 0 <= i < |fields| ==> r[i] == Trim(fields[i])
  {
    seq(|fields|, i requires 0 <= i < |fields| => Trim(fields[i]))
  }

  lemma TrimAllCons(w: string, fields: seq<string>)
    ensures TrimAll([w] + fields) == [Trim(w)] + TrimAll(fields)
  {
    var all, rest := TrimAll([w] + fields), TrimAll(fields);
    forall i | 0 <= i < |all| ensures all[i] == ([Trim(w)] + rest)[i] {
      if i > 0 { assert ([w] + fields)[i] == fields[i - 1]; }
    }
  }

  /** `.filter(w => w.length > 0)`. */
  function NonEmpty(fields: seq<string>): (r: seq<string>)
    ensures forall i :: 0 <= i < |r| ==> r[i] != [] && r[i] in fields
    ensures forall i :: 0 <= i < |fields| && fields[i] != [] ==> fields[i] in r
    ensures (forall i :: 0 <= i < |fields| ==> fields[i] != []) ==> r == fields
  {
    if fields == [] then []
    else if fields[0] == [] then NonEmpty(fields[1..])
    else [fields[0]] + NonEmpty(fields[1..])
  }

  /** The filter works field by field: it distributes over concatenation and
      keeps a single field exactly when it is non-empty, so it keeps the order
      and every repetition of the non-empty fields. */
  lemma {:induction false} NonEmptyConcat(a: seq<string>, b: seq<string>)
    ensures NonEmpty(a + b) == NonEmpty(a) + NonEmpty(b)
    ensures |a| == 1 ==> NonEmpty(a) == (if a[0] == [] then [] else a)
  {
    if a == [] {
      assert a + b == b;
    } else {
      assert (a + b)[0] == a[0] && (a + b)[1..] == a[1..] + b;
      NonEmptyConcat(a[1..], b);
    }
  }

  /** A well-formed token: non-empty, free of separators and of surrounding
      whitespace. */
  predicate IsToken(w: string)
  {
    w != [] && NoSeparator(w) && Trimmed(w)
  }

  /** `input.split(/[, \n]+/).map(w => w.trim()).filter(w => w.length > 0)`. */
  function Tokenize(input: string): (r: seq<string>)
    ensures forall i :: 0 <= i < |r| ==> IsToken(r[i])
  {
    var fields := Split(input);
    var trimmed := TrimAll(fields);
    var r := NonEmpty(trimmed);
    forall i | 0 <= i < |r| ensures IsToken(r[i]) {
      var j :| 0 <= j < |trimmed| && trimmed[j] == r[i];
      TrimNoSeparator(fields[j]);
    }
    r
  }

  /** Words separated by the given runs of separators. */
  function JoinWith(words: seq<string>, seps: seq<string>): string
    requires words == [] || |seps| == |words| - 1
  {
    if words == [] then []
    else if |words| == 1 then words[0]
    else words[0] + seps[0] + JoinWith(words[1..], seps[1..])
  }

  predicate IsSeparatorRun(sep: string)
  {
    sep != [] && AllSeparators(sep)
  }

  lemma {:induction false} FirstSeparatorOfWord(w: string, rest: string)
    requires NoSeparator(w)
    requires rest == [] || IsSeparator(rest[0])
    ensures FirstSeparator(w + rest) == |w|
  {
    if w != [] {
      assert w[0] in w;
      assert (w + rest)[1..] == w[1..] + rest;
      FirstSeparatorOfWord(w[1..], rest);
    }
  }

  lemma {:induction false} SeparatorRunOf(sep: string, rest: string)
    requires AllSeparators(sep)
    requires rest == [] || !IsSeparator(rest[0])
    ensures SeparatorRun(sep + rest) == |sep|
  {
    if sep != [] {
      assert sep[0] in sep;
      assert (sep + rest)[1..] == sep[1..] + rest;
      SeparatorRunOf(sep[1..], rest);
    }
  }

  /** A word, a run of separators, and a text that does not start with a
      separator split as the word followed by the fields of that text. */
  lemma SplitCons(w: string, sep: string, tail: string)
    requires NoSeparator(w) && IsSeparatorRun(sep)
    requires tail == [] || !IsSeparator(tail[0])
    ensures Split(w + sep + tail) == [w] + Split(tail)
  {
    var s := w + sep + tail;
    assert s == w + (sep + tail);
    FirstSeparatorOfWord(w, sep + tail);
    assert s[..|w|] == w && s[|w|..] == sep + tail;
    SeparatorRunOf(sep, tail);
    assert (sep + tail)[|sep|..] == tail;
  }

  /** A text without separators is one field: it tokenizes to its trimmed
      self, or to nothing when only whitespace is left. */
  lemma TokenizeWord(w: string)
    requires NoSeparator(w)
    ensures Tokenize(w) == (if Trim(w) == [] then [] else [Trim(w)])
  {
    FirstSeparatorOfWord(w, []);
    assert w + [] == w;
    assert Split(w) == [w];
    assert TrimAll([w]) == [Trim(w)];
    NonEmptyConcat([Trim(w)], []);
  }

  /** Tokenizing reads the input field by field, left to right: the first
      field contributes its trimmed self (nothing when it is empty or only
      whitespace, as for a leading separator run), followed by the tokens of
      the rest. With TokenizeWord this pins down the tokens, in order and with
      repetitions, of every input. */
  lemma TokenizeCons(w: string, sep: string, tail: string)
    requires NoSeparator(w) && IsSeparatorRun(sep)
    requires tail == [] || !IsSeparator(tail[0])
    ensures Tokenize(w + sep + tail) == (if Trim(w) == [] then [] else [Trim(w)]) + Tokenize(tail)
  {
    SplitCons(w, sep, tail);
    TrimAllCons(w, Split(tail));
    NonEmptyConcat([Trim(w)], TrimAll(Split(tail)));
  }

  /** Every input that holds a separator is a first field, a maximal
      separator run, and a rest that starts with no separator, so TokenizeWord
      and TokenizeCons between them cover every input. */
  lemma FirstField(s: string) returns (w: string, sep: string, tail: string)
    requires !NoSeparator(s)
    ensures s == w + sep + tail && |w| + |sep| + |tail| == |s|
    ensures NoSeparator(w) && IsSeparatorRun(sep) && (tail == [] || !IsSeparator(tail[0]))
  {
    var k := FirstSeparator(s);
    var rest := s[k..];
    var r := SeparatorRun(rest);
    w, sep, tail := s[..k], rest[..r], rest[r..];
    assert rest[..r] + rest[r..] == rest;
    assert s[..k] + s[k..] == s;
  }

  lemma {:induction false} SplitJoin(words: seq<string>, seps: seq<string>)
    requires words != [] && |seps| == |words| - 1
    requires forall i :: 0 <= i < |words| ==> IsToken(words[i])
    requires forall i :: 0 <= i < |seps| ==> IsSeparatorRun(seps[i])
    ensures Split(JoinWith(words, seps)) == words
    decreases |words|
  {
    var w := words[0];
    assert IsToken(w);
    if |words| == 1 {
      FirstSeparatorOfWord(w, []);
      assert w + [] == w;
    } else {
      var sep, tail := seps[0], JoinWith(words[1..], seps[1..]);
      assert IsToken(words[1]) && IsSeparatorRun(sep);
      assert tail[0] == words[1][0];
      SplitCons(w, sep, tail);
      assert forall i :: 0 <= i < |words[1..]| ==> words[1..][i] == words[i + 1];
      assert forall i :: 0 <= i < |seps[1..]| ==> seps[1..][i] == seps[i + 1];
      SplitJoin(words[1..], seps[1..]);
      assert words == [w] + words[1..];
    }
  }

  /** Order and multiplicity survive tokenizing: well-formed words joined by
      any separator runs come back exactly, duplicates included. */
  lemma TokenizeJoin(words: seq<string>, seps: seq<string>)
    requires words == [] || |seps| == |words| - 1
    requires forall i :: 0 <= i < |words| ==> IsToken(words[i])
    requires forall i :: 0 <= i < |seps| ==> IsSeparatorRun(seps[i])
    ensures Tokenize(JoinWith(words, seps)) == words
  {
    var fields := Split(JoinWith(words, seps));
    if words == [] {
      assert fields == [[]];
      assert TrimAll(fields) == [[]];
      assert NonEmpty([[]]) == [];
    } else {
      SplitJoin(words, seps);
      assert TrimAll(fields) == words;
    }
  }

  /** The preset "Ice Cream" of the curriculum's food list is two tokens. */
  lemma IceCreamTokens()
    ensures Tokenize("Ice Cream") == ["Ice", "Cream"]
  {
    var words, seps := ["Ice", "Cream"], [" "];
    assert words[1..] == ["Cream"] && seps[1..] == [];
    assert JoinWith(words, seps) == "Ice Cream";
    assert IsToken("Ice") && IsToken("Cream") && IsSeparatorRun(" ");
    TokenizeJoin(words, seps);
  }

  /** Repeated words are kept, once per occurrence. */
  lemma RepeatedTokens()
    ensures Tokenize("cat, cat") == ["cat", "cat"]
  {
    var words, seps := ["cat", "cat"], [", "];
    assert words[1..] == ["cat"] && seps[1..] == [];
    assert JoinWith(words, seps) == "cat, cat";
    assert IsToken("cat") && IsSeparatorRun(", ");
    TokenizeJoin(words, seps);
  }

  // ---- Offline dictionary ----

  /** A dictionary entry; the id and the English spelling come from the token. */
  datatype Entry = Entry(emoji: string, definition: string, simpleSentence: string, isPlural: bool)

  /** Which key answered a lookup and whether it was reached by stripping a suffix. */
  datatype Hit = Hit(key: string, entry: Entry, foundIsPlural: bool)

  /** The three lookups in order: the word itself, then without a trailing "s"
      (only if that missed), then without a trailing "es" (only if both missed). */
  function Lookup(dict: map<string, Entry>, lowerWord: string): Option<Hit>
  {
    if lowerWord in dict then Some(Hit(lowerWord, dict[lowerWord], false))
    else if EndsWith(lowerWord, "s") && lowerWord[..|lowerWord| - 1] in dict then
      var k := lowerWord[..|lowerWord| - 1];
      Some(Hit(k, dict[k], true))
    else if EndsWith(lowerWord, "es") && lowerWord[..|lowerWord| - 2] in dict then
      var k := lowerWord[..|lowerWord| - 2];
      Some(Hit(k, dict[k], true))
    else None
  }

  /** Reference definition of the lookup order: the keys tried, each with the
      plural flag a hit on it implies. */
  function Candidates(w: string): (r: seq<(string, bool)>)
    ensures |r| >= 1 && r[0] == (w, false)
    ensures forall i :: 1 <= i < |r| ==> r[i].1
  {
    [(w, false)]
    + (if EndsWith(w, "s") then [(w[..|w| - 1], true)] else [])
    + (if EndsWith(w, "es") then [(w[..|w| - 2], true)] else [])
  }

  /** The first candidate present in the dictionary. */
  function FirstHit(dict: map<string, Entry>, cands: seq<(string, bool)>): (r: Option<Hit>)
    ensures r.None? <==> forall i :: 0 <= i < |cands| ==> cands[i].0 !in dict
    ensures r.Some? ==> exists i :: (0 <= i < |cands| && cands[i].0 == r.value.key
                                     && r.value.foundIsPlural == cands[i].1
                                     && (forall j :: 0 <= j < i ==> cands[j].0 !in dict))
    ensures r.Some? ==> r.value.key in dict && r.value.entry == dict[r.value.key]
  {
    if cands == [] then None
    else if cands[0].0 in dict then Some(Hit(cands[0].0, dict[cands[0].0], cands[0].1))
    else
      var r := FirstHit(dict, cands[1..]);
      assert r.Some? ==> exists i :: (0 <= i < |cands| && cands[i].0 == r.value.key
                                      && r.value.foundIsPlural == cands[i].1
                                      && (forall j :: 0 <= j < i ==> cands[j].0 !in dict)) by {
        if r.Some? {
          var i :| 0 <= i < |cands[1..]| && cands[1..][i].0 == r.value.key
            && r.value.foundIsPlural == cands[1..][i].1
            && (forall j :: 0 <= j < i ==> cands[1..][j].0 !in dict);
          assert forall j :: 0 <= j < i + 1 ==> cands[j].0 !in dict by {
            forall j | 0 <= j < i + 1 ensures cands[j].0 !in dict {
              if j > 0 { assert cands[j] == cands[1..][j - 1]; }
            }
          }
          assert cands[i + 1] == cands[1..][i];
        }
      }
      r
  }

  /** The nested lookups are exactly "first candidate in the dictionary". */
  lemma LookupIsFirstHit(dict: map<string, Entry>, w: string)
    ensures Lookup(dict, w) == FirstHit(dict, Candidates(w))
  {
    var c := Candidates(w);
    if w !in dict && EndsWith(w, "s") {
      assert c[1] == (w[..|w| - 1], true);
    }
    if w !in dict && EndsWith(w, "es") {
      assert EndsWith(w, "s") by { assert w[|w| - 1] == "es"[1]; }
      assert c[2] == (w[..|w| - 2], true);
      if w[..|w| - 1] !in dict {
        assert c[2..] == [(w[..|w| - 2], true)];
        assert c[1..][1..] == c[2..];
      }
    }
  }

  /** A suffix-stripped hit is always flagged plural, an exact hit never is. */
  lemma LookupPlural(dict: map<string, Entry>, w: string)
    ensures Lookup(dict, w).Some? ==> (Lookup(dict, w).value.foundIsPlural <==> w !in dict)
    ensures Lookup(dict, w).Some? ==> (Lookup(dict, w).value.key in dict
                                       && Lookup(dict, w).value.entry == dict[Lookup(dict, w).value.key])
    ensures Lookup(dict, w).None? <==> forall i :: 0 <= i < |Candidates(w)| ==> Candidates(w)[i].0 !in dict
  {
    LookupIsFirstHit(dict, w);
  }

  /** The key a lookup answers with is a prefix of the word looked up. */
  lemma LookupKeyIsPrefix(dict: map<string, Entry>, w: string)
    requires Lookup(dict, w).Some?
    ensures var k := Lookup(dict, w).value.key; |k| <= |w| && k == w[..|k|]
  {
  }

  // ---- Record construction ----

  /** JavaScript `s || d` on a string: the default replaces the empty string. */
  function OrDefault(s: string, d: string): (r: string)
    ensures s != [] ==> r == s
    ensures s == [] ==> r == d
  {
    if s == [] then d else s
  }

  /** The fallback emoji for an entry with an empty emoji field (the literal as
      it stands in the repository's text, a mis-decoded U+1F4DD). */
  const DefaultEmoji: string := "\U{F8FF}\U{00FC}\U{00EC}\U{00F9}"

  /** The key consulted for a token: `word.toLowerCase().trim()`. */
  function KeyOf(word: string): string { Trim(Lower(word)) }

  /** The record for token `word` at position `i`, with clock reading `now`. */
  function ResolveWord(dict: map<string, Entry>, word: string, i: nat, now: nat): VocabularyItem
  {
    match Lookup(dict, KeyOf(word))
    case Some(h) =>
      VocabularyItem(
        Tagged("offline-", i, now),
        Capitalize(word),
        OrDefault(h.entry.definition, "A word to learn."),
        OrDefault(h.entry.emoji, DefaultEmoji),
        h.entry.isPlural || h.foundIsPlural,
        OrDefault(h.entry.simpleSentence, "This is a " + word + "."),
        None)
    case None =>
      VocabularyItem(
        Tagged("unknown-", i, now),
        word,
        "Let's learn this word.",
        UnknownEmoji,
        false,
        "Can you say " + word + "?",
        None)
  }

  /** `generateOfflineContent`: one record per token, in token order. `clock(i)`
      is the `Date.now()` reading taken for the i-th record. */
  function OfflineContent(dict: map<string, Entry>, words: seq<string>, clock: nat -> nat): (r: seq<VocabularyItem>)
    ensures |r| == |words|
    ensures forall i :: 0 <= i < |words| ==> r[i] == ResolveWord(dict, words[i], i, clock(i))
  {
    seq(|words|, i requires 0 <= i < |words| => ResolveWord(dict, words[i], i, clock(i)))
  }

  /** A hit copies the entry's fields (a non-empty field wins over its
      default), capitalises the token and is plural when the entry is or when
      a suffix had to be stripped. */
  lemma OfflineHit(dict: map<string, Entry>, words: seq<string>, clock: nat -> nat, i: nat)
    requires i < |words| && Lookup(dict, KeyOf(words[i])).Some?
    ensures var r := OfflineContent(dict, words, clock)[i];
      var h := Lookup(dict, KeyOf(words[i])).value;
      && h.key in dict && h.entry == dict[h.key]
      && r.id == "offline-" + Dec(i) + "-" + Dec(clock(i))
      && r.english == Capitalize(words[i])
      && (h.entry.definition != [] ==> r.definition == h.entry.definition)
      && (h.entry.emoji != [] ==> r.emoji == h.entry.emoji)
      && (h.entry.simpleSentence != [] ==> r.simpleSentence == h.entry.simpleSentence)
      && (r.isPlural <==> h.entry.isPlural || KeyOf(words[i]) !in dict)
      && r.audioBase64 == None
  {
    LookupPlural(dict, KeyOf(words[i]));
  }

  /** A miss gives the placeholder record around the raw token. */
  lemma OfflineMiss(dict: map<string, Entry>, words: seq<string>, clock: nat -> nat, i: nat)
    requires i < |words| && Lookup(dict, KeyOf(words[i])).None?
    ensures var r := OfflineContent(dict, words, clock)[i];
      && r.id == "unknown-" + Dec(i) + "-" + Dec(clock(i))
      && r.english == words[i]
      && r.definition == "Let's learn this word."
      && r.emoji == UnknownEmoji
      && !r.isPlural
      && r.simpleSentence == "Can you say " + words[i] + "?"
  {
  }

  lemma OfflineIdShape(dict: map<string, Entry>, words: seq<string>, clock: nat -> nat, i: nat)
    requires i < |words|
    ensures var id := OfflineContent(dict, words, clock)[i].id;
      id == Tagged("offline-", i, clock(i)) || id == Tagged("unknown-", i, clock(i))
  {
  }

  lemma TaggedPrefixesDiffer(i: nat, t: nat, j: nat, u: nat)
    ensures Tagged("offline-", i, t) != Tagged("unknown-", j, u)
  {
    assert Tagged("offline-", i, t)[0] == 'o';
    assert Tagged("unknown-", j, u)[0] == 'u';
  }

  /** Ids within one offline batch are pairwise distinct, whatever the clock
      reads: the index part differs. */
  lemma OfflineIdsDistinct(dict: map<string, Entry>, words: seq<string>, clock: nat -> nat)
    ensures DistinctIds(OfflineContent(dict, words, clock))
  {
    var r := OfflineContent(dict, words, clock);
    forall i, j | 0 <= i < j < |r| ensures r[i].id != r[j].id {
      OfflineIdShape(dict, words, clock, i);
      OfflineIdShape(dict, words, clock, j);
      TaggedPrefixesDiffer(i, clock(i), j, clock(j));
      TaggedPrefixesDiffer(j, clock(j), i, clock(i));
      if r[i].id == r[j].id {
        if r[i].id == Tagged("offline-", i, clock(i)) {
          TaggedInjective("offline-", i, clock(i), j, clock(j));
        } else {
          TaggedInjective("unknown-", i, clock(i), j, clock(j));
        }
      }
    }
  }

  /** Only the ids depend on the clock. */
  lemma OfflineClockIndependent(dict: map<string, Entry>, words: seq<string>, c1: nat -> nat, c2: nat -> nat, i: nat)
    requires i < |words|
    ensures var a, b := OfflineContent(dict, words, c1)[i], OfflineContent(dict, words, c2)[i];
      a.(id := "") == b.(id := "")
  {
  }

  /** The key consulted for a token holds no separator. */
  lemma KeyOfToken(w: string)
    requires IsToken(w)
    ensures NoSeparator(KeyOf(w))
  {
    var m := Lower(w);
    assert NoSeparator(m) by {
      forall i | 0 <= i < |m| ensures !IsSeparator(m[i]) {
        LowerAt(w, i);
      }
    }
    TrimNoSeparator(m);
  }

  /** The key a lookup answers with holds no separator when the word holds none. */
  lemma LookupKeyNoSeparator(dict: map<string, Entry>, lw: string)
    requires NoSeparator(lw) && Lookup(dict, lw).Some?
    ensures NoSeparator(Lookup(dict, lw).value.key)
  {
    LookupKeyIsPrefix(dict, lw);
    var k := Lookup(dict, lw).value.key;
    forall i | 0 <= i < |k| ensures !IsSeparator(k[i]) {
      assert k[i] == lw[i];
    }
  }

  /** A key holding a space is never the answer for a separator-free word. */
  lemma SpacedKeyUnreachable(dict: map<string, Entry>, lw: string, key: string, p: nat)
    requires NoSeparator(lw)
    requires p < |key| && key[p] == ' '
    ensures Lookup(dict, lw).None? || Lookup(dict, lw).value.key != key
  {
    if Lookup(dict, lw).Some? {
      LookupKeyNoSeparator(dict, lw);
    }
  }

  lemma TokenMissesSpacedKey(dict: map<string, Entry>, w: string, key: string, p: nat)
    requires IsToken(w)
    requires p < |key| && key[p] == ' '
    ensures Lookup(dict, KeyOf(w)).None? || Lookup(dict, KeyOf(w)).value.key != key
  {
    KeyOfToken(w);
    SpacedKeyUnreachable(dict, KeyOf(w), key, p);
  }

  /** Tokens of any input never reach a dictionary key holding a space. */
  lemma MultiWordKeysUnreachable(dict: map<string, Entry>, input: string, i: nat, key: string, p: nat)
    requires i < |Tokenize(input)|
    requires p < |key| && key[p] == ' '
    ensures var w := Tokenize(input)[i];
      Lookup(dict, KeyOf(w)).None? || Lookup(dict, KeyOf(w)).value.key != key
  {
    TokenMissesSpacedKey(dict, Tokenize(input)[i], key, p);
  }

  /** So the dictionary's two-word entries "ice cream" and "orange color" are
      dead: no token resolves to either. */
  lemma TwoWordEntriesUnreachable(dict: map<string, Entry>, input: string, i: nat)
    requires i < |Tokenize(input)|
    ensures var w := Tokenize(input)[i];
      Lookup(dict, KeyOf(w)).None? || Lookup(dict, KeyOf(w)).value.key !in {"ice cream", "orange color"}
  {
    var ice, orange := "ice cream", "orange color";
    assert ice[3] == ' ' && orange[6] == ' ';
    MultiWordKeysUnreachable(dict, input, i, ice, 3);
    MultiWordKeysUnreachable(dict, input, i, orange, 6);
  }

  // ---- Routing ----

  /** A record as the remote model returns it (no id). */
  datatype RemoteRecord = RemoteRecord(english: string, definition: string, emoji: string, isPlural: bool, simpleSentence: string)

  /** What the remote call did: return records, or throw. */
  datatype RemoteOutcome = Success(records: seq<RemoteRecord>) | Failure

  /** `!apiKey` in JavaScript: undefined and "" are both missing. */
  predicate HasKey(apiKey: Option<string>)
  {
    apiKey.Some? && apiKey.value != []
  }

  function RemoteItems(records: seq<RemoteRecord>, clock: nat -> nat): (r: seq<VocabularyItem>)
    ensures |r| == |records|
  {
    seq(|records|, i requires 0 <= i < |records| =>
      var x := records[i];
      VocabularyItem(Tagged("word-", i, clock(i)), x.english, x.definition, x.emoji, x.isPlural, x.simpleSentence, None))
  }

  /** `generateLessonContent`. `online` is `navigator.onLine`, `remote` is what
      the remote call would do, `clock` the readings of `Date.now()`. */
  function GenerateLessonContent(input: string, online: bool, apiKey: Option<string>, remote: RemoteOutcome,
                                 dict: map<string, Entry>, clock: nat -> nat): seq<VocabularyItem>
  {
    var words := Tokenize(input);
    if !online || !HasKey(apiKey) then OfflineContent(dict, words, clock)
    else match remote
      case Failure => OfflineContent(dict, words, clock)
      case Success(records) => RemoteItems(records, clock)
  }

  /** Offline or without a key the remote outcome is never consulted, and
      when the remote call throws the batch is the offline resolution. */
  lemma RoutingOffline(input: string, online: bool, apiKey: Option<string>, remote: RemoteOutcome,
                       dict: map<string, Entry>, clock: nat -> nat)
    requires !online || !HasKey(apiKey) || remote.Failure?
    ensures GenerateLessonContent(input, online, apiKey, remote, dict, clock) == OfflineContent(dict, Tokenize(input), clock)
    ensures |GenerateLessonContent(input, online, apiKey, remote, dict, clock)| == |Tokenize(input)|
  {
  }

  /** A successful remote call keeps the returned records in order, adds the
      `word-{i}-{now}` ids and nothing else; its length is whatever came back. */
  lemma RoutingRemote(input: string, apiKey: Option<string>, records: seq<RemoteRecord>,
                      dict: map<string, Entry>, clock: nat -> nat, i: nat)
    requires HasKey(apiKey) && i < |records|
    ensures var r := GenerateLessonContent(input, true, apiKey, Success(records), dict, clock);
      && |r| == |records|
      && r[i].id == "word-" + Dec(i) + "-" + Dec(clock(i))
      && r[i].english == records[i].english && r[i].definition == records[i].definition
      && r[i].emoji == records[i].emoji && r[i].isPlural == records[i].isPlural
      && r[i].simpleSentence == records[i].simpleSentence
  {
  }

  lemma RemoteIdsDistinct(records: seq<RemoteRecord>, clock: nat -> nat)
    ensures DistinctIds(RemoteItems(records, clock))
  {
    var r := RemoteItems(records, clock);
    forall i, j | 0 <= i < j < |r| ensures r[i].id != r[j].id {
      if r[i].id == r[j].id { TaggedInjective("word-", i, clock(i), j, clock(j)); }
    }
  }

  // ---- Examples over a few of the repository's entries ----

  const CatEntry := Entry("\U{F8FF}\U{00FC}\U{00EA}\U{00B1}", "Small fluffy pet.", "Cat says meow.", false)
  const DogEntry := Entry("\U{F8FF}\U{00FC}\U{00EA}\U{2202}", "Loyal friend.", "Dog says woof.", false)
  const EyesEntry := Entry("\U{F8FF}\U{00FC}\U{00EB}\U{00C4}", "Two eyes to see.", "Open your eyes.", true)
  const PotatoEntry := Entry("\U{F8FF}\U{00FC}\U{2022}\U{00EE}", "Brown vegetable.", "Potatoes make chips.", false)
  const DressEntry := Entry("\U{F8FF}\U{00FC}\U{00EB}\U{00F3}", "Pretty long clothes.", "A pink dress.", false)
  const GlassesEntry := Entry("\U{F8FF}\U{00FC}\U{00EB}\U{00EC}", "Help eyes see.", "Wear your glasses.", true)
  const BusEntry := Entry("\U{F8FF}\U{00FC}\U{00F6}\U{00E5}", "Big yellow car.", "School bus.", false)
  const IceCreamEntry := Entry("\U{F8FF}\U{00FC}\U{00E7}\U{00B6}", "Cold sweet treat.", "I like chocolate ice cream.", false)

  const Sample: map<string, Entry> := map[
    "cat" := CatEntry, "dog" := DogEntry, "eyes" := EyesEntry, "potato" := PotatoEntry,
    "dress" := DressEntry, "glasses" := GlassesEntry, "bus" := BusEntry, "ice cream" := IceCreamEntry]

  /** Suffix stripping: "dogs" and "potatoes" lose their endings, and "buses"
      reaches "bus" only after "buse" has missed. */
  lemma LookupStrippedExamples()
    ensures Lookup(Sample, "dogs") == Some(Hit("dog", DogEntry, true))
    ensures Lookup(Sample, "potatoes") == Some(Hit("potato", PotatoEntry, true))
    ensures Lookup(Sample, "buses") == Some(Hit("bus", BusEntry, true))
  {
    assert "dogs"[..3] == "dog";
    assert "potatoes"[..7] == "potatoe" && "potatoes"[..6] == "potato";
    assert "buses"[..4] == "buse" && "buses"[..3] == "bus";
  }

  /** Exact keys win, even ones that end in "s"; unknown words and the halves
      of "ice cream" miss. */
  lemma LookupExactExamples()
    ensures Lookup(Sample, "eyes") == Some(Hit("eyes", EyesEntry, false))
    ensures Lookup(Sample, "dress") == Some(Hit("dress", DressEntry, false))
    ensures Lookup(Sample, "glasses") == Some(Hit("glasses", GlassesEntry, false))
    ensures Lookup(Sample, "zzyxw") == None
    ensures Lookup(Sample, "ice") == None && Lookup(Sample, "cream") == None
  {
  }

  lemma ExampleKeys()
    ensures KeyOf("Dogs") == "dogs" && KeyOf("zzyxw") == "zzyxw"
  {
    assert Lower("Dogs") == "dogs" && Trimmed("dogs");
    assert Lower("zzyxw") == "zzyxw" && Trimmed("zzyxw");
  }

  /** "Dogs" is resolved through the dog entry, keeps its spelling and is
      flagged plural. */
  lemma DogsRecord(now: nat)
    ensures var r := ResolveWord(Sample, "Dogs", 0, now);
      && r.english == "Dogs" && r.emoji == DogEntry.emoji && r.isPlural
      && r.definition == "Loyal friend." && r.simpleSentence == "Dog says woof."
  {
    ExampleKeys();
    LookupStrippedExamples();
  }

  /** An unknown word keeps its spelling and gets the placeholder fields. */
  lemma UnknownRecord(now: nat)
    ensures var r := ResolveWord(Sample, "zzyxw", 0, now);
      && r.english == "zzyxw" && r.emoji == UnknownEmoji && !r.isPlural
      && r.definition == "Let's learn this word."
  {
    ExampleKeys();
    LookupExactExamples();
  }

  // ---- Native voice preference ----

  datatype Voice = Voice(name: string, lang: string)

  /** The preferred voices: Samantha, a female en-US voice, or Google US English. */
  predicate Preferred(v: Voice)
  {
    || Contains(v.name, "Samantha")
    || (Contains(v.name, "Female") && Contains(v.lang, "en-US"))
    || Contains(v.name, "Google US English")
  }

  predicate English(v: Voice)
  {
    Contains(v.lang, "en-US") || Contains(v.lang, "en-GB")
  }

  /** `Array.prototype.find` for the preferred voices. */
  function FindPreferred(voices: seq<Voice>): (r: Option<nat>)
    ensures r.Some? ==> (r.value < |voices| && Preferred(voices[r.value])
                         && forall j :: 0 <= j < r.value ==> !Preferred(voices[j]))
    ensures r.None? ==> forall j :: 0 <= j < |voices| ==> !Preferred(voices[j])
  {
    if voices == [] then None
    else if Preferred(voices[0]) then Some(0)
    else match FindPreferred(voices[1..])
      case None => None
      case Some(k) => Some(k + 1)
  }

  /** `Array.prototype.find` for the English voices. */
  function FindEnglish(voices: seq<Voice>): (r: Option<nat>)
    ensures r.Some? ==> (r.value < |voices| && English(voices[r.value])
                         && forall j :: 0 <= j < r.value ==> !English(voices[j]))
    ensures r.None? ==> forall j :: 0 <= j < |voices| ==> !English(voices[j])
  {
    if voices == [] then None
    else if English(voices[0]) then Some(0)
    else match FindEnglish(voices[1..])
      case None => None
      case Some(k) => Some(k + 1)
  }

  /** The voice given to the utterance, if any. */
  function SelectVoice(voices: seq<Voice>): (r: Option<Voice>)
    ensures r.Some? ==> r.value in voices && (Preferred(r.value) || English(r.value))
    ensures (exists j :: 0 <= j < |voices| && Preferred(voices[j])) ==> r.Some? && Preferred(r.value)
    ensures r.None? <==> forall j :: 0 <= j < |voices| ==> !Preferred(voices[j]) && !English(voices[j])
    ensures FindPreferred(voices).Some? ==> r == Some(voices[FindPreferred(voices).value])
    ensures FindPreferred(voices).None? ==>
      r == (if FindEnglish(voices).Some? then Some(voices[FindEnglish(voices).value]) else None)
  {
    match FindPreferred(voices)
    case Some(k) => Some(voices[k])
    case None =>
      match FindEnglish(voices)
      case Some(k) => Some(voices[k])
      case None => None
  }

  /** The first tier wins wherever it sits: a preferred voice is chosen even
      when an English voice comes before it. */
  lemma PreferredBeatsEarlierEnglish(voices: seq<Voice>, i: nat, j: nat)
    requires i < j < |voices| && English(voices[i]) && !Preferred(voices[i]) && Preferred(voices[j])
    ensures SelectVoice(voices).Some? && SelectVoice(voices).value != voices[i]
  {
  }
}
