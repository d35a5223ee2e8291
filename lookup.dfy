/**
 * The Dictionary page once logged in: normalising the typed word, and turning the
 * dictionary service's answer into the lines the page shows, as the display options
 * in the sidebar select them.
 *
 * The service is a parameter from the normalised word to its already-decoded reply;
 * an optional JSON key is an `Option`.
 */
module Lookup {
  import Text

  datatype Option<T> = None | Some(value: T)

  datatype Phonetic = Phonetic(text: Option<string>, audio: Option<string>)

  datatype Definition = Definition(
    definition: string,
    example: Option<string>,
    synonyms: Option<seq<string>>,
    antonyms: Option<seq<string>>)

  datatype Meaning = Meaning(partOfSpeech: Option<string>, definitions: Option<seq<Definition>>)

  datatype Entry = Entry(word: string, phonetics: Option<seq<Phonetic>>, meanings: Option<seq<Meaning>>)

  /**
   * The decoded reply: the service's "No Definitions Found" object, some other object,
   * a list of entries, or a failure of the request or of the decoding.
   */
  datatype Reply = NoDefinitionsFound | OtherObject | EntryList(entries: seq<Entry>) | RequestFailed

  /** The check boxes and the display-style choice of the sidebar. */
  datatype Options = Options(
    showPhonetics: bool,
    playAudio: bool,
    showSynonyms: bool,
    showAntonyms: bool,
    showExamples: bool,
    detailed: bool)

  /** One line of the page. */
  datatype Line =
    | NotFoundNotice
    | FetchError
    | WordHeading(word: string)
    | PhoneticLine(text: string)
    | AudioLine(url: string)
    | MeaningsHeading
    | NumberedDefinition(partOfSpeech: string, number: nat, text: string)
    | BulletDefinition(text: string)
    | ExampleLine(example: string)
    | SynonymsLine(words: seq<string>)
    | AntonymsLine(words: seq<string>)

  /** How many synonyms or antonyms one definition shows at most. */
  const MaxListed: nat := 10

  /** Python's `xs[:n]`. */
  function Take<T>(xs: seq<T>, n: nat): (r: seq<T>)
    ensures |r| == if |xs| <= n then |xs| else n
    ensures r == xs[..|r|]
  {
    if |xs| <= n then xs else xs[..n]
  }

  /**
   * `st.text_input(...).strip().lower()`, and whether a lookup happens at all: only
   * for a word that is not all whitespace. The word looked up has no surrounding
   * whitespace and no upper-case letter: it is the stripped input, each character
   * lower-cased.
   */
  function NormalizedWord(input: string): (w: Option<string>)
    ensures w.None? <==> Text.Strip(input) == []
    ensures w.Some? ==> w.value != [] && |w.value| == |Text.Strip(input)| && Text.IsStripped(w.value)
    ensures w.Some? ==> forall i :: 0 <= i < |w.value| ==> !Text.IsUpper(w.value[i])
    ensures w.Some? ==> forall i :: 0 <= i < |w.value| ==> w.value[i] == Text.LowerChar(Text.Strip(input)[i])
  {
    Text.LowerKeepsShape(Text.Strip(input));
    var word := Text.Lower(Text.Strip(input));
    if word == [] then None else Some(word)
  }

  /** The lines of one phonetic entry: its text if it has one, its audio if wanted and non-empty. */
  function PhoneticBlock(ph: Phonetic, opts: Options): seq<Line> {
    (if ph.text.Some? then [PhoneticLine(ph.text.value)] else [])
    + (if opts.playAudio && ph.audio.Some? && ph.audio.value != [] then [AudioLine(ph.audio.value)] else [])
  }

  function PhoneticLines(phs: seq<Phonetic>, opts: Options): seq<Line> {
    if phs == [] then [] else PhoneticBlock(phs[0], opts) + PhoneticLines(phs[1..], opts)
  }

  /** The line that states a definition: numbered in the detailed style, a bullet in the minimal one. */
  function Headline(partOfSpeech: string, number: nat, d: Definition, opts: Options): Line {
    if opts.detailed then NumberedDefinition(partOfSpeech, number, d.definition) else BulletDefinition(d.definition)
  }

  /**
   * The lines of one definition: its headline, then its example when examples are
   * wanted and it has one, then its first ten synonyms and antonyms when those are
   * wanted and the list is non-empty.
   */
  function DefinitionBlock(partOfSpeech: string, number: nat, d: Definition, opts: Options): seq<Line> {
    [Headline(partOfSpeech, number, d, opts)]
    + (if opts.showExamples && d.example.Some? then [ExampleLine(d.example.value)] else [])
    + (if opts.showSynonyms && d.synonyms.Some? && d.synonyms.value != []
       then [SynonymsLine(Take(d.synonyms.value, MaxListed))] else [])
    + (if opts.showAntonyms && d.antonyms.Some? && d.antonyms.value != []
       then [AntonymsLine(Take(d.antonyms.value, MaxListed))] else [])
  }

  /** The definitions of one meaning, numbered on from `number`. */
  function DefinitionLines(partOfSpeech: string, defs: seq<Definition>, number: nat, opts: Options): seq<Line>
    decreases |defs|
  {
    if defs == [] then []
    else DefinitionBlock(partOfSpeech, number, defs[0], opts) + DefinitionLines(partOfSpeech, defs[1..], number + 1, opts)
  }

  function Or<T>(o: Option<T>, default: T): T {
    if o.Some? then o.value else default
  }

  /** One meaning: its definitions numbered from 1, under its part of speech ("" when absent). */
  function MeaningBlock(m: Meaning, opts: Options): seq<Line> {
    DefinitionLines(Or(m.partOfSpeech, ""), Or(m.definitions, []), 1, opts)
  }

  function MeaningLines(ms: seq<Meaning>, opts: Options): seq<Line> {
    if ms == [] then [] else MeaningBlock(ms[0], opts) + MeaningLines(ms[1..], opts)
  }

  /** The first entry of a reply: heading, phonetics when wanted and present, then the meanings. */
  function EntryLines(e: Entry, opts: Options): seq<Line> {
    [WordHeading(Text.Capitalize(e.word))]
    + (if opts.showPhonetics && e.phonetics.Some? then PhoneticLines(e.phonetics.value, opts) else [])
    + [MeaningsHeading]
    + MeaningLines(Or(e.meanings, []), opts)
  }

  /**
   * The page for a reply. Only the "No Definitions Found" object gives the not-found
   * notice; any other object, an empty list (indexing it raises) and a failed request
   * end in the handler's error line.
   */
  function Render(reply: Reply, opts: Options): (lines: seq<Line>)
    ensures lines != []
    ensures lines == [NotFoundNotice] <==> reply.NoDefinitionsFound?
    ensures lines == [FetchError] <==> reply.OtherObject? || reply.RequestFailed? || reply == EntryList([])
    ensures reply.EntryList? && reply.entries != [] ==>
      lines[0] == WordHeading(Text.Capitalize(reply.entries[0].word))
  {
    match reply
    case NoDefinitionsFound => [NotFoundNotice]
    case EntryList(entries) => if entries == [] then [FetchError] else EntryLines(entries[0], opts)
    case OtherObject => [FetchError]
    case RequestFailed => [FetchError]
  }

  /**
   * The page below the word box: nothing at all, and no request, for a word that is
   * blank once stripped; otherwise the rendered reply for the normalised word.
   */
  function LookupPage(input: string, service: string -> Reply, opts: Options): (lines: seq<Line>)
    ensures Text.Strip(input) == [] ==> lines == []
    ensures Text.Strip(input) != [] ==> lines != [] && lines == Render(service(NormalizedWord(input).value), opts)
  {
    match NormalizedWord(input)
    case None => []
    case Some(word) => Render(service(word), opts)
  }

  // ---------------------------------------------------------------------------
  // Properties of the page

  /** The definition lines among some lines of the page, in order. */
  function Headlines(lines: seq<Line>): seq<Line> {
    if lines == [] then []
    else (if lines[0].NumberedDefinition? || lines[0].BulletDefinition? then [lines[0]] else [])
         + Headlines(lines[1..])
  }

  lemma {:induction false} HeadlinesAppend(a: seq<Line>, b: seq<Line>)
    ensures Headlines(a + b) == Headlines(a) + Headlines(b)
    decreases |a|
  {
    if a == [] {
      assert a + b == b;
    } else {
      var ab := a + b;
      var first := if a[0].NumberedDefinition? || a[0].BulletDefinition? then [a[0]] else [];
      assert ab[0] == a[0];
      assert ab[1..] == a[1..] + b;
      assert Headlines(ab) == first + Headlines(ab[1..]);
      assert Headlines(a) == first + Headlines(a[1..]);
      HeadlinesAppend(a[1..], b);
      assert first + (Headlines(a[1..]) + Headlines(b)) == (first + Headlines(a[1..])) + Headlines(b);
    }
  }

  /** A definition's block has exactly one definition line, the first. */
  lemma {:induction false} BlockHeadlines(partOfSpeech: string, number: nat, d: Definition, opts: Options)
    ensures Headlines(DefinitionBlock(partOfSpeech, number, d, opts)) == [Headline(partOfSpeech, number, d, opts)]
  {
    var head := [Headline(partOfSpeech, number, d, opts)];
    var rest := DefinitionBlock(partOfSpeech, number, d, opts)[1..];
    assert DefinitionBlock(partOfSpeech, number, d, opts) == head + rest;
    assert forall l :: l in rest ==> !(l.NumberedDefinition? || l.BulletDefinition?);
    NoHeadlines(rest);
    HeadlinesAppend(head, rest);
  }

  lemma {:induction false} NoHeadlines(lines: seq<Line>)
    requires forall l :: l in lines ==> !(l.NumberedDefinition? || l.BulletDefinition?)
    ensures Headlines(lines) == []
    decreases |lines|
  {
    if lines != [] {
      assert lines[0] in lines;
      NoHeadlines(lines[1..]);
    }
  }

  /**
   * The definitions of a meaning appear once each and in order, the k-th numbered
   * `number + k` (or bulleted, in the minimal style).
   */
  lemma {:induction false} DefinitionNumbering(partOfSpeech: string, defs: seq<Definition>, number: nat, opts: Options)
    ensures Headlines(DefinitionLines(partOfSpeech, defs, number, opts))
         == seq(|defs|, k requires 0 <= k < |defs| => Headline(partOfSpeech, number + k, defs[k], opts))
    decreases |defs|
  {
    if defs != [] {
      BlockHeadlines(partOfSpeech, number, defs[0], opts);
      HeadlinesAppend(DefinitionBlock(partOfSpeech, number, defs[0], opts),
                      DefinitionLines(partOfSpeech, defs[1..], number + 1, opts));
      DefinitionNumbering(partOfSpeech, defs[1..], number + 1, opts);
    }
  }

  /** Within each meaning the definitions are numbered 1, 2, …, n in the detailed style. */
  lemma MeaningNumberedFromOne(m: Meaning, opts: Options)
    requires opts.detailed
    ensures var defs := Or(m.definitions, []);
      Headlines(MeaningBlock(m, opts))
        == seq(|defs|, k requires 0 <= k < |defs| => NumberedDefinition(Or(m.partOfSpeech, ""), k + 1, defs[k].definition))
  {
    DefinitionNumbering(Or(m.partOfSpeech, ""), Or(m.definitions, []), 1, opts);
  }

  /**
   * Every line that the options govern appears only when its option is on, and every
   * synonym or antonym list shown is non-empty and at most ten long.
   */
  ghost predicate Respects(lines: seq<Line>, opts: Options) {
    forall l :: l in lines ==>
      (l.PhoneticLine? ==> opts.showPhonetics)
      && (l.AudioLine? ==> opts.showPhonetics && opts.playAudio && l.url != [])
      && (l.ExampleLine? ==> opts.showExamples)
      && (l.SynonymsLine? ==> opts.showSynonyms && 0 < |l.words| <= MaxListed)
      && (l.AntonymsLine? ==> opts.showAntonyms && 0 < |l.words| <= MaxListed)
  }

  lemma {:induction false} DefinitionLinesRespect(partOfSpeech: string, defs: seq<Definition>, number: nat, opts: Options)
    ensures Respects(DefinitionLines(partOfSpeech, defs, number, opts), opts)
    decreases |defs|
  {
    if defs != [] {
      DefinitionLinesRespect(partOfSpeech, defs[1..], number + 1, opts);
    }
  }

  lemma {:induction false} MeaningLinesRespect(ms: seq<Meaning>, opts: Options)
    ensures Respects(MeaningLines(ms, opts), opts)
    decreases |ms|
  {
    if ms != [] {
      DefinitionLinesRespect(Or(ms[0].partOfSpeech, ""), Or(ms[0].definitions, []), 1, opts);
      MeaningLinesRespect(ms[1..], opts);
    }
  }

  lemma {:induction false} PhoneticLinesRespect(phs: seq<Phonetic>, opts: Options)
    requires opts.showPhonetics
    ensures Respects(PhoneticLines(phs, opts), opts)
    decreases |phs|
  {
    if phs != [] {
      PhoneticLinesRespect(phs[1..], opts);
    }
  }

  /** The whole page keeps to the options and to the ten-item cut. */
  lemma RenderRespects(reply: Reply, opts: Options)
    ensures Respects(Render(reply, opts), opts)
  {
    if reply.EntryList? && reply.entries != [] {
      var e := reply.entries[0];
      if opts.showPhonetics && e.phonetics.Some? {
        PhoneticLinesRespect(e.phonetics.value, opts);
      }
      MeaningLinesRespect(Or(e.meanings, []), opts);
    }
  }

  /**
   * A definition's example is shown exactly when examples are wanted and it has one, and
   * then as it is; its synonyms exactly when synonyms are wanted and it has a non-empty
   * list, and then as that list's first ten; likewise its antonyms.
   */
  lemma ListsShown(partOfSpeech: string, number: nat, d: Definition, opts: Options)
    ensures var block := DefinitionBlock(partOfSpeech, number, d, opts);
      ((opts.showExamples && d.example.Some?) <==> (exists l :: l in block && l.ExampleLine?))
      && (forall l :: l in block && l.ExampleLine? ==> l.example == d.example.value)
      && ((opts.showSynonyms && d.synonyms.Some? && d.synonyms.value != [])
         <==> (exists l :: l in block && l.SynonymsLine?))
      && (forall l :: l in block && l.SynonymsLine? ==> l.words == Take(d.synonyms.value, MaxListed))
      && ((opts.showAntonyms && d.antonyms.Some? && d.antonyms.value != [])
         <==> (exists l :: l in block && l.AntonymsLine?))
      && (forall l :: l in block && l.AntonymsLine? ==> l.words == Take(d.antonyms.value, MaxListed))
  {
    var block := DefinitionBlock(partOfSpeech, number, d, opts);
    if opts.showExamples && d.example.Some? {
      assert ExampleLine(d.example.value) in block;
    }
    if opts.showSynonyms && d.synonyms.Some? && d.synonyms.value != [] {
      assert SynonymsLine(Take(d.synonyms.value, MaxListed)) in block;
    }
    if opts.showAntonyms && d.antonyms.Some? && d.antonyms.value != [] {
      assert AntonymsLine(Take(d.antonyms.value, MaxListed)) in block;
    }
  }

  /**
   * A phonetic entry shows its text exactly when it has one, and then as it is; it
   * offers its audio exactly when audio is wanted and the URL is non-empty.
   */
  lemma PhoneticShown(ph: Phonetic, opts: Options)
    ensures var block := PhoneticBlock(ph, opts);
      (ph.text.Some? <==> (exists l :: l in block && l.PhoneticLine?))
      && (forall l :: l in block && l.PhoneticLine? ==> l.text == ph.text.value)
      && ((opts.playAudio && ph.audio.Some? && ph.audio.value != []) <==> (exists l :: l in block && l.AudioLine?))
      && (forall l :: l in block && l.AudioLine? ==> l.url == ph.audio.value)
  {
    var block := PhoneticBlock(ph, opts);
    if ph.text.Some? {
      assert PhoneticLine(ph.text.value) in block;
    }
    if opts.playAudio && ph.audio.Some? && ph.audio.value != [] {
      assert AudioLine(ph.audio.value) in block;
    }
  }
}
