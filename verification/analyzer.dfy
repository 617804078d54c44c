/** The chapter analyzer: `count_words_from_book` segments the lines of the
    extracted text into chapters at heading lines and counts each chapter's
    words; `average_words_per_chapter` averages the counts of every chapter
    but the prologue. */
module ChapterAnalyzer {
  import opened Wrappers
  import opened PyText
  import opened Ledgers

  const PrologueMarker: string := "Prólogo"
  const ChapterMarker: string := "Capítulo "

  /** The ledger key of the prologue, which the average leaves out. */
  const PrologueKey: Key := Some(PrologueMarker)

  // ---------------------------------------------------------------------
  // Heading recognition: `re.compile('Prólogo|Capítulo \w+').match(line)`.

  datatype Heading = PrologueHeading | ChapterHeading(word: string)

  /** The length of the longest prefix of `s` made of word characters
      (the greedy `\w+`). */
  function WordCharRun(s: string): (n: nat)
    ensures n <= |s|
    ensures forall i | 0 <= i < n :: IsWordChar(s[i])
    ensures n < |s| ==> !IsWordChar(s[n])
  {
    if s == [] || !IsWordChar(s[0]) then 0 else 1 + WordCharRun(s[1..])
  }

  /** The match of the heading pattern at the start of `line`, if any. */
  function MatchHeading(line: string): Option<Heading>
  {
    if StartsWith(line, PrologueMarker) then Some(PrologueHeading)
    else if StartsWith(line, ChapterMarker) && |ChapterMarker| < |line| && IsWordChar(line[|ChapterMarker|]) then
      var rest := line[|ChapterMarker|..];
      Some(ChapterHeading(rest[..WordCharRun(rest)]))
    else None
  }

  /** `line` starts with "Capítulo " followed by the non-empty run of word
      characters `w`: one way for `Capítulo \w+` to match. */
  predicate ChapterMatch(line: string, w: string)
  {
    && w != []
    && (forall i | 0 <= i < |w| :: IsWordChar(w[i]))
    && StartsWith(line, ChapterMarker + w)
  }

  /** The heading test succeeds exactly when the pattern
      `Prólogo|Capítulo \w+` matches at the start of the line: the line
      starts with "Prólogo", or with "Capítulo " and some non-empty run of
      word characters. */
  lemma HeadingIsPatternMatch(line: string)
    ensures IsHeading(line) <==> StartsWith(line, PrologueMarker) || exists w :: ChapterMatch(line, w)
  {
    var n := |ChapterMarker|;
    if !StartsWith(line, PrologueMarker) && StartsWith(line, ChapterMarker) && n < |line| && IsWordChar(line[n]) {
      var w := [line[n]];
      assert line[..|ChapterMarker + w|] == line[..n] + w;
      assert ChapterMatch(line, w);
    }
    if w :| ChapterMatch(line, w) {
      assert line[n] == (ChapterMarker + w)[n] == w[0];
      assert line[..n] == (ChapterMarker + w)[..n];
    }
  }

  /** The word a chapter heading carries records how far the greedy `\w+`
      reaches; the source uses only whether there is a match. That word is
      non-empty, made of word characters, and maximal. */
  lemma MatchHeadingIsPrefixMatch(line: string)
    ensures var m := MatchHeading(line);
      m.Some? && m.value.ChapterHeading? ==>
      var w := m.value.word;
      && StartsWith(line, ChapterMarker + w)
      && w != []
      && (forall i | 0 <= i < |w| :: IsWordChar(w[i]))
      && (|ChapterMarker + w| < |line| ==> !IsWordChar(line[|ChapterMarker + w|]))
  {
    if !StartsWith(line, PrologueMarker) && StartsWith(line, ChapterMarker) && |ChapterMarker| < |line| && IsWordChar(line[|ChapterMarker|]) {
      var rest := line[|ChapterMarker|..];
      var w := rest[..WordCharRun(rest)];
      assert line[..|ChapterMarker + w|] == ChapterMarker + w;
    }
  }

  predicate IsHeading(line: string)
  {
    MatchHeading(line).Some?
  }

  /** A raw input line is a heading when its right-stripped form is. */
  predicate IsHeadingLine(raw: string)
  {
    IsHeading(RStrip(raw))
  }

  predicate HasHeading(lines: seq<string>)
  {
    exists i | 0 <= i < |lines| :: IsHeadingLine(lines[i])
  }

  /** What a line adds to the chapter text: its right-stripped form, or
      nothing for a heading. */
  function LineText(raw: string): string
  {
    if IsHeadingLine(raw) then "" else RStrip(raw)
  }

  /** The right-stripped non-heading lines, joined with no separator. */
  function Text(lines: seq<string>): string
  {
    if lines == [] then "" else Text(lines[..|lines| - 1]) + LineText(lines[|lines| - 1])
  }

  /** The key each heading line opens, in input order. */
  function HeadingKeys(lines: seq<string>): (ks: seq<Key>)
    ensures ks == [] <==> !HasHeading(lines)
  {
    if lines == [] then []
    else
      var init, last := lines[..|lines| - 1], lines[|lines| - 1];
      assert forall i | 0 <= i < |init| :: init[i] == lines[i];
      HeadingKeys(init) + (if IsHeadingLine(last) then [Some(RStrip(last))] else [])
  }

  /** `ks` with every repetition of an earlier element removed. */
  function Dedupe(ks: seq<Key>): (r: seq<Key>)
    ensures forall k :: k in r <==> k in ks
    ensures forall i, j | 0 <= i < j < |r| :: r[i] != r[j]
  {
    if ks == [] then []
    else
      var d := Dedupe(ks[..|ks| - 1]);
      assert forall k :: k in ks <==> k in ks[..|ks| - 1] || k == ks[|ks| - 1];
      if ks[|ks| - 1] in d then d else d + [ks[|ks| - 1]]
  }

  // ---------------------------------------------------------------------
  // The scan as a state machine: one step per input line.

  /** The loop state of `count_words_from_book`. */
  datatype Scan = Scan(chapterText: string, chapterNumber: Key, chapters: Ledger)

  const Start: Scan := Scan("", None, Empty)

  /** The word count of the open chapter, flushed into the ledger. */
  function Flush(s: Scan): Ledger
  {
    s.chapters.Set(s.chapterNumber, WordCount(s.chapterText))
  }

  /** The key of a new chapter gets the placeholder 0 unless it already holds
      a non-zero count. */
  function Seed(chapters: Ledger, k: Key): Ledger
  {
    if chapters.Get(k, 0) == 0 then chapters.Set(k, 0) else chapters
  }

  function Step(s: Scan, raw: string): Scan
  {
    var line := RStrip(raw);
    if IsHeading(line) then
      var flushed := if s.chapterNumber.Some? then Scan("", s.chapterNumber, Flush(s)) else s;
      Scan(flushed.chapterText, Some(line), Seed(flushed.chapters, Some(line)))
    else
      s.(chapterText := s.chapterText + line)
  }

  function Run(s: Scan, lines: seq<string>): (r: Scan)
    ensures s.chapters.Valid() ==> r.chapters.Valid()
  {
    if lines == [] then s else Step(Run(s, lines[..|lines| - 1]), lines[|lines| - 1])
  }

  /** The ledger `count_words_from_book` returns for the given lines. */
  function CountWords(lines: seq<string>): (chapters: Ledger)
    ensures chapters.Valid()
  {
    Flush(Run(Start, lines))
  }

  // ---------------------------------------------------------------------
  // `count_words_from_book` as the source runs it, over the lines of the
  // book file.

  method CountWordsFromBook(lines: seq<string>) returns (chapters: Ledger)
    ensures chapters == CountWords(lines)
  {
    chapters := Empty;
    var chapterText := "";
    var chapterNumber: Key := None;
    for n := 0 to |lines|
      invariant Scan(chapterText, chapterNumber, chapters) == Run(Start, lines[..n])
    {
      ghost var s := Scan(chapterText, chapterNumber, chapters);
      assert lines[..n + 1] == lines[..n] + [lines[n]];
      RunSnoc(Start, lines[..n], lines[n]);
      var line := RStrip(lines[n]);
      var heading := MatchHeading(line);
      if heading.Some? {
        StepOnHeading(s, lines[n]);
        if chapterNumber.Some? {
          chapters := chapters.Set(chapterNumber, |Split(chapterText)|);
          chapterText := "";
        }
        var existing := chapters.Get(Some(line), 0);
        chapterNumber := Some(line);
        if existing == 0 {
          chapters := chapters.Set(Some(line), 0);
        }
        assert Scan(chapterText, chapterNumber, chapters) == Step(s, lines[n]);
      } else {
        StepOnText(s, lines[n]);
        chapterText := AppendLetters(chapterText, line);
      }
    }
    assert lines[..|lines|] == lines;
    chapters := chapters.Set(chapterNumber, |Split(chapterText)|);
  }

  /** The loop that adds a line to the chapter text letter by letter. */
  method AppendLetters(text: string, line: string) returns (r: string)
    ensures r == text + line
  {
    r := text;
    for j := 0 to |line|
      invariant r == text + line[..j]
    {
      assert line[..j + 1] == line[..j] + [line[j]];
      r := r + [line[j]];
    }
    assert line[..|line|] == line;
  }

  // ---------------------------------------------------------------------
  // The scan chapter by chapter.

  lemma {:induction false} RunAppend(s: Scan, a: seq<string>, b: seq<string>)
    ensures Run(s, a + b) == Run(Run(s, a), b)
    decreases |b|
  {
    if b == [] {
      assert a + b == a;
    } else {
      assert (a + b)[..|a + b| - 1] == a + b[..|b| - 1];
      RunAppend(s, a, b[..|b| - 1]);
    }
  }

  /** Lines that are not headings only grow the open chapter's text. */
  lemma {:induction false} RunWithoutHeading(s: Scan, body: seq<string>)
    requires !HasHeading(body)
    ensures Run(s, body) == s.(chapterText := s.chapterText + Text(body))
    decreases |body|
  {
    if body != [] {
      var init, last := body[..|body| - 1], body[|body| - 1];
      assert body == init + [last];
      assert forall i | 0 <= i < |init| :: init[i] == body[i];
      RunWithoutHeading(s, init);
      TextStep(s, init, last);
    }
  }

  lemma TextStep(s: Scan, init: seq<string>, last: string)
    requires !IsHeadingLine(last)
    requires Run(s, init) == s.(chapterText := s.chapterText + Text(init))
    ensures Run(s, init + [last]) == s.(chapterText := s.chapterText + Text(init + [last]))
  {
    RunSnoc(s, init, last);
    StepOnText(Run(s, init), last);
    TextSnoc(init, last);
    Associative(s.chapterText, Text(init), RStrip(last));
  }

  lemma TextSnoc(init: seq<string>, last: string)
    requires !IsHeadingLine(last)
    ensures Text(init + [last]) == Text(init) + RStrip(last)
  {
    assert (init + [last])[..|init|] == init;
  }

  /** Lines without a heading after some prefix only grow the text. */
  lemma RunThenBody(s: Scan, lines: seq<string>, body: seq<string>)
    requires !HasHeading(body)
    ensures Run(s, lines + body) == Run(s, lines).(chapterText := Run(s, lines).chapterText + Text(body))
  {
    RunAppend(s, lines, body);
    RunWithoutHeading(Run(s, lines), body);
  }

  lemma RunSnoc(s: Scan, lines: seq<string>, raw: string)
    ensures Run(s, lines + [raw]) == Step(Run(s, lines), raw)
  {
    assert (lines + [raw])[..|lines|] == lines;
  }

  /** Any other line is appended, right-stripped, to the open chapter. */
  lemma StepOnText(s: Scan, raw: string)
    requires !IsHeadingLine(raw)
    ensures Step(s, raw) == s.(chapterText := s.chapterText + RStrip(raw))
  {
  }

  /** A heading flushes the open chapter, if any, and opens its own. */
  lemma StepOnHeading(s: Scan, raw: string)
    requires IsHeadingLine(raw)
    ensures var k := Some(RStrip(raw));
      Step(s, raw) == if s.chapterNumber.Some?
        then Scan("", k, Seed(Flush(s), k))
        else Scan(s.chapterText, k, Seed(s.chapters, k))
  {
  }

  /** Without any heading, the whole text is counted under the key `None`. */
  lemma CountWordsWithoutHeading(lines: seq<string>)
    requires !HasHeading(lines)
    ensures CountWords(lines) == Ledger([None], map[None := WordCount(Text(lines))])
  {
    RunWithoutHeading(Start, lines);
    assert Run(Start, lines) == Scan(Text(lines), None, Empty);
    assert Empty.keys + [None] == [None];
  }

  /** The first heading opens the first chapter, and the text before it is
      counted into that chapter, joined to the chapter's own text with no
      separator. */
  lemma CountWordsFirstChapter(pre: seq<string>, heading: string, body: seq<string>)
    requires !HasHeading(pre) && IsHeadingLine(heading) && !HasHeading(body)
    ensures var k := Some(RStrip(heading));
      CountWords(pre + [heading] + body) == Ledger([k], map[k := WordCount(Text(pre) + Text(body))])
  {
    var k := Some(RStrip(heading));
    FirstHeading(pre, heading);
    RunThenBody(Start, pre + [heading], body);
    SetTwice(Empty, k, 0, WordCount(Text(pre) + Text(body)));
  }

  /** The state right after the first heading: the text before it is kept
      open under the heading's key, which holds the placeholder 0. */
  lemma FirstHeading(pre: seq<string>, heading: string)
    requires !HasHeading(pre) && IsHeadingLine(heading)
    ensures var k := Some(RStrip(heading));
      Run(Start, pre + [heading]) == Scan(Text(pre), k, Ledger([k], map[k := 0]))
  {
    var k := Some(RStrip(heading));
    RunSnoc(Start, pre, heading);
    RunWithoutHeading(Start, pre);
    StepOnHeading(Run(Start, pre), heading);
    assert Empty.keys + [k] == [k];
  }

  /** Once some chapter is open, a heading closes it: the ledger becomes the
      ledger of the text so far with the new heading's key assigned the word
      count of the lines after it. */
  lemma CountWordsNextChapter(lines: seq<string>, heading: string, body: seq<string>)
    requires HasHeading(lines) && IsHeadingLine(heading) && !HasHeading(body)
    ensures CountWords(lines + [heading] + body)
         == CountWords(lines).Set(Some(RStrip(heading)), WordCount(Text(body)))
  {
    var k := Some(RStrip(heading));
    RunOpensChapter(lines);
    RunAppend(Start, lines + [heading], body);
    RunSnoc(Start, lines, heading);
    StepOnHeading(Run(Start, lines), heading);
    var afterHeading := Scan("", k, Seed(CountWords(lines), k));
    assert Run(Start, lines + [heading]) == afterHeading;
    RunWithoutHeading(afterHeading, body);
    assert Run(Start, lines + [heading] + body) == afterHeading.(chapterText := Text(body));
    SetTwice(CountWords(lines), k, 0, WordCount(Text(body)));
  }

  /** The state after `lines`: a chapter is open exactly when a heading has
      been seen; the ledger then holds one key per distinct heading, in
      first-seen order, and the open chapter's key among them. */
  ghost predicate ChaptersOpened(lines: seq<string>)
  {
    var s := Run(Start, lines);
    && (!HasHeading(lines) ==> s.chapterNumber == None && s.chapters == Empty)
    && (HasHeading(lines) ==>
          && s.chapterNumber.Some?
          && s.chapterNumber in s.chapters.keys
          && s.chapters.keys == Dedupe(HeadingKeys(lines)))
  }

  lemma {:induction false} RunOpensChapter(lines: seq<string>)
    ensures ChaptersOpened(lines)
    decreases |lines|
  {
    if lines != [] {
      var init, last := lines[..|lines| - 1], lines[|lines| - 1];
      assert lines == init + [last];
      RunOpensChapter(init);
      if IsHeadingLine(last) {
        OpensOnHeading(init, last);
      } else {
        OpensOnText(init, last);
      }
    }
  }

  /** A heading line keeps `ChaptersOpened`. */
  lemma OpensOnHeading(init: seq<string>, last: string)
    requires ChaptersOpened(init) && IsHeadingLine(last)
    ensures ChaptersOpened(init + [last])
  {
    var lines := init + [last];
    var k := Some(RStrip(last));
    assert lines[..|lines| - 1] == init;
    assert HasHeading(lines) by {
      assert IsHeadingLine(lines[|lines| - 1]);
    }
    assert HeadingKeys(lines) == HeadingKeys(init) + [k];
    DedupeSnoc(HeadingKeys(init), k);
    RunSnoc(Start, init, last);
    if HasHeading(init) {
      LaterHeading(init, last);
    } else {
      FirstHeadingKeys(init, last);
    }
  }

  lemma FirstHeadingKeys(init: seq<string>, last: string)
    requires ChaptersOpened(init) && !HasHeading(init) && IsHeadingLine(last)
    ensures var s := Step(Run(Start, init), last);
      && s.chapterNumber == Some(RStrip(last))
      && s.chapters.keys == [Some(RStrip(last))]
  {
    var k := Some(RStrip(last));
    StepOnHeading(Run(Start, init), last);
    assert Empty.keys + [k] == [k];
  }

  lemma LaterHeading(init: seq<string>, last: string)
    requires ChaptersOpened(init) && HasHeading(init) && IsHeadingLine(last)
    ensures var s, k := Step(Run(Start, init), last), Some(RStrip(last));
      var keys := Run(Start, init).chapters.keys;
      && s.chapterNumber == k
      && s.chapters.keys == (if k in keys then keys else keys + [k])
      && k in s.chapters.keys
  {
    StepOnHeading(Run(Start, init), last);
    LaterHeadingKeys(Run(Start, init), Some(RStrip(last)));
  }

  lemma DedupeSnoc(ks: seq<Key>, k: Key)
    ensures Dedupe(ks + [k]) == if k in Dedupe(ks) then Dedupe(ks) else Dedupe(ks) + [k]
  {
    assert (ks + [k])[..|ks + [k]| - 1] == ks;
  }

  /** A heading after an open chapter: the flush keeps the keys, and the new
      key is appended unless it is already there. */
  lemma LaterHeadingKeys(s: Scan, k: Key)
    requires s.chapterNumber.Some? && s.chapterNumber in s.chapters.keys && s.chapters.Valid()
    ensures Seed(Flush(s), k).keys == if k in s.chapters.keys then s.chapters.keys else s.chapters.keys + [k]
    ensures k in Seed(Flush(s), k).keys
  {
    var flushed := Flush(s);
    assert flushed.keys == s.chapters.keys;
    assert k in flushed.keys <==> k in flushed.counts;
  }

  /** A line that is not a heading keeps `ChaptersOpened`. */
  lemma OpensOnText(init: seq<string>, last: string)
    requires ChaptersOpened(init) && !IsHeadingLine(last)
    ensures ChaptersOpened(init + [last])
  {
    var lines := init + [last];
    assert lines[..|lines| - 1] == init;
    assert forall i | 0 <= i < |init| :: init[i] == lines[i];
    RunSnoc(Start, init, last);
    assert HeadingKeys(lines) == HeadingKeys(init);
    assert HasHeading(lines) == HasHeading(init);
  }

  /** The ledger's keys are the distinct right-stripped heading lines, in the
      order each was first seen; with no heading the one key is `None`. */
  lemma CountWordsKeys(lines: seq<string>)
    ensures HasHeading(lines) ==> CountWords(lines).keys == Dedupe(HeadingKeys(lines))
    ensures !HasHeading(lines) ==> CountWords(lines).keys == [None]
  {
    RunOpensChapter(lines);
  }

  lemma {:induction false} HeadingKeysHas(lines: seq<string>, i: nat)
    requires i < |lines| && IsHeadingLine(lines[i])
    ensures Some(RStrip(lines[i])) in HeadingKeys(lines)
    decreases |lines|
  {
    if i < |lines| - 1 {
      HeadingKeysHas(lines[..|lines| - 1], i);
    }
  }

  /** Every heading line, right-stripped, is a key of the ledger. */
  lemma HeadingIsKey(lines: seq<string>, i: nat)
    requires i < |lines| && IsHeadingLine(lines[i])
    ensures Some(RStrip(lines[i])) in CountWords(lines).counts
  {
    HeadingKeysHas(lines, i);
    CountWordsKeys(lines);
  }

  /** A chapter whose heading ends the input is still flushed, with no
      words. */
  lemma EmptyLastChapter(lines: seq<string>, heading: string)
    requires HasHeading(lines) && IsHeadingLine(heading)
    ensures Some(RStrip(heading)) in CountWords(lines + [heading]).counts
    ensures CountWords(lines + [heading]).counts[Some(RStrip(heading))] == 0
  {
    CountWordsNextChapter(lines, heading, []);
    assert lines + [heading] + [] == lines + [heading];
  }

  /** A heading seen again keeps its place in the ledger, and its count is
      replaced by the count of its new chapter, not added to. */
  lemma RepeatedHeading(lines: seq<string>, heading: string, body: seq<string>)
    requires HasHeading(lines) && IsHeadingLine(heading) && !HasHeading(body)
    requires Some(RStrip(heading)) in CountWords(lines).counts
    ensures var before, after := CountWords(lines), CountWords(lines + [heading] + body);
      && after.keys == before.keys
      && after.counts == before.counts[Some(RStrip(heading)) := WordCount(Text(body))]
  {
    CountWordsNextChapter(lines, heading, body);
  }

  // ---------------------------------------------------------------------
  // `average_words_per_chapter`.

  /** The number of keys that are not the prologue's. */
  function ChapterCount(keys: seq<Key>): (n: nat)
    ensures n <= |keys|
    ensures n == 0 <==> forall i | 0 <= i < |keys| :: keys[i] == PrologueKey
  {
    if keys == [] then 0
    else
      var init := keys[..|keys| - 1];
      assert forall i | 0 <= i < |init| :: init[i] == keys[i];
      ChapterCount(init) + (if keys[|keys| - 1] == PrologueKey then 0 else 1)
  }

  /** The words of all chapters but the prologue. */
  function WordTotal(keys: seq<Key>, counts: map<Key, nat>): nat
    requires forall i | 0 <= i < |keys| :: keys[i] in counts
  {
    if keys == [] then 0
    else
      var k := keys[|keys| - 1];
      WordTotal(keys[..|keys| - 1], counts) + (if k == PrologueKey then 0 else counts[k])
  }

  /** Sum over the non-prologue entries divided by their number, or
      `ZeroDivisionError` when there is none. The quotient is exact. */
  method AverageWordsPerChapter(chapters: Ledger) returns (average: Result<real>)
    requires chapters.Valid()
    ensures average.Failure? <==> ChapterCount(chapters.keys) == 0
    ensures average.Failure? ==> average.error == ZeroDivisionError
    ensures average.Success? ==>
      average.value == WordTotal(chapters.keys, chapters.counts) as real / ChapterCount(chapters.keys) as real
  {
    var keys, counts := chapters.keys, chapters.counts;
    var howManyChapters := 0;
    var wordsInBook := 0;
    for i := 0 to |keys|
      invariant howManyChapters == ChapterCount(keys[..i])
      invariant wordsInBook == WordTotal(keys[..i], counts)
    {
      TallyStep(keys, counts, i);
      var chapter := keys[i];
      if chapter == PrologueKey {
      } else {
        howManyChapters := howManyChapters + 1;
        wordsInBook := wordsInBook + counts[chapter];
      }
    }
    assert keys[..|keys|] == keys;
    if howManyChapters == 0 {
      average := Failure(ZeroDivisionError);
    } else {
      average := Success(wordsInBook as real / howManyChapters as real);
    }
  }

  /** One more key adds one chapter and its words, unless it is the
      prologue's. */
  lemma TallyStep(keys: seq<Key>, counts: map<Key, nat>, i: nat)
    requires i < |keys| && forall j | 0 <= j < |keys| :: keys[j] in counts
    ensures ChapterCount(keys[..i + 1]) == ChapterCount(keys[..i]) + if keys[i] == PrologueKey then 0 else 1
    ensures WordTotal(keys[..i + 1], counts) == WordTotal(keys[..i], counts) + if keys[i] == PrologueKey then 0 else counts[keys[i]]
  {
    assert keys[..i + 1][..i] == keys[..i];
  }

  lemma {:induction false} PrologueIgnored(keys: seq<Key>, counts: map<Key, nat>, c: nat)
    requires forall i | 0 <= i < |keys| :: keys[i] in counts
    ensures WordTotal(keys, counts) == WordTotal(keys, counts[PrologueKey := c])
    decreases |keys|
  {
    if keys != [] {
      PrologueIgnored(keys[..|keys| - 1], counts, c);
    }
  }

  /** Whatever the prologue's count, and whether or not the ledger has a
      prologue entry at all, neither the number of chapters nor their words
      change. */
  lemma AverageIgnoresPrologue(chapters: Ledger, c: nat)
    requires chapters.Valid()
    ensures var d := chapters.Set(PrologueKey, c);
      && ChapterCount(d.keys) == ChapterCount(chapters.keys)
      && WordTotal(d.keys, d.counts) == WordTotal(chapters.keys, chapters.counts)
  {
    var d := chapters.Set(PrologueKey, c);
    PrologueIgnored(chapters.keys, chapters.counts, c);
    if PrologueKey !in chapters.keys {
      assert d.keys[..|d.keys| - 1] == chapters.keys;
      assert forall i | 0 <= i < |chapters.keys| :: chapters.keys[i] in d.counts;
    }
  }

  // ---------------------------------------------------------------------
  // A worked example.

  /** A word: non-empty, without whitespace. */
  predicate IsWord(w: string)
  {
    w != [] && forall i | 0 <= i < |w| :: !IsSpace(w[i])
  }

  lemma OneWord(w: string)
    requires IsWord(w)
    ensures WordCount(w) == 1
    ensures WordCount(" " + w) == 1
  {
    WordCountIsWordStarts(w);
    WordStartsOfRun(w);
    WordCountAppend(" ", w);
    assert Split(" ") == [];
  }

  /** Appending " w" to a text adds one word. */
  lemma SpaceThenWord(s: string, w: string)
    requires IsWord(w)
    ensures WordCount(s + " " + w) == WordCount(s) + 1
  {
    OneWord(w);
    assert s + " " + w == s + (" " + w);
    WordCountAppend(s, " " + w);
  }

  lemma ExampleHeadings()
    ensures RStrip(PrologueMarker) == PrologueMarker && IsHeadingLine(PrologueMarker)
    ensures RStrip(ChapterMarker + "1") == ChapterMarker + "1" && IsHeadingLine(ChapterMarker + "1")
  {
    assert RStrip(PrologueMarker) == PrologueMarker;
    assert RStrip(ChapterMarker + "1") == ChapterMarker + "1";
    assert StartsWith(PrologueMarker, PrologueMarker);
    assert StartsWith(ChapterMarker + "1", ChapterMarker);
  }

  /** A single line that ends in a non-blank and starts with neither "P" nor
      "C" is not a heading and is taken as it is. */
  lemma NotHeading(line: string)
    requires line != [] && line[0] != 'P' && line[0] != 'C' && !IsSpace(line[|line| - 1])
    ensures !IsHeadingLine(line) && !HasHeading([line]) && Text([line]) == line
  {
    assert RStrip(line) == line;
    assert !StartsWith(line, PrologueMarker) by {
      if |PrologueMarker| <= |line| { assert line[..|PrologueMarker|][0] == line[0]; }
    }
    assert !StartsWith(line, ChapterMarker) by {
      if |ChapterMarker| <= |line| { assert line[..|ChapterMarker|][0] == line[0]; }
    }
    assert [line][..0] == [];
  }

  /** Two distinct headings, each followed by heading-free lines: each key
      gets the words of the lines under it, in heading order. */
  lemma TwoChapters(h1: string, front: seq<string>, h2: string, body: seq<string>)
    requires IsHeadingLine(h1) && IsHeadingLine(h2) && RStrip(h1) != RStrip(h2)
    requires !HasHeading(front) && !HasHeading(body)
    ensures var k1, k2 := Some(RStrip(h1)), Some(RStrip(h2));
      CountWords([h1] + front + [h2] + body)
      == Ledger([k1, k2], map[k1 := WordCount(Text(front)), k2 := WordCount(Text(body))])
  {
    OpeningChapter(h1, front);
    CountWordsNextChapter([h1] + front, h2, body);
    SecondKey(Some(RStrip(h1)), WordCount(Text(front)), Some(RStrip(h2)), WordCount(Text(body)));
  }

  /** A ledger identity kept as its own lemma only to keep proof cost down
      in the callers. */
  lemma SecondKey(k1: Key, m: nat, k2: Key, n: nat)
    requires k1 != k2
    ensures Ledger([k1], map[k1 := m]).Set(k2, n) == Ledger([k1, k2], map[k1 := m, k2 := n])
  {
    assert [k1] + [k2] == [k1, k2];
  }

  /** A book that opens with a heading: its one key gets the words of the
      lines under it. */
  lemma OpeningChapter(h1: string, front: seq<string>)
    requires IsHeadingLine(h1) && !HasHeading(front)
    ensures HasHeading([h1] + front)
    ensures var k1 := Some(RStrip(h1));
      CountWords([h1] + front) == Ledger([k1], map[k1 := WordCount(Text(front))])
  {
    var none: seq<string> := [];
    CountWordsFirstChapter(none, h1, front);
    NothingBefore(h1, front);
    assert Text(none) + Text(front) == Text(front) by {
      assert Text(none) == [];
    }
    assert IsHeadingLine(([h1] + front)[0]);
  }

  /** A sequence identity kept as its own lemma only to keep proof cost
      down in the callers. */
  lemma NothingBefore(h: string, rest: seq<string>)
    ensures [] + [h] + rest == [h] + rest
  {
  }

  /** The words of a chapter whose text is spread over the lines
      "w3 w4 w5" and "w6": the lines are joined without a separator, so w5
      and w6 merge into one word and the chapter counts 3 words, not 4. */
  lemma LinesJoinWithoutSeparator(w3: string, w4: string, w5: string, w6: string)
    requires IsWord(w3) && IsWord(w4) && IsWord(w5) && IsWord(w6)
    requires w3[0] !in "PC" && w6[0] !in "PC"
    ensures !HasHeading([w3 + " " + w4 + " " + w5, w6])
    ensures WordCount(Text([w3 + " " + w4 + " " + w5, w6])) == 3
  {
    var l3 := w3 + " " + w4 + " " + w5;
    assert l3[0] == w3[0] && l3[|l3| - 1] == w5[|w5| - 1];
    TwoPlainLines(l3, w6);
    ThreeWordLine(w3, w4, w5);
    OneWord(w6);
    WordCountAppend(l3, w6);
    assert Glued(l3, w6);
  }

  lemma TwoPlainLines(a: string, b: string)
    requires a != [] && a[0] !in "PC" && !IsSpace(a[|a| - 1])
    requires b != [] && b[0] !in "PC" && !IsSpace(b[|b| - 1])
    ensures !HasHeading([a, b]) && Text([a, b]) == a + b
  {
    NotHeading(a);
    NotHeading(b);
    assert [a, b][..1] == [a];
  }

  lemma ThreeWordLine(w3: string, w4: string, w5: string)
    requires IsWord(w3) && IsWord(w4) && IsWord(w5)
    ensures WordCount(w3 + " " + w4 + " " + w5) == 3
  {
    OneWord(w3);
    SpaceThenWord(w3, w4);
    SpaceThenWord(w3 + " " + w4, w5);
  }

  /** Two words on one line count as two. */
  lemma TwoWordLine(w1: string, w2: string)
    requires IsWord(w1) && IsWord(w2) && w1[0] !in "PC"
    ensures !HasHeading([w1 + " " + w2])
    ensures WordCount(Text([w1 + " " + w2])) == 2
  {
    var l1 := w1 + " " + w2;
    assert l1[0] == w1[0] && l1[|l1| - 1] == w2[|w2| - 1];
    NotHeading(l1);
    OneWord(w1);
    SpaceThenWord(w1, w2);
  }

  /** A prologue and one chapter: the average is over the chapter alone. */
  lemma PrologueThenOneChapter(k: Key, p: nat, c: nat)
    requires k != PrologueKey
    ensures ChapterCount([PrologueKey, k]) == 1
    ensures WordTotal([PrologueKey, k], map[PrologueKey := p, k := c]) == c
  {
    var keys, counts := [PrologueKey, k], map[PrologueKey := p, k := c];
    assert keys[..1] == [PrologueKey] && [PrologueKey][..0] == [];
    assert WordTotal([PrologueKey], counts) == 0;
    assert WordTotal(keys, counts) == WordTotal([PrologueKey], counts) + counts[k];
  }

  /** A sequence identity kept as its own lemma only to keep proof cost
      down in the callers. */
  lemma FiveLines(a: string, b: string, c: string, d: string, e: string)
    ensures [a, b, c, d, e] == [a] + [b] + [c] + [d, e]
  {
  }

  /** The prologue with "w1 w2", then "Capítulo 1" with the lines
      "w3 w4 w5" and "w6": the prologue counts 2 words and the chapter 3,
      since its two lines are joined without a separator. */
  lemma PrologueAndOneChapter(w1: string, w2: string, w3: string, w4: string, w5: string, w6: string)
    requires IsWord(w1) && IsWord(w2) && IsWord(w3) && IsWord(w4) && IsWord(w5) && IsWord(w6)
    requires w1[0] !in "PC" && w3[0] !in "PC" && w6[0] !in "PC"
    ensures var book := [PrologueMarker, w1 + " " + w2, ChapterMarker + "1", w3 + " " + w4 + " " + w5, w6];
      var chapter := Some(ChapterMarker + "1");
      CountWords(book) == Ledger([PrologueKey, chapter], map[PrologueKey := 2, chapter := 3])
  {
    var l1, l3 := w1 + " " + w2, w3 + " " + w4 + " " + w5;
    var chapterLine := ChapterMarker + "1";
    var chapter := Some(chapterLine);
    var book := [PrologueMarker, l1, chapterLine, l3, w6];
    ExampleHeadings();
    TwoWordLine(w1, w2);
    LinesJoinWithoutSeparator(w3, w4, w5, w6);
    assert RStrip(PrologueMarker) != RStrip(chapterLine) by {
      assert PrologueMarker[0] != chapterLine[0];
    }
    TwoChapters(PrologueMarker, [l1], chapterLine, [l3, w6]);
    FiveLines(PrologueMarker, l1, chapterLine, l3, w6);
    assert CountWords(book) == Ledger([PrologueKey, chapter], map[PrologueKey := WordCount(Text([l1])), chapter := WordCount(Text([l3, w6]))]);
  }
}

