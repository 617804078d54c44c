# word_counter: text extraction and chapter word counts

This project models the core of `text-extractor-googledocs.py`, a script that downloads a book from Google Docs and counts its words chapter by chapter. The core has two parts, joined only by the plain text that one produces and the other reads.

- **Extraction** (`read_paragraph_element`, `read_strucutural_elements`). The document body is a tree of structural elements: paragraphs, tables whose cells hold further structural elements, and tables of contents. Extraction walks the tree in document order and concatenates the `content` of every text run. `DocExtractor` models this as a recursive specification, `Extract`. The looping method `ReadStructuralElements` is proved equal to it. Lemmas show that:
  - extraction distributes over concatenation;
  - elements of any other kind are skipped;
  - tables read row-major;
  - the result is exactly the reachable text runs, joined.
- **Chapter tally** (`count_words_from_book`). This is a single pass over the lines of the book file. Each line is right-stripped. A line that starts with `Prólogo`, or with `Capítulo ` and a word character, is a heading. A heading closes the open chapter, which is counted with `str.split()`, and opens a new one keyed by the whole stripped line. Any other line is appended to the open chapter's text. `ChapterAnalyzer` models this as a state machine:
  - the state is `Scan`;
  - one line is handled by `Step`;
  - the whole input is handled by `Run` and `CountWords`;
  - the imperative method `CountWordsFromBook` is proved equal to `CountWords`.

  Three decomposition lemmas characterise the result chapter by chapter: no heading at all, the first heading, and every later heading.
- **Average** (`average_words_per_chapter`). This is the sum of the counts of all entries whose key is not exactly `Prólogo`, divided by their number. It fails with `ZeroDivisionError` when there is no such entry.

The Python dict is modelled as `Ledgers.Ledger`: an insertion-ordered key list together with a map, because dict iteration follows first insertion. `PyText` models the string operations the analyzer depends on:
- `str.isspace`, `rstrip` and `split()`;
- `\w` within Latin-1;
- iteration over a text file's lines.

The model follows the code in these places, where a reader of the script might assume otherwise:
- **Prefix match.** The heading test is a prefix match (`re.match`), so a line such as `Capítulo 1: O início` is a heading, and its whole right-stripped text is the key.
- **No separator between lines.** Non-heading lines are joined with no separator: `one two three` followed by `four` is `one two threefour`, which is 3 words. The worked example `PrologueAndOneChapter` therefore counts 3 words for its chapter, not 4.
- **Text before the first heading is kept.** It is counted into the first chapter, because the buffer is reset only when a chapter is flushed.
- **No heading at all.** The input is counted under the single key `None`.
- **Repeated headings.** A heading seen again keeps its position in the dict, and its count is overwritten, not added to.

## Model

| member | source | states |
|---|---|---|
| DocExtractor.ReadParagraphElement | text-extractor-googledocs.py:54-64 | The empty string when the element has no text run; otherwise the run's content, unchanged. |
| DocExtractor.ReadStructuralElements | text-extractor-googledocs.py:67-96 | The loop over the elements, including nested table and table-of-contents recursion, returns exactly `Extract(elements)`. |
| DocExtractor.ReadParagraph | text-extractor-googledocs.py:76-79 | The loop over a paragraph's elements returns the concatenation of their texts in order (`ParagraphText`). |
| DocExtractor.ReadTable | text-extractor-googledocs.py:81-89 | The row loop and the cell loop return the texts of the cell contents, row by row and then cell by cell (`TableText`). |
| DocExtractor.ExtractAppend | text-extractor-googledocs.py:74-96 | `Extract(a + b) == Extract(a) + Extract(b)`: document order is kept, and an element's text does not depend on what precedes it. |
| DocExtractor.OtherIsSkipped | text-extractor-googledocs.py:76-94 | An element that is neither a paragraph, a table nor a table of contents contributes nothing, wherever it stands. |
| DocExtractor.RowIsCellByCell | text-extractor-googledocs.py:86-89 | A row's text is the extraction of its cells' contents, concatenated in cell order. |
| DocExtractor.TableRowsAreRowMajor | text-extractor-googledocs.py:84-89 | A table's rows yield the extraction of all cell contents laid out row-major. |
| DocExtractor.TableIsRowMajor | text-extractor-googledocs.py:81-89 | A table element's text equals the extraction of all its cells' contents, row-major. |
| DocExtractor.TableOfContentsIsItsContent | text-extractor-googledocs.py:91-94 | A table of contents contributes exactly the extraction of its content. |
| DocExtractor.ParagraphIsItsRuns | text-extractor-googledocs.py:76-79 | A paragraph's text is the concatenation of the contents of its text runs. |
| DocExtractor.ExtractIsConcatOfRuns | text-extractor-googledocs.py:74-96 | The extracted text is the concatenation, in document order, of every reachable text run's content. |
| DocExtractor.ElementIsConcatOfRuns | text-extractor-googledocs.py:76-94 | One element's text is the concatenation of the text runs reachable from it. |
| DocExtractor.TableIsConcatOfRuns | text-extractor-googledocs.py:84-89 | A table's text is the concatenation of the text runs in its cells, row-major. |
| DocExtractor.RowIsConcatOfRuns | text-extractor-googledocs.py:86-89 | A row's text is the concatenation of the text runs in its cells. |
| DocExtractor.ExtractLength | text-extractor-googledocs.py:74-96 | The length of the extracted text is the sum of the lengths of all reachable run contents: no character is invented or dropped. |
| PyText.RStrip | text-extractor-googledocs.py:106 | The result is a prefix of the line that is empty or does not end in whitespace, and everything removed is whitespace. |
| PyText.RunLength | text-extractor-googledocs.py:115 | The length of the longest whitespace-free prefix: all characters before it are non-blank, and the one at it is blank. |
| PyText.Split | text-extractor-googledocs.py:115 | Every word `split()` yields is non-empty and contains no whitespace. |
| PyText.WordCountIsWordStarts | text-extractor-googledocs.py:115 | The number of words `split()` yields equals the number of positions where a non-blank follows a blank or the start. |
| PyText.NoWordsIffBlank | text-extractor-googledocs.py:115 | A text has no words exactly when it is all whitespace. |
| PyText.WordCountAppend | text-extractor-googledocs.py:128-131 | The word count of a concatenation is the sum of the counts, less one when the two texts are glued at a non-blank boundary. |
| PyText.WordStartsAppend | text-extractor-googledocs.py:115 | The count of word starts distributes over concatenation, less one at a glued boundary. |
| PyText.WordStartsOfRun | text-extractor-googledocs.py:115 | A non-empty whitespace-free text has exactly one word start. |
| PyText.LineLength | text-extractor-googledocs.py:105 | A file line runs up to and including the first newline, or to the end of the text. |
| PyText.FileLinesJoin | text-extractor-googledocs.py:105 | Joining the lines that iterating over a file yields gives back the file's text. |
| PyText.FileLinesShape | text-extractor-googledocs.py:105 | Every line is non-empty; a newline can only end a line; and every line but the last ends in one. |
| PyText.ConcatAppend | text-extractor-googledocs.py:127-129 | Joining without a separator distributes over concatenation, and so do the total lengths. |
| PyText.ConcatLength | text-extractor-googledocs.py:127-129 | The length of a join is the sum of the parts' lengths. |
| Ledgers.Ledger.Set | text-extractor-googledocs.py:116 | `d[k] = v` replaces the value of a present key in place, and a new key goes to the end. Distinct keys, each with a value, are preserved. |
| Ledgers.SetTwice | text-extractor-googledocs.py:121-125 | Assigning a key twice equals assigning the second value only; the key's position is fixed by the first assignment. |
| ChapterAnalyzer.WordCharRun | text-extractor-googledocs.py:109-110 | The greedy `\w+`: every character in the run is a word character, and the next one is not. |
| ChapterAnalyzer.HeadingIsPatternMatch | text-extractor-googledocs.py:109-112 | A line is a heading exactly when the heading pattern matches at its start: it starts with `Prólogo`, or with `Capítulo ` and some non-empty run of word characters. |
| ChapterAnalyzer.MatchHeadingIsPrefixMatch | text-extractor-googledocs.py:109-110 | The word a chapter match carries is the greedy `\w+`: it follows `Capítulo ` at the start of the line, is non-empty and made of word characters, and is not followed by another word character. |
| ChapterAnalyzer.HeadingKeys | text-extractor-googledocs.py:112-121 | There are no heading keys exactly when no line is a heading. |
| ChapterAnalyzer.Dedupe | text-extractor-googledocs.py:124-125 | Removing repetitions keeps exactly the same keys, and leaves them distinct. |
| ChapterAnalyzer.Run | text-extractor-googledocs.py:105-129 | Scanning lines keeps the ledger well-formed: distinct keys, each with a value. |
| ChapterAnalyzer.CountWords | text-extractor-googledocs.py:98-134 | The ledger is well-formed. |
| ChapterAnalyzer.CountWordsFromBook | text-extractor-googledocs.py:98-134 | The loop with its flush, reset, seeding and letter-by-letter append, plus the final flush, returns exactly `CountWords(lines)`. |
| ChapterAnalyzer.AppendLetters | text-extractor-googledocs.py:127-129 | Appending a line letter by letter gives the old text followed by the line. |
| ChapterAnalyzer.RunAppend | text-extractor-googledocs.py:105 | Scanning `a + b` is scanning `a`, then continuing over `b`. |
| ChapterAnalyzer.RunWithoutHeading | text-extractor-googledocs.py:127-129 | Lines that are not headings only append their right-stripped text to the open chapter; the ledger and key are unchanged. |
| ChapterAnalyzer.StepOnText | text-extractor-googledocs.py:106-129 | A non-heading line appends its right-stripped text to the open chapter. |
| ChapterAnalyzer.StepOnHeading | text-extractor-googledocs.py:112-125 | A heading flushes the open chapter if there is one, resets the text, and seeds its own key. |
| ChapterAnalyzer.CountWordsWithoutHeading | text-extractor-googledocs.py:103-132 | With no heading, the result is the single entry `None` mapped to the word count of the whole joined text. |
| ChapterAnalyzer.CountWordsFirstChapter | text-extractor-googledocs.py:103-132 | Before any other heading, the text before the first heading is counted into the first chapter, joined to the chapter's own text with no separator. |
| ChapterAnalyzer.FirstHeading | text-extractor-googledocs.py:112-125 | Right after the first heading, the text before it is still open, under the heading's key, which holds the placeholder 0. |
| ChapterAnalyzer.CountWordsNextChapter | text-extractor-googledocs.py:112-132 | Once a chapter is open, a heading and its body change the result into the earlier result with the heading's key set to the body's word count. |
| ChapterAnalyzer.RunOpensChapter | text-extractor-googledocs.py:112-125 | After any lines, a chapter is open exactly when a heading was seen. The keys are then the distinct headings in first-seen order, and the open key is among them. |
| ChapterAnalyzer.OpensOnHeading | text-extractor-googledocs.py:112-125 | A heading line preserves that state invariant. |
| ChapterAnalyzer.OpensOnText | text-extractor-googledocs.py:127-129 | A non-heading line preserves that state invariant. |
| ChapterAnalyzer.CountWordsKeys | text-extractor-googledocs.py:120-132 | The result's keys are the distinct right-stripped heading lines in first-seen order; with no heading they are `[None]`. |
| ChapterAnalyzer.HeadingIsKey | text-extractor-googledocs.py:120-125 | Every heading line, right-stripped, is a key of the result. |
| ChapterAnalyzer.EmptyLastChapter | text-extractor-googledocs.py:131-132 | A heading that ends the input is still flushed, with 0 words. |
| ChapterAnalyzer.RepeatedHeading | text-extractor-googledocs.py:116-125 | A recurring heading keeps its position, and its count is replaced by that of its latest chapter, not summed. |
| ChapterAnalyzer.ChapterCount | text-extractor-googledocs.py:141-145 | The number of entries other than the prologue is at most the number of keys, and is zero exactly when every key is the prologue's. |
| ChapterAnalyzer.AverageWordsPerChapter | text-extractor-googledocs.py:137-149 | The result fails with `ZeroDivisionError` exactly when there is no chapter besides the prologue. Otherwise it is the word total of those chapters divided by their number. |
| ChapterAnalyzer.TallyStep | text-extractor-googledocs.py:141-146 | One more key adds one chapter and its words, unless the key is exactly `Prólogo`. |
| ChapterAnalyzer.PrologueIgnored | text-extractor-googledocs.py:142-146 | The word total does not depend on the prologue's count. |
| ChapterAnalyzer.AverageIgnoresPrologue | text-extractor-googledocs.py:142-146 | Setting the prologue's count, or adding a prologue entry, changes neither the number of chapters nor their word total. |
| ChapterAnalyzer.TwoChapters | text-extractor-googledocs.py:98-134 | A book of two distinct headings, each followed by plain lines, yields both keys in order, each with its own lines' word count. |
| ChapterAnalyzer.OpeningChapter | text-extractor-googledocs.py:98-134 | A book that opens with a heading yields that one key with the word count of the lines under it. |
| ChapterAnalyzer.LinesJoinWithoutSeparator | text-extractor-googledocs.py:127-131 | The lines "w3 w4 w5" and "w6" make 3 words, because w5 and w6 merge. |
| ChapterAnalyzer.PrologueThenOneChapter | text-extractor-googledocs.py:141-148 | With a prologue and one chapter, the average is taken over the one chapter alone. |
| ChapterAnalyzer.PrologueAndOneChapter | text-extractor-googledocs.py:98-134 | `Prólogo`, "w1 w2", `Capítulo 1`, "w3 w4 w5", "w6" gives `{Prólogo: 2, Capítulo 1: 3}`, in that order. |

## Left out

- `get_credentials` and `main`: the OAuth flow, token storage and the Google Docs API calls are network and foreign-library code. The document body is a parameter (`seq<StructuralElement>`).
- Writing the extracted text to a file and reading it back. `CountWordsFromBook` takes the file's lines as a sequence. `PyText.FileLines` models how iterating over a text file splits the text, but newline translation in text mode is not modelled.
- `print_word_counter`: console output and number formatting.
- ChapterAnalyzer.AverageWordsPerChapter: returns the exact quotient as a `real`, not the IEEE double that Python's `/` gives, so rounding is not modelled.
- PyText.IsWordChar: covers `\w` only within Latin-1. Letters and digits outside Latin-1 are not recognised as word characters in a chapter heading.
- DocExtractor.ReadStructuralElements: the datatype always has the fields the source reads, so four `TypeError`s of the source cannot arise here. They are a paragraph without `elements`, a table without `tableRows`, a row without `tableCells`, and a cell or table of contents without `content`. In each case the source iterates over `None`.
- A text run without a `content` key, which makes `read_paragraph_element` return `None`. Concatenating that raises `TypeError`. Every text run carries its content here.
- A structural element with several of the keys `paragraph`, `table` and `tableOfContents`. The source takes the first in that order; the datatype carries exactly one.
