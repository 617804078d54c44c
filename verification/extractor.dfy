/** Text extraction from a Google Docs document body: a fold over the tree of
    structural elements (paragraphs, tables, tables of contents). */
module DocExtractor {
  import opened Wrappers
  import opened PyText

  /** A text run; its `content` key is assumed present. */
  datatype TextRun = TextRun(content: string)

  /** A paragraph element. `textRun` is `None` both when the key is absent and
      when it holds an empty (falsy) mapping. */
  datatype ParagraphElement = ParagraphElement(textRun: Option<TextRun>)

  /** A structural element carries exactly one of the keys `paragraph`,
      `table` or `tableOfContents`; `Other` is every element carrying none of
      them (section breaks and the like). */
  datatype StructuralElement =
    | Paragraph(elements: seq<ParagraphElement>)
    | Table(tableRows: seq<TableRow>)
    | TableOfContents(content: seq<StructuralElement>)
    | Other

  datatype TableRow = TableRow(tableCells: seq<TableCell>)

  datatype TableCell = TableCell(content: seq<StructuralElement>)

  /** `read_paragraph_element`: the run's content, or the empty string when
      the element has no text run. */
  function ReadParagraphElement(element: ParagraphElement): (text: string)
    ensures element.textRun.None? ==> text == ""
    ensures element.textRun.Some? ==> text == element.textRun.value.content
  {
    match element.textRun
    case None => ""
    case Some(run) => run.content
  }

  // ---------------------------------------------------------------------
  // Specification of `read_strucutural_elements`: each function is the
  // value of one of its loops, accumulated left to right.

  /** The text of a paragraph: its elements' texts in order. */
  function ParagraphText(elements: seq<ParagraphElement>): string
    decreases elements
  {
    if elements == [] then ""
    else ParagraphText(elements[..|elements| - 1]) + ReadParagraphElement(elements[|elements| - 1])
  }

  /** The text of a list of structural elements, in document order. */
  function Extract(elements: seq<StructuralElement>): string
    decreases elements, 1
  {
    if elements == [] then ""
    else Extract(elements[..|elements| - 1]) + ElementText(elements[|elements| - 1])
  }

  /** The text contributed by one structural element. */
  function ElementText(element: StructuralElement): string
    decreases element, 0
  {
    match element
    case Paragraph(elements) => ParagraphText(elements)
    case Table(rows) => TableText(rows)
    case TableOfContents(content) => Extract(content)
    case Other => ""
  }

  /** The text of a table: row by row. */
  function TableText(rows: seq<TableRow>): string
    decreases rows, 1
  {
    if rows == [] then ""
    else TableText(rows[..|rows| - 1]) + RowText(rows[|rows| - 1].tableCells)
  }

  /** The text of one row: cell by cell, each cell's content extracted. */
  function RowText(cells: seq<TableCell>): string
    decreases cells, 1
  {
    if cells == [] then ""
    else RowText(cells[..|cells| - 1]) + Extract(cells[|cells| - 1].content)
  }

  // ---------------------------------------------------------------------
  // Properties of the extracted text.

  /** Extraction distributes over concatenation of element lists: document
      order is preserved and nothing depends on what came before. */
  lemma {:induction false} ExtractAppend(a: seq<StructuralElement>, b: seq<StructuralElement>)
    ensures Extract(a + b) == Extract(a) + Extract(b)
    decreases |b|
  {
    if b == [] {
      assert a + b == a;
    } else {
      var b' := b[..|b| - 1];
      assert (a + b)[..|a + b| - 1] == a + b';
      assert Extract(a + b) == Extract(a + b') + ElementText(b[|b| - 1]);
      ExtractAppend(a, b');
    }
  }

  /** An element that is neither a paragraph, a table nor a table of contents
      contributes nothing, wherever it stands. */
  lemma OtherIsSkipped(a: seq<StructuralElement>, b: seq<StructuralElement>)
    ensures Extract(a + [Other] + b) == Extract(a + b)
  {
    ExtractAppend(a + [Other], b);
    ExtractAppend(a, [Other]);
    ExtractAppend(a, b);
  }

  /** The contents of all cells of a table, row-major, as one element list. */
  function CellContents(rows: seq<TableRow>): seq<StructuralElement>
  {
    if rows == [] then [] else CellContents(rows[..|rows| - 1]) + RowContents(rows[|rows| - 1].tableCells)
  }

  function RowContents(cells: seq<TableCell>): seq<StructuralElement>
  {
    if cells == [] then [] else RowContents(cells[..|cells| - 1]) + cells[|cells| - 1].content
  }

  lemma {:induction false} RowIsCellByCell(cells: seq<TableCell>)
    ensures RowText(cells) == Extract(RowContents(cells))
    decreases |cells|
  {
    if cells != [] {
      var init := cells[..|cells| - 1];
      RowIsCellByCell(init);
      ExtractAppend(RowContents(init), cells[|cells| - 1].content);
    }
  }

  /** A table's text is the text of its cells' contents laid out row-major;
      a table of contents' text is the text of its content. */
  lemma {:induction false} TableIsRowMajor(rows: seq<TableRow>)
    ensures Extract([Table(rows)]) == Extract(CellContents(rows))
  {
    TableRowsAreRowMajor(rows);
    assert [Table(rows)][..0] == [];
  }

  lemma {:induction false} TableRowsAreRowMajor(rows: seq<TableRow>)
    ensures TableText(rows) == Extract(CellContents(rows))
    decreases |rows|
  {
    if rows != [] {
      var init := rows[..|rows| - 1];
      TableRowsAreRowMajor(init);
      RowIsCellByCell(rows[|rows| - 1].tableCells);
      ExtractAppend(CellContents(init), RowContents(rows[|rows| - 1].tableCells));
    }
  }

  lemma TableOfContentsIsItsContent(content: seq<StructuralElement>)
    ensures Extract([TableOfContents(content)]) == Extract(content)
  {
    assert [TableOfContents(content)][..0] == [];
  }

  // ---------------------------------------------------------------------
  // Reference definition: the text runs reachable from an element list, in
  // depth-first pre-order. Extraction is their concatenation.

  function ParagraphRuns(elements: seq<ParagraphElement>): seq<string>
  {
    if elements == [] then []
    else
      var last := elements[|elements| - 1];
      ParagraphRuns(elements[..|elements| - 1]) + (if last.textRun.Some? then [last.textRun.value.content] else [])
  }

  function Runs(elements: seq<StructuralElement>): seq<string>
    decreases elements, 1
  {
    if elements == [] then [] else Runs(elements[..|elements| - 1]) + ElementRuns(elements[|elements| - 1])
  }

  function ElementRuns(element: StructuralElement): seq<string>
    decreases element, 0
  {
    match element
    case Paragraph(elements) => ParagraphRuns(elements)
    case Table(rows) => TableRuns(rows)
    case TableOfContents(content) => Runs(content)
    case Other => []
  }

  function TableRuns(rows: seq<TableRow>): seq<string>
    decreases rows, 1
  {
    if rows == [] then [] else TableRuns(rows[..|rows| - 1]) + RowRuns(rows[|rows| - 1].tableCells)
  }

  function RowRuns(cells: seq<TableCell>): seq<string>
    decreases cells, 1
  {
    if cells == [] then [] else RowRuns(cells[..|cells| - 1]) + Runs(cells[|cells| - 1].content)
  }

  lemma {:induction false} ParagraphIsItsRuns(elements: seq<ParagraphElement>)
    ensures ParagraphText(elements) == Concat(ParagraphRuns(elements))
    decreases |elements|
  {
    if elements != [] {
      var init := elements[..|elements| - 1];
      var last := elements[|elements| - 1];
      ParagraphIsItsRuns(init);
      ConcatAppend(ParagraphRuns(init), if last.textRun.Some? then [last.textRun.value.content] else []);
      assert Concat([]) == "";
      if last.textRun.Some? {
        assert Concat([last.textRun.value.content]) == Concat([]) + last.textRun.value.content;
      }
    }
  }

  /** The extracted text is exactly the concatenation of the reachable text
      runs, in document order. */
  lemma {:induction false} ExtractIsConcatOfRuns(elements: seq<StructuralElement>)
    ensures Extract(elements) == Concat(Runs(elements))
    decreases elements, 1
  {
    if elements != [] {
      var init := elements[..|elements| - 1];
      ExtractIsConcatOfRuns(init);
      ElementIsConcatOfRuns(elements[|elements| - 1]);
      ConcatAppend(Runs(init), ElementRuns(elements[|elements| - 1]));
    }
  }

  lemma {:induction false} ElementIsConcatOfRuns(element: StructuralElement)
    ensures ElementText(element) == Concat(ElementRuns(element))
    decreases element, 0
  {
    match element
    case Paragraph(elements) => ParagraphIsItsRuns(elements);
    case Table(rows) => TableIsConcatOfRuns(rows);
    case TableOfContents(content) => ExtractIsConcatOfRuns(content);
    case Other =>
  }

  lemma {:induction false} TableIsConcatOfRuns(rows: seq<TableRow>)
    ensures TableText(rows) == Concat(TableRuns(rows))
    decreases rows, 1
  {
    if rows != [] {
      var init := rows[..|rows| - 1];
      TableIsConcatOfRuns(init);
      RowIsConcatOfRuns(rows[|rows| - 1].tableCells);
      ConcatAppend(TableRuns(init), RowRuns(rows[|rows| - 1].tableCells));
    }
  }

  lemma {:induction false} RowIsConcatOfRuns(cells: seq<TableCell>)
    ensures RowText(cells) == Concat(RowRuns(cells))
    decreases cells, 1
  {
    if cells != [] {
      var init := cells[..|cells| - 1];
      RowIsConcatOfRuns(init);
      ExtractIsConcatOfRuns(cells[|cells| - 1].content);
      ConcatAppend(RowRuns(init), Runs(cells[|cells| - 1].content));
    }
  }

  /** No character is invented or dropped: the extracted text is exactly as
      long as all reachable text runs together. */
  lemma ExtractLength(elements: seq<StructuralElement>)
    ensures |Extract(elements)| == TotalLength(Runs(elements))
  {
    ExtractIsConcatOfRuns(elements);
    ConcatLength(Runs(elements));
  }

  // ---------------------------------------------------------------------
  // `read_strucutural_elements` as the source runs it: loops growing a
  // local string, recursing into table cells and tables of contents.

  method ReadStructuralElements(elements: seq<StructuralElement>) returns (text: string)
    ensures text == Extract(elements)
    decreases elements, 1
  {
    text := "";
    for i := 0 to |elements|
      invariant text == Extract(elements[..i])
    {
      assert elements[..i + 1][..i] == elements[..i];
      match elements[i]
      case Paragraph(paragraph) =>
        var paragraphText := ReadParagraph(paragraph);
        text := text + paragraphText;
      case Table(rows) =>
        var tableText := ReadTable(rows);
        text := text + tableText;
      case TableOfContents(content) =>
        var tocText := ReadStructuralElements(content);
        text := text + tocText;
      case Other =>
    }
    assert elements[..|elements|] == elements;
  }

  /** The loop over a paragraph's elements. */
  method ReadParagraph(paragraph: seq<ParagraphElement>) returns (text: string)
    ensures text == ParagraphText(paragraph)
  {
    text := "";
    for j := 0 to |paragraph|
      invariant text == ParagraphText(paragraph[..j])
    {
      assert paragraph[..j + 1][..j] == paragraph[..j];
      text := text + ReadParagraphElement(paragraph[j]);
    }
    assert paragraph[..|paragraph|] == paragraph;
  }

  /** The loops over a table's rows and each row's cells. */
  method ReadTable(rows: seq<TableRow>) returns (text: string)
    ensures text == TableText(rows)
    decreases rows, 1
  {
    text := "";
    for r := 0 to |rows|
      invariant text == TableText(rows[..r])
    {
      assert rows[..r + 1][..r] == rows[..r];
      var cells := rows[r].tableCells;
      var before := text;
      for c := 0 to |cells|
        invariant text == before + RowText(cells[..c])
      {
        assert cells[..c + 1][..c] == cells[..c];
        var cellText := ReadStructuralElements(cells[c].content);
        text := text + cellText;
      }
      assert cells[..|cells|] == cells;
    }
    assert rows[..|rows|] == rows;
  }
}
