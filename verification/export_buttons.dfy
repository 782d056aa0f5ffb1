/** The export component: the DOCX export's own grading and the document it
    assembles, the tiling of the card's image over PDF pages, and what each
    button's handler ends up doing (files saved, notifications shown). */
module ExportButtons {
  import opened JsBuiltins
  import opened StudentForm
  import opened ResultCard

  // ---------------------------------------------------------------------
  // DOCX grading: the same computation as the card, written again

  /** The nested ternary of the DOCX export; it agrees with the card's
      `calculateGrade` on every integer. */
  function DocxGrade(average: int): (grade: string)
    ensures grade == CalculateGrade(average).Text()
  {
    if average >= 85 then "A" else if average >= 70 then "B" else if average >= 50 then "S" else "NI"
  }

  /** The DOCX export's row for one subject entry: the very row the card
      computes for it. */
  function DocxResultOf(e: SubjectEntry): (r: SubjectResult)
    ensures r == ResultOf(e)
  {
    var average := MathRound((e.marks.termMarks + e.marks.examMarks) as real / 2.0);
    SubjectResult(e.subject, e.marks.termMarks, e.marks.examMarks, average, DocxGrade(average))
  }

  /** The DOCX export's `subjectResults`. */
  function DocxSubjectResults(entries: seq<SubjectEntry>): (rows: seq<SubjectResult>)
    ensures |rows| == |entries|
  {
    if entries == [] then [] else [DocxResultOf(entries[0])] + DocxSubjectResults(entries[1..])
  }

  /** The DOCX export's `overallAverage`: `Math.round(sum / length)`, NaN for
      no rows. */
  function DocxOverallAverage(rows: seq<SubjectResult>): (avg: Num)
    ensures avg.NaN? <==> rows == []
  {
    if rows == [] then NaN else Finite(MathRound(SumAverages(rows) as real / |rows| as real))
  }

  /** For every record the DOCX rows are the card's rows: same subjects in
      the same order, same marks, same averages, same grades. */
  lemma {:induction false} DocxRowsMatchCard(entries: seq<SubjectEntry>)
    ensures DocxSubjectResults(entries) == SubjectResults(entries)
  {
    if entries != [] {
      DocxRowsMatchCard(entries[1..]);
      assert DocxResultOf(entries[0]) == ResultOf(entries[0]);
    }
  }

  /** For every record the DOCX export computes exactly the values the card
      shows: the rows and the overall average. */
  lemma DocxMatchesCard(d: StudentData)
    ensures DocxSubjectResults(d.subjects) == Card(d).rows
    ensures DocxOverallAverage(DocxSubjectResults(d.subjects)) == Card(d).overallAverage
  {
    DocxRowsMatchCard(d.subjects);
  }

  // ---------------------------------------------------------------------
  // The DOCX document

  /** The header row of the subject table. */
  const HeaderRow: seq<string> := ["Subject", "Term %", "Examination %", "Average %", "Grade"]

  /** The cells of one subject row. */
  function RowCells(r: SubjectResult): (cells: seq<string>)
    ensures |cells| == |HeaderRow|
    ensures cells[0] == r.subject && cells[4] == r.grade
    ensures forall i :: 1 <= i < 4 ==> cells[i] != [] && cells[i][0] != ' '
  {
    [r.subject, DecimalString(r.termPercentage), DecimalString(r.examPercentage), DecimalString(r.average), r.grade]
  }

  /** The subject table: the header, then one row per subject in entry
      order, each showing what the card's row shows. */
  function SubjectTable(d: StudentData): (table: seq<seq<string>>)
    ensures |table| == |d.subjects| + 1 && table[0] == HeaderRow
    ensures forall i :: 0 <= i < |d.subjects| ==>
              var row := Card(d).rows[i];
              table[i + 1] == [d.subjects[i].subject,
                               DecimalString(d.subjects[i].marks.termMarks),
                               DecimalString(d.subjects[i].marks.examMarks),
                               DecimalString(row.average), row.grade]
  {
    var rows := DocxSubjectResults(d.subjects);
    DocxMatchesCard(d);
    [HeaderRow] + seq(|rows|, i requires 0 <= i < |rows| => RowCells(rows[i]))
  }

  /** A block of the document body (fonts, sizes and alignment left out). */
  datatype Block = Paragraph(text: string) | Table(rows: seq<seq<string>>)

  /** Every block is a paragraph. */
  predicate AllParagraphs(blocks: seq<Block>)
  {
    forall i :: 0 <= i < |blocks| ==> blocks[i].Paragraph?
  }

  /** The paragraphs above the table: school, campus, year, class, the
      identity lines and the section title. */
  function DocxHeading(d: StudentData): (blocks: seq<Block>)
    ensures |blocks| == 11 && AllParagraphs(blocks)
  {
    [ Paragraph("The Smart School"),
      Paragraph("Campus Name: " + d.campusName),
      Paragraph("Academic Year: " + d.academicYear + ", Term I"),
      Paragraph("Class " + d.className + " Result Card"),
      Paragraph(""),
      Paragraph("Name: " + d.name),
      Paragraph("Class/Section: " + d.className + "/" + d.section),
      Paragraph("Roll No: " + d.rollNo),
      Paragraph("Age: " + d.age),
      Paragraph(""),
      Paragraph("Academic Performance") ]
  }

  /** The paragraphs below the table: the overall average (no overall
      grade), the two signatories and the date. */
  function DocxClosing(d: StudentData, overallAverage: Num, date: string): (blocks: seq<Block>)
    ensures |blocks| == 6 && AllParagraphs(blocks)
    ensures blocks[1] == Paragraph("Overall Average: " + overallAverage.Text() + "%")
  {
    [ Paragraph(""),
      Paragraph("Overall Average: " + overallAverage.Text() + "%"),
      Paragraph(""),
      Paragraph("Class Teacher: " + d.classTeacher),
      Paragraph("Head of School: " + d.headOfSchool),
      Paragraph("Date: " + date) ]
  }

  /** The document body, top to bottom: the heading, the subject table and
      the closing paragraphs. `date` is the locale date string the export
      reads from the clock. */
  function DocxDocument(d: StudentData, date: string): (doc: seq<Block>)
    ensures |doc| == 18
  {
    var rows := DocxSubjectResults(d.subjects);
    DocxHeading(d) + [Table(SubjectTable(d))] + DocxClosing(d, DocxOverallAverage(rows), date)
  }

  /** A table between two runs of paragraphs is the only table of the result,
      and the blocks after it keep their order. */
  lemma TableBetweenParagraphs(above: seq<Block>, table: Block, below: seq<Block>)
    requires AllParagraphs(above) && AllParagraphs(below)
    ensures var doc := above + [table] + below;
            && |doc| == |above| + 1 + |below|
            && doc[|above|] == table
            && (forall i :: 0 <= i < |doc| && i != |above| ==> doc[i].Paragraph?)
            && (forall j :: 0 <= j < |below| ==> doc[|above| + 1 + j] == below[j])
  {
    var doc := above + [table] + below;
    forall i | 0 <= i < |doc| && i != |above|
      ensures doc[i].Paragraph?
    {
      if i < |above| {
        assert doc[i] == above[i];
      } else {
        assert doc[i] == below[i - |above| - 1];
      }
    }
  }

  /** The document has eighteen blocks; the only table is the twelfth, and
      it is the subject table; the overall average paragraph shows the
      card's overall average. */
  lemma DocxDocumentShape(d: StudentData, date: string)
    ensures |DocxDocument(d, date)| == 18
    ensures DocxDocument(d, date)[11] == Table(SubjectTable(d))
    ensures forall i :: 0 <= i < 18 && i != 11 ==> DocxDocument(d, date)[i].Paragraph?
    ensures DocxDocument(d, date)[13] == Paragraph("Overall Average: " + Card(d).overallAverage.Text() + "%")
  {
    var rows := DocxSubjectResults(d.subjects);
    DocxMatchesCard(d);
    var heading := DocxHeading(d);
    var closing := DocxClosing(d, DocxOverallAverage(rows), date);
    TableBetweenParagraphs(heading, Table(SubjectTable(d)), closing);
  }

  // ---------------------------------------------------------------------
  // PDF tiling

  /** Width of the placed image and height of an A4 page, in millimetres. */
  const ImgWidth: real := 210.0
  const PageHeight: real := 295.0

  /** How many pages the tiling loop produces for an image `imgHeight` tall:
      one, plus one for every whole page height the image still reaches. */
  function PageCount(imgHeight: real): (n: nat)
    ensures n >= 1
  {
    if imgHeight < PageHeight then 1 else (imgHeight / PageHeight).Floor + 1
  }

  /** Page `k >= 1` is added exactly when `imgHeight - k * 295 >= 0`, so the
      page count is `1 + #{k >= 1 : imgHeight - k * 295 >= 0}`. */
  lemma PageCountCounts(imgHeight: real, k: int)
    requires k >= 1
    ensures k < PageCount(imgHeight) <==> imgHeight - k as real * PageHeight >= 0.0
  {
    if imgHeight >= PageHeight {
      var f := (imgHeight / PageHeight).Floor;
      assert f as real <= imgHeight / PageHeight < f as real + 1.0;
    }
  }

  /** The pages cover the whole image, and (for a non-negative height) the
      last page starts inside it or exactly at its bottom edge. */
  lemma PagesCoverImage(imgHeight: real)
    ensures imgHeight < PageCount(imgHeight) as real * PageHeight
    ensures imgHeight >= 0.0 ==> (PageCount(imgHeight) - 1) as real * PageHeight <= imgHeight
  {
    if imgHeight >= PageHeight {
      var f := (imgHeight / PageHeight).Floor;
      assert f as real <= imgHeight / PageHeight < f as real + 1.0;
    }
  }

  /** An image exactly `m` pages tall gets `m + 1` pages: the loop runs once
      more when what is left is exactly 0, and that last page is blank. */
  lemma ExactMultipleAddsBlankPage(m: nat)
    requires m >= 1
    ensures PageCount(m as real * PageHeight) == m + 1
  {
    FloorUnique(m as real * PageHeight / PageHeight, m);
  }

  /** The tiling loop of the PDF export. It returns the vertical offset of
      every `addImage` call in order; each offset after the first follows an
      `addPage`. The first image is at 0 and the k-th added page's at
      `-k * 295`. */
  method TilePdf(imgHeight: real) returns (positions: seq<real>)
    ensures |positions| == PageCount(imgHeight)
    ensures forall k :: 0 <= k < |positions| ==> positions[k] == -(k as real) * PageHeight
  {
    var heightLeft := imgHeight;
    var position := 0.0;
    positions := [position];
    heightLeft := heightLeft - PageHeight;
    while heightLeft >= 0.0
      invariant |positions| >= 1
      invariant heightLeft == imgHeight - |positions| as real * PageHeight
      invariant forall k :: 0 <= k < |positions| ==> positions[k] == -(k as real) * PageHeight
      invariant |positions| > 1 ==> imgHeight - (|positions| - 1) as real * PageHeight >= 0.0
      decreases heightLeft.Floor
    {
      position := heightLeft - imgHeight;
      positions := positions + [position];
      heightLeft := heightLeft - PageHeight;
    }
    var n := |positions|;
    if n > 1 {
      FloorUnique(imgHeight / PageHeight, n - 1);
    }
  }

  // ---------------------------------------------------------------------
  // What the buttons do

  /** What a handler visibly does: a notification, a saved file, or the
      browser's print dialog. */
  datatype Effect =
    | Toast(title: string, description: string, destructive: bool)
    | SavePdf(fileName: string, imageWidth: real, imageHeight: real, imagePositions: seq<real>)
    | SaveDocx(fileName: string, document: seq<Block>)
    | OpenPrintDialog

  /** Some file was saved. */
  predicate SavesFile(effects: seq<Effect>)
  {
    exists i :: 0 <= i < |effects| && (effects[i].SavePdf? || effects[i].SaveDocx?)
  }

  const CardMissing := Toast("Error", "Result card not found. Please generate the result first.", true)
  const PdfFailed := Toast("Error", "Failed to generate PDF. Please try again.", true)
  const PdfDone := Toast("Success", "PDF downloaded successfully!", false)
  const DocxFailed := Toast("Error", "Failed to generate DOCX. Please try again.", true)
  const DocxDone := Toast("Success", "DOCX downloaded successfully!", false)

  /** `handleDownloadPDF`. `cardPresent` says whether the `result-card`
      element exists; `imgHeight` is the rendered image's height scaled to
      the 210 mm page width; `libraryThrows` says whether rendering or PDF
      generation throws. A missing card or a thrown error ends in an error
      notification and no file; otherwise the file
      `<name>_Result_Card.pdf` holds the tiled pages. */
  method HandleDownloadPdf(d: StudentData, cardPresent: bool, imgHeight: real, libraryThrows: bool)
    returns (effects: seq<Effect>)
    ensures !cardPresent ==> effects == [CardMissing]
    ensures cardPresent && libraryThrows ==> effects == [PdfFailed]
    ensures cardPresent && !libraryThrows ==>
              && |effects| == 2
              && effects[0].SavePdf?
              && effects[0].fileName == d.name + "_Result_Card.pdf"
              && effects[0].imageWidth == ImgWidth && effects[0].imageHeight == imgHeight
              && |effects[0].imagePositions| == PageCount(imgHeight)
              && (forall k :: 0 <= k < |effects[0].imagePositions| ==>
                    effects[0].imagePositions[k] == -(k as real) * PageHeight)
              && effects[1] == PdfDone
    ensures SavesFile(effects) <==> cardPresent && !libraryThrows
    ensures effects != [] && effects[|effects| - 1].Toast?
  {
    if !cardPresent {
      effects := [CardMissing];
      return;
    }
    if libraryThrows {
      effects := [PdfFailed];
      return;
    }
    var positions := TilePdf(imgHeight);
    effects := [SavePdf(d.name + "_Result_Card.pdf", ImgWidth, imgHeight, positions), PdfDone];
    assert effects[0].SavePdf?;
  }

  /** `handleDownloadDOCX`. `date` is the locale date string; `libraryThrows`
      says whether document packing or saving throws. A thrown error ends in
      an error notification and no file; otherwise the file
      `<name>_Result_Card.docx` holds the document. */
  function HandleDownloadDocx(d: StudentData, date: string, libraryThrows: bool): (effects: seq<Effect>)
    ensures libraryThrows ==> effects == [DocxFailed]
    ensures !libraryThrows ==>
              effects == [SaveDocx(d.name + "_Result_Card.docx", DocxDocument(d, date)), DocxDone]
    ensures SavesFile(effects) <==> !libraryThrows
    ensures effects != [] && effects[|effects| - 1].Toast?
  {
    if libraryThrows then [DocxFailed]
    else
      var effects := [SaveDocx(d.name + "_Result_Card.docx", DocxDocument(d, date)), DocxDone];
      assert effects[0].SaveDocx?;
      effects
  }

  /** `handlePrint`: opens the print dialog, then notifies; no file is
      saved. This is a definition: the handler is a constant sequence of
      two effects. */
  function HandlePrint(): (effects: seq<Effect>)
    ensures |effects| == 2 && effects[0] == OpenPrintDialog
    ensures effects[1] == Toast("Print", "Print dialog opened successfully.", false)
    ensures !SavesFile(effects)
  {
    [OpenPrintDialog, Toast("Print", "Print dialog opened successfully.", false)]
  }
}
