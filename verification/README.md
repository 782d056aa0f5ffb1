# result-wizardry in Dafny

result-wizardry is a single-page app for a school's report cards. A teacher
fills in a form: student details, term and exam marks for eight fixed
subjects, general-progress grades and comments. Submitting the form shows a
result card. The card has a subject average and grade per subject, an
overall average and an overall grade. The card can be printed or exported
as a PDF (a screenshot tiled over A4 pages) or as a DOCX document. The DOCX
export computes the grades again, by its own code.

This project models that behaviour and proves properties of it:

- `JsBuiltins` holds the JavaScript built-ins the code relies on:
  - `Math.round` over exact reals, with a .5 going toward +infinity;
  - `parseInt` with no radix argument: white space, a sign, a `0x` prefix,
    the longest digit run, and NaN when no digits are found;
  - the `|| 0` fallback;
  - `toString` on integers.

  A JavaScript number is an integer or NaN here (`Num`).
- `StudentForm` holds:
  - the student record;
  - the fixed subject list and the grade options;
  - the initial record;
  - the pure record updates built with object spread.

  The subjects object is an ordered association list: `Object.entries`
  order, where spreading a new key appends it and spreading an existing key
  replaces it in place. The class `FormState` holds the current record and
  applies one update per input event, as `setFormData` does.
- `ResultCard` holds the grading:
  - `calculateGrade`;
  - the per-subject rows;
  - the overall average, which is NaN for an empty subject list because
    the code divides by the length;
  - the overall grade;
  - `getProgressLabel`.
- `ExportButtons` holds:
  - the DOCX export's own grading, proved to agree with the card;
  - the DOCX subject table and document body;
  - the PDF tiling loop, as a method over real heights;
  - the three button handlers, modelled as the list of visible effects each
    one produces.
- `IndexPage` holds:
  - the page's two state fields and its two transitions, as the class
    `Page`;
  - the render decision;
  - the wiring from the form's submit to the page.

## Model

| member | source | states |
|---|---|---|
| JsBuiltins.MathRound | src/components/ResultCard.tsx:19 | `Math.round(x)` is the integer in `(x - 0.5, x + 0.5]`: nearest, with ties going up |
| JsBuiltins.RoundOfRatio | src/components/ResultCard.tsx:31-33 | `Math.round(a/b) == (2a+b) div (2b)` for every integer `a` and positive `b` |
| JsBuiltins.TrimStart | src/components/StudentForm.tsx:195 | `parseInt` skips exactly the leading white space: a suffix whose dropped prefix is all white space and whose first character is not |
| JsBuiltins.DigitPrefix | src/components/StudentForm.tsx:195 | the longest run of digits at the front: a prefix, all digits, followed by a non-digit or the end |
| JsBuiltins.ParseMagnitude | src/components/StudentForm.tsx:195 | the unsigned part of `parseInt` (the definition): never negative, and a number whenever the text starts with a decimal digit not followed by `x`/`X`; the lemmas MagnitudeNaN, MagnitudeOfDigits and ParseMinus state the rest |
| JsBuiltins.ParseInt | src/components/StudentForm.tsx:195 | `parseInt(text)` (the definition): blank text is NaN, and a negative result needs a leading minus sign; the lemmas ParseDigits, ParseMinus, NoLeadingDigitGivesZero and ParseIntInvertsDecimal state the rest |
| JsBuiltins.OrZero | src/components/StudentForm.tsx:195 | the OR-zero fallback keeps a finite number and turns NaN into 0 |
| JsBuiltins.MagnitudeNaN | src/components/StudentForm.tsx:195 | text that does not start with a digit has no magnitude (NaN) |
| JsBuiltins.NoLeadingDigitGivesZero | src/components/StudentForm.tsx:195 | text with no digit after the white space and sign parses to NaN, and the OR-zero fallback stores 0 |
| JsBuiltins.DigitChar | src/components/ExportButtons.tsx:100-102 | the digit character for `d < 10` is a decimal digit whose value is `d` |
| JsBuiltins.NatString | src/components/ExportButtons.tsx:100-102 | the numeral of a natural number is non-empty, made of decimal digits, and starts with `0` only for 0 (no leading zeros) |
| JsBuiltins.DecimalString | src/components/ExportButtons.tsx:100-102 | `toString` of an integer starts with `-` exactly when the integer is negative |
| JsBuiltins.Num.Text | src/components/ExportButtons.tsx:211 | how `${overallAverage}` prints a number (the definition): never empty, and `"NaN"` exactly for NaN; DecimalString and ParseIntInvertsDecimal state the numeral |
| JsBuiltins.NatStringValue | src/components/ExportButtons.tsx:100-102 | reading the numeral of `n` back in base 10 gives `n` |
| JsBuiltins.AllDigitsPrefix | src/components/StudentForm.tsx:195 | a string of decimal digits is its own longest digit run |
| JsBuiltins.MagnitudeOfDigits | src/components/StudentForm.tsx:195 | a non-empty run of decimal digits has the magnitude it denotes |
| JsBuiltins.TrimStartKeeps | src/components/StudentForm.tsx:195 | nothing is trimmed from text that starts with a visible character |
| JsBuiltins.ParseDigits | src/components/StudentForm.tsx:195 | `parseInt` of a non-empty digit string is the number it denotes |
| JsBuiltins.ParseMinus | src/components/StudentForm.tsx:195 | a leading minus sign negates the magnitude that follows |
| JsBuiltins.ParseNatString | src/components/StudentForm.tsx:195 | `parseInt` inverts `toString` on natural numbers |
| JsBuiltins.ParseMinusNatString | src/components/StudentForm.tsx:195 | `parseInt("-" + numeral of m) == -m` |
| JsBuiltins.ParseIntInvertsDecimal | src/components/StudentForm.tsx:194-195 | `parseInt(String(n)) == n` for every integer `n` |
| StudentForm.Lookup | src/components/StudentForm.tsx:95 | for the subject names the form passes, `subjects[name]` is defined exactly when `name` is a key |
| StudentForm.LookupFinds | src/components/StudentForm.tsx:95 | a lookup returns the marks of the first entry with that key |
| StudentForm.Put | src/components/StudentForm.tsx:92-98 | the object spread `{...o, [name]: marks}` (the definition): one entry longer at most, holding the new entry; PutKeys, PutLookup, PutAt and PutNew state the rest |
| StudentForm.PutKeys | src/components/StudentForm.tsx:92-98 | object spread keeps the key order when the key exists and appends it when it does not |
| StudentForm.PutLookup | src/components/StudentForm.tsx:92-98 | after spreading `[name]: marks`, `name` maps to `marks` and every other key is unchanged |
| StudentForm.PutAt | src/components/StudentForm.tsx:92-98 | with distinct keys, spreading an existing key replaces its entry in place |
| StudentForm.PutNew | src/components/StudentForm.tsx:64-67 | spreading a new key appends one entry at the end |
| StudentForm.ZeroedSubjects | src/components/StudentForm.tsx:64-67 | the `reduce` over the subject list gives one zero-marks entry per name, in list order |
| StudentForm.SubjectNamesDistinct | src/components/StudentForm.tsx:42-51 | the eight subject names are distinct |
| StudentForm.InitialFormData | src/components/StudentForm.tsx:56-82 | the initial record has the eight subjects in order with zero marks, academic year "2024", and every other text and progress field empty |
| StudentForm.SetMark | src/components/StudentForm.tsx:94-97 | `{...marks, [type]: value}` sets the chosen mark and keeps the other |
| StudentForm.WithSubjectMarks | src/components/StudentForm.tsx:89-100 | `updateSubjectMarks` changes only `subjects`: the key list is unchanged, the subject's chosen mark is the new value, its other mark and every other subject are unchanged |
| StudentForm.WithSubjectMarksInPlace | src/components/StudentForm.tsx:89-100 | with distinct keys, the update rewrites exactly the subject's own entry at its position |
| StudentForm.WithGeneralProgress | src/components/StudentForm.tsx:102-110 | `updateGeneralProgress` sets the one progress field and leaves every other progress field and every other record field unchanged |
| StudentForm.WithText | src/components/StudentForm.tsx:128 | a text input's handler (this one and the other text inputs) sets its one field and leaves the other text fields, the subjects, the progress and the year unchanged |
| StudentForm.MarkFromInput | src/components/StudentForm.tsx:195 | a mark input stores `parseInt(text)` when it is a number and 0 when it is NaN (no clamping to 0..100) |
| StudentForm.MarkFromInputRoundTrip | src/components/StudentForm.tsx:194-195 | typing the decimal text of any integer stores that integer |
| StudentForm.LookupEntry | src/components/StudentForm.tsx:95 | with distinct keys, looking up an entry's key finds that entry's marks |
| StudentForm.RequiredTextFilled | src/components/StudentForm.tsx:125-298 | the eight text inputs marked `required` (name, class, section, roll no, age, campus, class teacher, head of school) are all non-empty |
| StudentForm.MarkInputValid | src/components/StudentForm.tsx:189-208 | a mark input passes `required`, `min="0"` and `max="100"` only for a present mark between 1 and 100, since 0 shows as an empty box |
| StudentForm.Submittable | src/components/StudentForm.tsx:120-298 | the browser's gate before the submit handler (the definition): a record that passes has a name and holds every listed subject; SubmittableMarks and InitialMarksBlockSubmit state the rest |
| StudentForm.DisplayedMark | src/components/StudentForm.tsx:194 | a mark input shows `""` for a missing subject or a zero mark, and the decimal text of the mark otherwise |
| StudentForm.FormState.constructor | src/components/StudentForm.tsx:56-82 | the held record starts as the initial record |
| StudentForm.FormState.UpdateSubjectMarks | src/components/StudentForm.tsx:89-100 | the held record becomes the `updateSubjectMarks` result; the eight keys and the year are kept |
| StudentForm.FormState.OnMarkInput | src/components/StudentForm.tsx:195 | a mark input event stores `parseInt(text)`, or 0 when that is NaN, for that subject and mark |
| StudentForm.FormState.UpdateGeneralProgress | src/components/StudentForm.tsx:102-110 | the held record becomes the `updateGeneralProgress` result |
| StudentForm.FormState.UpdateText | src/components/StudentForm.tsx:128 | the held record becomes the text-field update |
| StudentForm.SubmittableMarks | src/components/StudentForm.tsx:125-298 | with the eight subjects, the browser lets the submit through exactly when the eight `required` text inputs are filled and every mark is between 1 and 100 (`min`/`max`, and a 0 shows as an empty `required` box) |
| StudentForm.InitialMarksBlockSubmit | src/components/StudentForm.tsx:194-196 | a record still holding the initial zero marks is never submitted, whatever text is typed |
| StudentForm.FormState.Submit | src/components/StudentForm.tsx:84-87 | a record that passes validation is handed over unchanged, with its eight subjects in order; any other record is not handed over |
| ResultCard.CalculateGrade | src/components/ResultCard.tsx:9-14 | A iff p >= 85, B iff 70 <= p < 85, S iff 50 <= p < 70, NI iff p < 50 |
| ResultCard.GradeOfNum | src/components/ResultCard.tsx:35 | a NaN percentage fails every comparison and grades NI; a number grades as `calculateGrade` |
| ResultCard.CalculateGradeMonotone | src/components/ResultCard.tsx:9-14 | a higher percentage never gives a lower grade in the order NI < S < B < A |
| ResultCard.GradeLabelsAreOptions | src/components/StudentForm.tsx:53 | the grade labels are exactly the selectable options A, B, S, NI, in that order |
| ResultCard.SubjectAverage | src/components/ResultCard.tsx:19 | the subject average is `(term + exam + 1) div 2`: within one half of the mean, and between the two marks |
| ResultCard.ResultOf | src/components/ResultCard.tsx:16-29 | a row copies the subject and both marks, and its grade is the grade of its average |
| ResultCard.SubjectResults | src/components/ResultCard.tsx:16-29 | one row per subject entry, in entry order |
| ResultCard.SumAverages | src/components/ResultCard.tsx:32 | the `reduce` summing the subject averages (the definition): non-negative for non-negative averages; SumAtLeast, SumAtMost and OverallAverage state the rest |
| ResultCard.MinMaxBound | src/components/ResultCard.tsx:31-33 | every row's average lies between the smallest and the largest, and both are attained |
| ResultCard.SumAtLeast | src/components/ResultCard.tsx:32 | the sum of the averages is at least count times the smallest |
| ResultCard.SumAtMost | src/components/ResultCard.tsx:32 | the sum of the averages is at most count times the largest |
| ResultCard.RoundedMeanBetween | src/components/ResultCard.tsx:31-33 | the rounded mean of `n` values between `lo` and `hi` is between `lo` and `hi` |
| ResultCard.OverallAverage | src/components/ResultCard.tsx:31-33 | NaN exactly for no subjects; otherwise `(2*sum + n) div (2n)`, between the smallest and largest subject average |
| ResultCard.OverallGrade | src/components/ResultCard.tsx:35 | the overall grade is `calculateGrade` of the overall average, and NI for no subjects |
| ResultCard.Card | src/components/ResultCard.tsx:16-35 | the card shows the subject rows, their overall average and its grade |
| ResultCard.CardInRange | src/components/ResultCard.tsx:17-33 | marks in 0..100 give every average and the overall average in 0..100 |
| ResultCard.UniformMarksOverall | src/components/ResultCard.tsx:31-33 | when every subject has the same marks, the overall average is that subject average |
| ResultCard.SubjectAverageExamples | src/components/ResultCard.tsx:9-20 | (69, 70) averages 70 and grades B; (80, 90) averages 85 and grades A; the grade boundaries sit at 85, 70 and 50 |
| ResultCard.AllEightyNinety | src/components/ResultCard.tsx:19-35 | eight subjects at 80/90 give every average 85 with grade A, overall 85 and grade A |
| ResultCard.OverallBoundaryFifty | src/components/ResultCard.tsx:31-35 | averages 49 and 51 give overall 50 and grade S |
| ResultCard.ProgressLabel | src/components/ResultCard.tsx:45-53 | A → Excellent, B → Good, S → Satisfactory, NI → Needs Improvement, anything else → "" |
| ResultCard.ProgressLabelsDistinct | src/components/ResultCard.tsx:45-53 | every grade has a non-empty label and different grades have different labels |
| ExportButtons.DocxGrade | src/components/ExportButtons.tsx:87 | the DOCX ternary gives the label of `calculateGrade` for every integer |
| ExportButtons.DocxResultOf | src/components/ExportButtons.tsx:83-89 | the DOCX export's row for one subject is exactly the row the card computes for it |
| ExportButtons.DocxSubjectResults | src/components/ExportButtons.tsx:83-89 | the DOCX export has one row per subject entry |
| ExportButtons.DocxOverallAverage | src/components/ExportButtons.tsx:91-93 | the DOCX overall average is NaN exactly for no subjects |
| ExportButtons.DocxRowsMatchCard | src/components/ExportButtons.tsx:83-89 | the DOCX rows equal the card's rows for every subject list: same subjects, marks, averages and grades |
| ExportButtons.DocxMatchesCard | src/components/ExportButtons.tsx:83-93 | for any record, the DOCX rows and overall average equal the card's |
| ExportButtons.SubjectTable | src/components/ExportButtons.tsx:96-106 | the table is the header row (Subject, Term %, Examination %, Average %, Grade), then per subject its name, marks, and the card's average and grade |
| ExportButtons.RowCells | src/components/ExportButtons.tsx:96-106 | the five cells of a row, in header order: the subject first, the grade last, and each of the three numbers printed as non-empty text |
| ExportButtons.DocxHeading | src/components/ExportButtons.tsx:112-192 | eleven paragraphs come before the table |
| ExportButtons.DocxClosing | src/components/ExportButtons.tsx:207-241 | six paragraphs follow the table; the second shows the overall average with a `%` |
| ExportButtons.DocxDocument | src/components/ExportButtons.tsx:108-245 | the document body (the definition): eighteen blocks; DocxDocumentShape states where the table and the overall average sit |
| ExportButtons.TableBetweenParagraphs | src/components/ExportButtons.tsx:108-245 | a table between two runs of paragraphs is the only table, and the blocks after it keep their order |
| ExportButtons.DocxDocumentShape | src/components/ExportButtons.tsx:108-245 | the document has 18 blocks; the 12th is the subject table and the only table; the overall-average line shows the card's overall average and no overall grade |
| ExportButtons.PageCount | src/components/ExportButtons.tsx:51-63 | the tiling always produces at least one page |
| ExportButtons.PageCountCounts | src/components/ExportButtons.tsx:58 | page k+1 exists exactly when `imgHeight - k*295 >= 0` |
| ExportButtons.PagesCoverImage | src/components/ExportButtons.tsx:51-63 | the pages cover the whole image, and the last page starts within it |
| ExportButtons.ExactMultipleAddsBlankPage | src/components/ExportButtons.tsx:58 | an image exactly `m` pages tall gets `m + 1` pages |
| ExportButtons.TilePdf | src/components/ExportButtons.tsx:51-63 | the loop terminates; there are `PageCount(imgHeight)` images, the k-th at offset `-k*295` |
| ExportButtons.HandleDownloadPdf | src/components/ExportButtons.tsx:23-78 | a missing card gives the "not found" error and no file; a thrown error gives the failure notice and no file; otherwise `<name>_Result_Card.pdf` with the tiled pages, then the success notice |
| ExportButtons.HandleDownloadDocx | src/components/ExportButtons.tsx:80-262 | a thrown error gives the failure notice and no file; otherwise `<name>_Result_Card.docx` with the document, then the success notice |
| ExportButtons.HandlePrint | src/components/ExportButtons.tsx:15-21 | print opens the dialog, then notifies, and saves no file |
| IndexPage.Render | src/pages/Index.tsx:21-45 | the form shows iff the result view does not; the card and the exporter show only in the result view with a record, and both get the same record |
| IndexPage.ShownExportMatchesCard | src/pages/Index.tsx:36-41 | whatever card is on screen, its exporter's DOCX rows and overall average equal the card's |
| IndexPage.Page.constructor | src/pages/Index.tsx:9-10 | the page starts with no record and the form shown |
| IndexPage.Page.HandleGenerateResult | src/pages/Index.tsx:12-15 | the record is stored and the result view shows it to both card and exporter |
| IndexPage.Page.HandleBackToForm | src/pages/Index.tsx:17-19 | the form is shown again and the held record is kept |
| IndexPage.SubmitForm | src/components/StudentForm.tsx:84-87 | submitting a valid form shows exactly the form's record in the result view; an invalid form leaves the page unchanged |
| IndexPage.SubmittedCardInRange | src/components/ResultCard.tsx:16-35 | a record the form lets through gets a card whose subject averages and overall average are numbers between 1 and 100 |

Arithmetic lemmas used inside these proofs have no row, because they state
facts about numbers and not about the app: `JsBuiltins.FloorUnique`,
`JsBuiltins.ZeroFactor`, `JsBuiltins.RatioBounds`, `JsBuiltins.HalfShift`,
`ResultCard.MulMonotone` and `ResultCard.MulCancel`.

## Left out

- StudentForm.WithSubjectMarks: requires the subject to be a key already. On
  an absent key the code would store an object with one mark undefined, and
  the model's marks are integers. Every call site passes a name from the
  fixed list (src/components/StudentForm.tsx:184-207).
- StudentForm.FormState.UpdateSubjectMarks: the same precondition, plus the
  invariant that the keys stay the eight fixed subjects.
- The class statistics and position in class (src/components/ResultCard.tsx:38-43).
  They come from `Math.random`.
- `new Date().toLocaleDateString()`: the date is a parameter of the DOCX
  document, and the card's date is not modelled.
- html2canvas, jsPDF, the docx `Packer`, `saveAs`, `toast` and
  `window.print` are foreign code. The handlers are modelled as the sequence
  of effects they trigger: a notification, a saved file with its name and
  contents, or the print dialog. Library failures are a boolean input.
- Canvas pixels: the scaled image height (src/components/ExportButtons.tsx:50)
  is an input to the tiling loop.
- IEEE double arithmetic: numbers are exact integers or NaN, and division is
  exact real division. Precision loss beyond 2^53 and binary rounding of
  heights such as `k * 295` are not modelled.
- ExportButtons.TilePdf: termination holds for every finite height. With a
  zero-width canvas and a non-zero height, `imgHeight` is +Infinity
  (src/components/ExportButtons.tsx:50) and the loop never ends. With a
  0×0 canvas, `imgHeight` is NaN (0/0); `NaN >= 0` is false, so the code
  makes one page at offset 0. A Dafny `real` can be neither infinite nor
  NaN, so neither case is modelled.
- Strings are sequences of Unicode code points, not UTF-16 code units.
- `async`/`await`: each export is one sequential step.
- React re-mounting after "Back to Form": the form's fresh zeroed record is
  framework behaviour. `FormState` models one mounted form.
- Layout, styling and DOCX formatting (bold, sizes, alignment), and the
  card's JSX markup beyond the values it shows.
- Where `getProgressLabel` is shown: nowhere. The function is defined
  (src/components/ResultCard.tsx:45-53), but the render never calls it.
  It is modelled as `ProgressLabel` all the same.
- src/components/Navbar.tsx is static markup and is not part of this model.
- The `academicYear` field has no input, so `FormState.Valid` keeps it at
  "2024".
