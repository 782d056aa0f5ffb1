/** The single page of the app: it holds the submitted record and whether the
    result view is up, switches between the form and the result view, and
    hands the same record to the result card and to the export buttons. */
module IndexPage {

  import opened Options
  import opened StudentForm
  import opened ResultCard
  import opened ExportButtons

  /** What the page shows: the form, or the result view with its back button
      and, when a record is held, the card and the exporter with the record
      each of them receives. */
  datatype View = View(form: bool, backButton: bool, card: Option<StudentData>, exporter: Option<StudentData>)

  /** The page's render for state `(studentData, showResult)`. */
  function Render(studentData: Option<StudentData>, showResult: bool): (v: View)
    ensures v.form <==> !showResult
    ensures v.backButton <==> showResult
    ensures v.form ==> v.card.None? && v.exporter.None?
    ensures v.card.Some? <==> showResult && studentData.Some?
    ensures v.card.Some? ==> v.card == studentData
    ensures v.exporter == v.card
  {
    if !showResult then View(true, false, None, None)
    else View(false, true, studentData, studentData)
  }

  /** Whatever the result view shows, the exported document agrees with the
      card on screen: same rows, and the overall average the DOCX prints is
      the card's. */
  lemma ShownExportMatchesCard(studentData: Option<StudentData>, showResult: bool)
    requires Render(studentData, showResult).card.Some?
    ensures var v := Render(studentData, showResult);
            && v.exporter.Some?
            && DocxSubjectResults(v.exporter.value.subjects) == Card(v.card.value).rows
            && DocxOverallAverage(DocxSubjectResults(v.exporter.value.subjects)) == Card(v.card.value).overallAverage
  {
    DocxMatchesCard(studentData.value);
  }

  class Page {
    var studentData: Option<StudentData>
    var showResult: bool

    /** The result view is only ever entered with a record in hand. */
    ghost predicate Valid()
      reads this
    {
      showResult ==> studentData.Some?
    }

    /** What the page currently shows. */
    function CurrentView(): View
      reads this
    {
      Render(studentData, showResult)
    }

    /** The initial state: no record and the form shown. */
    constructor ()
      ensures Valid()
      ensures studentData == None && !showResult
      ensures CurrentView().form && CurrentView().card.None?
    {
      studentData := None;
      showResult := false;
    }

    /** `handleGenerateResult(data)`: store the record and show the result
        view, whose card and exporter both receive `data`. */
    method HandleGenerateResult(data: StudentData)
      modifies this
      ensures Valid()
      ensures studentData == Some(data) && showResult
      ensures !CurrentView().form && CurrentView().card == Some(data) && CurrentView().exporter == Some(data)
    {
      studentData := Some(data);
      showResult := true;
    }

    /** `handleBackToForm`: show the form again; the held record stays. */
    method HandleBackToForm()
      requires Valid()
      modifies this
      ensures Valid()
      ensures studentData == old(studentData) && !showResult
      ensures CurrentView().form && CurrentView().card.None?
    {
      showResult := false;
    }
  }

  /** Submitting the form: a record that passes the browser's validation
      goes through `handleSubmit` to the page's `handleGenerateResult`, so
      the result view shows exactly what was typed; any other record leaves
      the page as it was. */
  method SubmitForm(form: FormState, page: Page)
    requires form.Valid() && page.Valid()
    modifies page
    ensures page.Valid()
    ensures Submittable(form.formData) ==>
              && page.studentData == Some(form.formData) && page.showResult
              && page.CurrentView().card == Some(form.formData)
    ensures !Submittable(form.formData) ==>
              page.studentData == old(page.studentData) && page.showResult == old(page.showResult)
  {
    var submitted := form.Submit();
    if submitted.Some? {
      page.HandleGenerateResult(submitted.value);
    }
  }

  /** Every record the form lets through gives a card whose subject averages
      and overall average are numbers between 1 and 100. */
  lemma SubmittedCardInRange(d: StudentData)
    requires Names(d.subjects) == SubjectNames && Submittable(d)
    ensures forall i :: 0 <= i < |Card(d).rows| ==> 1 <= Card(d).rows[i].average <= 100
    ensures Card(d).overallAverage.Finite? && 1 <= Card(d).overallAverage.value <= 100
  {
    SubmittableMarks(d);
    assert |d.subjects| == |SubjectNames|;
    CardInRange(d);
    var rows := Card(d).rows;
    forall i | 0 <= i < |rows| ensures 1 <= rows[i].average
    {
      assert rows[i].average == SubjectAverage(d.subjects[i].marks);
    }
    MinMaxBound(rows);
  }
}
