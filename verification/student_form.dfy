/** The student record the intake form edits, the fixed subject and grade
    lists, the record the form starts from, the field updates the input
    handlers apply to it, and the form component that holds it. */
module StudentForm {
  import opened Options
  import opened JsBuiltins

  // ---------------------------------------------------------------------
  // Data model

  /** The two marks entered for one subject. */
  datatype Marks = Marks(termMarks: int, examMarks: int)

  /** Which of the two marks an input edits. */
  datatype MarkKind = TermMarks | ExamMarks

  /** One key/value pair of the `subjects` object. */
  datatype SubjectEntry = SubjectEntry(subject: string, marks: Marks)

  /** The six general-progress ratings, each the text of a grade label or
      empty while unset. */
  datatype GeneralProgress = GeneralProgress(
    art: string, attendance: string, conduct: string,
    effort: string, peGames: string, punctuality: string)

  /** The keys of `generalProgress` that the form edits. */
  datatype ProgressField = Art | Attendance | Conduct | Effort | PeGames | Punctuality

  /** The plain text fields that have an input of their own. */
  datatype TextField =
    | Name | ClassName | Section | RollNo | Age | CampusName
    | ClubsComments | ValuesComments | ClassTeacherComments | SchoolHeadComments
    | ClassTeacher | HeadOfSchool

  /** The whole record. `subjects` is the object's entries in property order
      (insertion order, since no subject name looks like an array index). */
  datatype StudentData = StudentData(
    name: string, className: string, section: string, rollNo: string,
    age: string, campusName: string, academicYear: string,
    subjects: seq<SubjectEntry>,
    generalProgress: GeneralProgress,
    clubsComments: string, valuesComments: string,
    classTeacherComments: string, schoolHeadComments: string,
    classTeacher: string, headOfSchool: string)

  /** The eight subjects, in the order the form lists them. */
  const SubjectNames: seq<string> := [
    "English",
    "Urdu",
    "Mathematics",
    "General Science",
    "Social Studies",
    "Islamiyat",
    "Tadrees-e-Quran (Naazrah Quran)",
    "Computer Studies"
  ]

  /** The labels offered by every general-progress select. */
  const GradeOptions: seq<string> := ["A", "B", "S", "NI"]

  // ---------------------------------------------------------------------
  // The subjects object as an ordered list of entries

  /** The keys of the object, in property order. */
  function Names(entries: seq<SubjectEntry>): (names: seq<string>)
  {
    seq(|entries|, i requires 0 <= i < |entries| => entries[i].subject)
  }

  /** No key occurs twice, as in any JavaScript object. */
  predicate Distinct(names: seq<string>)
  {
    forall i, j :: 0 <= i < j < |names| ==> names[i] != names[j]
  }

  /** `o[name]`: the marks stored under `name`, if any. */
  function Lookup(entries: seq<SubjectEntry>, name: string): (m: Option<Marks>)
    ensures m.Some? <==> name in Names(entries)
  {
    assert entries != [] ==> Names(entries) == [entries[0].subject] + Names(entries[1..]);
    if entries == [] then None
    else if entries[0].subject == name then Some(entries[0].marks)
    else Lookup(entries[1..], name)
  }

  /** `{...o, [name]: marks}`: an existing key keeps its place and takes the
      new value; a new key goes to the end. */
  function Put(entries: seq<SubjectEntry>, name: string, marks: Marks): (r: seq<SubjectEntry>)
    ensures |entries| <= |r| <= |entries| + 1
    ensures r != [] && SubjectEntry(name, marks) in r
  {
    if entries == [] then [SubjectEntry(name, marks)]
    else if entries[0].subject == name then [SubjectEntry(name, marks)] + entries[1..]
    else [entries[0]] + Put(entries[1..], name, marks)
  }

  /** A key is found at the position of its first occurrence. */
  lemma {:induction false} LookupFinds(entries: seq<SubjectEntry>, name: string)
    ensures forall k :: 0 <= k < |entries| && entries[k].subject == name &&
                        (forall j :: 0 <= j < k ==> entries[j].subject != name)
                    ==> Lookup(entries, name) == Some(entries[k].marks)
  {
    if entries != [] {
      assert Names(entries) == [entries[0].subject] + Names(entries[1..]);
      LookupFinds(entries[1..], name);
      forall k | 0 < k < |entries| && entries[k].subject == name &&
                 (forall j :: 0 <= j < k ==> entries[j].subject != name)
        ensures Lookup(entries, name) == Some(entries[k].marks)
      {
        assert entries[1..][k - 1] == entries[k];
        assert forall j :: 0 <= j < k - 1 ==> entries[1..][j].subject != name by {
          forall j | 0 <= j < k - 1 ensures entries[1..][j].subject != name {
            assert entries[1..][j] == entries[j + 1];
          }
        }
      }
    }
  }

  /** `Put` keeps the keys and their order, appending `name` only when it
      is new. */
  lemma {:induction false} PutKeys(entries: seq<SubjectEntry>, name: string, marks: Marks)
    ensures Names(Put(entries, name, marks)) ==
              if name in Names(entries) then Names(entries) else Names(entries) + [name]
  {
    if entries != [] {
      assert Names(entries) == [entries[0].subject] + Names(entries[1..]);
      var r := Put(entries, name, marks);
      assert Names(r) == [r[0].subject] + Names(r[1..]);
      if entries[0].subject != name {
        PutKeys(entries[1..], name, marks);
      }
    }
  }

  /** After `Put`, `name` holds the new marks and every other key its old
      ones. */
  lemma {:induction false} PutLookup(entries: seq<SubjectEntry>, name: string, marks: Marks, other: string)
    ensures Lookup(Put(entries, name, marks), name) == Some(marks)
    ensures other != name ==> Lookup(Put(entries, name, marks), other) == Lookup(entries, other)
  {
    if entries != [] && entries[0].subject != name {
      PutLookup(entries[1..], name, marks, other);
    }
  }

  /** When the keys are distinct, `Put` on an existing key rewrites exactly
      the entry at its position. */
  lemma {:induction false} PutAt(entries: seq<SubjectEntry>, name: string, marks: Marks, k: nat)
    requires Distinct(Names(entries))
    requires k < |entries| && entries[k].subject == name
    ensures Put(entries, name, marks) == entries[k := SubjectEntry(name, marks)]
  {
    if k > 0 {
      assert Names(entries)[0] != Names(entries)[k];
      assert Names(entries[1..]) == Names(entries)[1..];
      PutAt(entries[1..], name, marks, k - 1);
      assert entries[k := SubjectEntry(name, marks)] == [entries[0]] + entries[1..][k - 1 := SubjectEntry(name, marks)];
    }
  }

  /** A key the object does not have yet is appended. */
  lemma {:induction false} PutNew(entries: seq<SubjectEntry>, name: string, marks: Marks)
    requires name !in Names(entries)
    ensures Put(entries, name, marks) == entries + [SubjectEntry(name, marks)]
  {
    if entries != [] {
      assert Names(entries) == [entries[0].subject] + Names(entries[1..]);
      PutNew(entries[1..], name, marks);
      assert entries + [SubjectEntry(name, marks)] == [entries[0]] + (entries[1..] + [SubjectEntry(name, marks)]);
    }
  }

  // ---------------------------------------------------------------------
  // The record the form starts from

  /** The all-zero marks of a subject nobody has typed into. */
  const ZeroMarks := Marks(0, 0)

  /** `names.reduce((acc, s) => ({...acc, [s]: zero}), {})`. */
  function ZeroedSubjects(names: seq<string>): (r: seq<SubjectEntry>)
    requires Distinct(names)
    ensures |r| == |names| && Names(r) == names
    ensures forall i :: 0 <= i < |names| ==> r[i] == SubjectEntry(names[i], ZeroMarks)
  {
    if names == [] then []
    else
      var init := names[..|names| - 1];
      var acc := ZeroedSubjects(init);
      PutNew(acc, names[|names| - 1], ZeroMarks);
      Put(acc, names[|names| - 1], ZeroMarks)
  }

  /** The fixed subject list has no repeated name. */
  lemma SubjectNamesDistinct()
    ensures Distinct(SubjectNames)
  {
  }

  /** The record the form is mounted with: the eight subjects in order with
      both marks zero, academic year "2024", every other text field and
      every rating empty. */
  function InitialFormData(): (d: StudentData)
    ensures Names(d.subjects) == SubjectNames
    ensures forall i :: 0 <= i < |d.subjects| ==> d.subjects[i].marks == ZeroMarks
    ensures d.academicYear == "2024"
    ensures d.name == d.className == d.section == d.rollNo == d.age == d.campusName == ""
    ensures d.generalProgress == GeneralProgress("", "", "", "", "", "")
    ensures d.clubsComments == d.valuesComments == d.classTeacherComments == ""
    ensures d.schoolHeadComments == d.classTeacher == d.headOfSchool == ""
  {
    SubjectNamesDistinct();
    StudentData(
      "", "", "", "", "", "", "2024",
      ZeroedSubjects(SubjectNames),
      GeneralProgress("", "", "", "", "", ""),
      "", "", "", "", "", "")
  }

  // ---------------------------------------------------------------------
  // Field updates

  /** `{...marks, [kind]: value}`. */
  function SetMark(m: Marks, kind: MarkKind, value: int): (r: Marks)
    ensures kind == TermMarks ==> r.termMarks == value && r.examMarks == m.examMarks
    ensures kind == ExamMarks ==> r.examMarks == value && r.termMarks == m.termMarks
  {
    match kind
    case TermMarks => m.(termMarks := value)
    case ExamMarks => m.(examMarks := value)
  }

  /** `updateSubjectMarks`: the one mark of `subject` named by `kind` becomes
      `value`; the subject keeps its place, and the other mark, every other
      subject and every other field are as before. */
  function WithSubjectMarks(d: StudentData, subject: string, kind: MarkKind, value: int): (r: StudentData)
    requires subject in Names(d.subjects)
    ensures r == d.(subjects := r.subjects)
    ensures Names(r.subjects) == Names(d.subjects)
    ensures Lookup(r.subjects, subject) == Some(SetMark(Lookup(d.subjects, subject).value, kind, value))
    ensures forall n :: n != subject ==> Lookup(r.subjects, n) == Lookup(d.subjects, n)
  {
    var current := Lookup(d.subjects, subject).value;
    var updated := Put(d.subjects, subject, SetMark(current, kind, value));
    PutKeys(d.subjects, subject, SetMark(current, kind, value));
    assert forall n :: n != subject ==> Lookup(updated, n) == Lookup(d.subjects, n) by {
      forall n | n != subject ensures Lookup(updated, n) == Lookup(d.subjects, n) {
        PutLookup(d.subjects, subject, SetMark(current, kind, value), n);
      }
    }
    PutLookup(d.subjects, subject, SetMark(current, kind, value), subject);
    d.(subjects := updated)
  }

  /** With distinct keys, `updateSubjectMarks` rewrites the subject's entry
      where it stands and leaves every other entry of the list untouched. */
  lemma WithSubjectMarksInPlace(d: StudentData, subject: string, kind: MarkKind, value: int, k: nat)
    requires Distinct(Names(d.subjects))
    requires k < |d.subjects| && d.subjects[k].subject == subject
    ensures Names(d.subjects)[k] == subject
    ensures WithSubjectMarks(d, subject, kind, value).subjects ==
              d.subjects[k := SubjectEntry(subject, SetMark(d.subjects[k].marks, kind, value))]
  {
    assert forall j :: 0 <= j < k ==> d.subjects[j].subject != subject by {
      forall j | 0 <= j < k ensures d.subjects[j].subject != subject {
        assert Names(d.subjects)[j] != Names(d.subjects)[k];
      }
    }
    LookupFinds(d.subjects, subject);
    PutAt(d.subjects, subject, SetMark(d.subjects[k].marks, kind, value), k);
  }

  /** `updateGeneralProgress`: only `generalProgress[field]` changes. */
  function WithGeneralProgress(d: StudentData, field: ProgressField, value: string): (r: StudentData)
    ensures r == d.(generalProgress := r.generalProgress)
    ensures ProgressValue(r.generalProgress, field) == value
    ensures forall f :: f != field ==> ProgressValue(r.generalProgress, f) == ProgressValue(d.generalProgress, f)
  {
    var g := d.generalProgress;
    d.(generalProgress :=
      match field
      case Art => g.(art := value)
      case Attendance => g.(attendance := value)
      case Conduct => g.(conduct := value)
      case Effort => g.(effort := value)
      case PeGames => g.(peGames := value)
      case Punctuality => g.(punctuality := value))
  }

  /** `generalProgress[field]`. */
  function ProgressValue(g: GeneralProgress, field: ProgressField): string
  {
    match field
    case Art => g.art
    case Attendance => g.attendance
    case Conduct => g.conduct
    case Effort => g.effort
    case PeGames => g.peGames
    case Punctuality => g.punctuality
  }

  /** The value of a plain text field. */
  function TextValue(d: StudentData, field: TextField): string
  {
    match field
    case Name => d.name
    case ClassName => d.className
    case Section => d.section
    case RollNo => d.rollNo
    case Age => d.age
    case CampusName => d.campusName
    case ClubsComments => d.clubsComments
    case ValuesComments => d.valuesComments
    case ClassTeacherComments => d.classTeacherComments
    case SchoolHeadComments => d.schoolHeadComments
    case ClassTeacher => d.classTeacher
    case HeadOfSchool => d.headOfSchool
  }

  /** `{...prev, [field]: value}` for a text input: that field takes the
      typed text; the subjects, the ratings, the academic year and every
      other text field are as before. */
  function WithText(d: StudentData, field: TextField, value: string): (r: StudentData)
    ensures TextValue(r, field) == value
    ensures forall f :: f != field ==> TextValue(r, f) == TextValue(d, f)
    ensures r.subjects == d.subjects && r.generalProgress == d.generalProgress
    ensures r.academicYear == d.academicYear
  {
    match field
    case Name => d.(name := value)
    case ClassName => d.(className := value)
    case Section => d.(section := value)
    case RollNo => d.(rollNo := value)
    case Age => d.(age := value)
    case CampusName => d.(campusName := value)
    case ClubsComments => d.(clubsComments := value)
    case ValuesComments => d.(valuesComments := value)
    case ClassTeacherComments => d.(classTeacherComments := value)
    case SchoolHeadComments => d.(schoolHeadComments := value)
    case ClassTeacher => d.(classTeacher := value)
    case HeadOfSchool => d.(headOfSchool := value)
  }

  /** What a mark input stores for the text typed into it:
      `parseInt(text) || 0`. Text that is not a number becomes 0; nothing is
      clamped to 0..100. */
  function MarkFromInput(text: string): (v: int)
    ensures ParseInt(text).NaN? ==> v == 0
    ensures ParseInt(text).Finite? ==> v == ParseInt(text).value
  {
    OrZero(ParseInt(text))
  }

  /** Every integer, typed as its decimal numeral, is stored as itself,
      including negative and over-100 marks. */
  lemma MarkFromInputRoundTrip(n: int)
    ensures MarkFromInput(DecimalString(n)) == n
  {
    ParseIntInvertsDecimal(n);
  }

  /** The mark of the given kind. */
  function MarkOf(m: Marks, kind: MarkKind): int
  {
    match kind
    case TermMarks => m.termMarks
    case ExamMarks => m.examMarks
  }

  /** What a mark input shows: `formData.subjects[subject]?.[kind] || ""`,
      so a zero or missing mark shows as an empty box. */
  function DisplayedMark(d: StudentData, subject: string, kind: MarkKind): (shown: string)
    ensures Lookup(d.subjects, subject).None? ==> shown == ""
    ensures Lookup(d.subjects, subject).Some? ==>
              var v := MarkOf(Lookup(d.subjects, subject).value, kind);
              (shown == "" <==> v == 0) && (v != 0 ==> shown == DecimalString(v))
  {
    match Lookup(d.subjects, subject)
    case None => ""
    case Some(m) =>
      var v := MarkOf(m, kind);
      if v == 0 then "" else DecimalString(v)
  }

  // ---------------------------------------------------------------------
  // The browser's constraint validation, run before the submit handler

  /** The text inputs marked `required`. */
  const RequiredFields: set<TextField> :=
    {Name, ClassName, Section, RollNo, Age, CampusName, ClassTeacher, HeadOfSchool}

  /** The text inputs marked `required` are non-empty. */
  predicate RequiredTextFilled(d: StudentData)
    ensures RequiredTextFilled(d) <==> forall f :: f in RequiredFields ==> TextValue(d, f) != ""
  {
    && d.name != "" && d.className != "" && d.section != "" && d.rollNo != ""
    && d.age != "" && d.campusName != "" && d.classTeacher != "" && d.headOfSchool != ""
  }

  /** A mark input is `required`, so what it shows must not be empty, and it
      is a number input bounded by `min="0"` and `max="100"`. */
  predicate MarkInputValid(d: StudentData, subject: string, kind: MarkKind)
    ensures MarkInputValid(d, subject, kind) ==>
              subject in Names(d.subjects) && 1 <= MarkOf(Lookup(d.subjects, subject).value, kind) <= 100
  {
    && DisplayedMark(d, subject, kind) != ""
    && Lookup(d.subjects, subject).Some?
    && 0 <= MarkOf(Lookup(d.subjects, subject).value, kind) <= 100
  }

  /** The browser lets the submit event reach `handleSubmit` only when every
      required text input is filled and every mark input, one pair per
      listed subject, passes its checks. */
  predicate Submittable(d: StudentData)
    ensures Submittable(d) ==> d.name != "" && forall i :: 0 <= i < |SubjectNames| ==> SubjectNames[i] in Names(d.subjects)
  {
    var passes := RequiredTextFilled(d)
                  && forall i, kind :: 0 <= i < |SubjectNames| ==> MarkInputValid(d, SubjectNames[i], kind);
    assert passes ==> forall i :: 0 <= i < |SubjectNames| ==> MarkInputValid(d, SubjectNames[i], TermMarks);
    passes
  }

  /** With distinct keys, each entry is what a lookup of its key finds. */
  lemma LookupEntry(entries: seq<SubjectEntry>, k: nat)
    requires Distinct(Names(entries)) && k < |entries|
    ensures Lookup(entries, entries[k].subject) == Some(entries[k].marks)
  {
    LookupFinds(entries, entries[k].subject);
    assert forall j :: 0 <= j < k ==> entries[j].subject != entries[k].subject by {
      forall j | 0 <= j < k ensures entries[j].subject != entries[k].subject {
        assert Names(entries)[j] != Names(entries)[k];
      }
    }
  }

  /** For a record holding the eight subjects, the browser lets the submit
      through exactly when the required texts are filled and every mark is
      between 1 and 100: a 0 shows as an empty box and fails `required`. */
  lemma SubmittableMarks(d: StudentData)
    requires Names(d.subjects) == SubjectNames
    ensures Submittable(d) <==>
              && RequiredTextFilled(d)
              && forall i :: 0 <= i < |d.subjects| ==>
                   1 <= d.subjects[i].marks.termMarks <= 100 && 1 <= d.subjects[i].marks.examMarks <= 100
  {
    SubjectNamesDistinct();
    forall i | 0 <= i < |d.subjects|
      ensures SubjectNames[i] == d.subjects[i].subject
      ensures Lookup(d.subjects, SubjectNames[i]) == Some(d.subjects[i].marks)
    {
      assert Names(d.subjects)[i] == d.subjects[i].subject;
      LookupEntry(d.subjects, i);
    }
    if Submittable(d) {
      forall i | 0 <= i < |d.subjects|
        ensures 1 <= d.subjects[i].marks.termMarks <= 100 && 1 <= d.subjects[i].marks.examMarks <= 100
      {
        assert MarkInputValid(d, SubjectNames[i], TermMarks);
        assert MarkInputValid(d, SubjectNames[i], ExamMarks);
      }
    }
  }

  /** The marks the form is mounted with block the submit, whatever text is
      typed: the record as first shown is never handed over. */
  lemma InitialMarksBlockSubmit(d: StudentData)
    requires d.subjects == InitialFormData().subjects
    ensures !Submittable(d)
  {
    assert Lookup(d.subjects, SubjectNames[0]) == Some(ZeroMarks);
    assert !MarkInputValid(d, SubjectNames[0], TermMarks);
  }

  // ---------------------------------------------------------------------
  // The form component: one held record, replaced by every input event

  class FormState {
    var formData: StudentData

    /** The record keeps exactly the eight subjects, in order, and the
        academic year it started with: no handler adds a subject or edits
        the year. */
    ghost predicate Valid()
      reads this
    {
      Names(formData.subjects) == SubjectNames && formData.academicYear == "2024"
    }

    constructor ()
      ensures Valid()
      ensures formData == InitialFormData()
    {
      formData := InitialFormData();
    }

    /** `updateSubjectMarks(subject, kind, value)` applied through
        `setFormData`. */
    method UpdateSubjectMarks(subject: string, kind: MarkKind, value: int)
      requires Valid() && subject in SubjectNames
      modifies this
      ensures Valid()
      ensures formData == WithSubjectMarks(old(formData), subject, kind, value)
    {
      formData := WithSubjectMarks(formData, subject, kind, value);
    }

    /** The `onChange` of a mark input: the typed text is coerced with
        `parseInt(..) || 0` and stored. */
    method OnMarkInput(subject: string, kind: MarkKind, text: string)
      requires Valid() && subject in SubjectNames
      modifies this
      ensures Valid()
      ensures formData == WithSubjectMarks(old(formData), subject, kind, MarkFromInput(text))
    {
      UpdateSubjectMarks(subject, kind, MarkFromInput(text));
    }

    /** `updateGeneralProgress(field, value)` applied through `setFormData`. */
    method UpdateGeneralProgress(field: ProgressField, value: string)
      requires Valid()
      modifies this
      ensures Valid()
      ensures formData == WithGeneralProgress(old(formData), field, value)
    {
      formData := WithGeneralProgress(formData, field, value);
    }

    /** The `onChange` of a plain text input. */
    method UpdateText(field: TextField, value: string)
      requires Valid()
      modifies this
      ensures Valid()
      ensures formData == WithText(old(formData), field, value)
    {
      formData := WithText(formData, field, value);
    }

    /** Pressing the submit button: the browser's constraint validation
        runs first, and only a record that passes it reaches `handleSubmit`,
        which hands it to the callback as it is. */
    method Submit() returns (submitted: Option<StudentData>)
      requires Valid()
      ensures Submittable(formData) ==> submitted == Some(formData)
      ensures !Submittable(formData) ==> submitted == None
      ensures submitted.Some? ==> Names(submitted.value.subjects) == SubjectNames
    {
      if Submittable(formData) {
        submitted := Some(formData);
      } else {
        submitted := None;
      }
    }
  }
}
