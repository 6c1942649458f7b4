/** agent/claude: AskUserQuestion as a form, and the answers as a rewritten input. */
module ClaudeForm {
  import opened Wrappers
  import opened Json
  import opened V0
  import opened Strings

  // ----- reading the questions -----

  datatype Choice = Choice(caption: string, description: string)

  datatype Question = Question(text: string, header: string, multi: bool, choices: seq<Choice>)

  /** A text of a struct: missing or null leaves it empty, any other type fails the whole input. */
  function Plain(fields: map<string, Value>, name: string): Option<string> {
    if name !in fields || fields[name].Null? then Some("")
    else if fields[name].Str? then Some(fields[name].s)
    else None
  }

  function Flag(fields: map<string, Value>, name: string): Option<bool> {
    if name !in fields || fields[name].Null? then Some(false)
    else if fields[name].Bool? then Some(fields[name].b)
    else None
  }

  /** The elements of an array that may be missing. */
  function Elements(fields: map<string, Value>, name: string): Option<seq<Value>> {
    if name !in fields || fields[name].Null? then Some([])
    else if fields[name].Array? then Some(fields[name].items)
    else None
  }

  function ReadChoice(v: Value): Option<Choice> {
    var f := FieldsOf(v);
    var caption, description := Plain(f, "label"), Plain(f, "description");
    if !(v.Object? || v.Null?) || caption.None? || description.None? then None
    else Some(Choice(caption.value, description.value))
  }

  function ReadChoices(vs: seq<Value>): Option<seq<Choice>> {
    if vs == [] then Some([])
    else
      var rest, last := ReadChoices(vs[..|vs| - 1]), ReadChoice(vs[|vs| - 1]);
      if rest.None? || last.None? then None else Some(rest.value + [last.value])
  }

  function ReadQuestion(v: Value): Option<Question> {
    var f := FieldsOf(v);
    var text, header, multi := Plain(f, "question"), Plain(f, "header"), Flag(f, "multiSelect");
    var choices := var vs := Elements(f, "options"); if vs.None? then None else ReadChoices(vs.value);
    if !(v.Object? || v.Null?) || text.None? || header.None? || multi.None? || choices.None? then None
    else Some(Question(text.value, header.value, multi.value, choices.value))
  }

  function ReadAll(vs: seq<Value>): Option<seq<Question>> {
    if vs == [] then Some([])
    else
      var rest, last := ReadAll(vs[..|vs| - 1]), ReadQuestion(vs[|vs| - 1]);
      if rest.None? || last.None? then None else Some(rest.value + [last.value])
  }

  function ReadQuestions(input: Value): Option<seq<Question>> {
    var vs := Elements(FieldsOf(input), "questions");
    if vs.None? then None else ReadAll(vs.value)
  }

  // ----- the form -----

  function ClampShown(s: string, max: nat): (r: string)
    requires max > 0
    ensures |r| <= max
    ensures |s| <= max ==> r == s
  {
    if |s| <= max then s else s[..max - 1] + "\U{2026}"
  }

  function KeyOf(i: nat): string { "q" + Itoa(i) }

  function OptionsOf(choices: seq<Choice>): seq<FormOption> {
    seq(|choices|, i requires 0 <= i < |choices| =>
      FormOption(choices[i].caption, choices[i].caption, ClampShown(choices[i].description, MAX_FORM_DESCRIPTION)))
  }

  function FieldOf(i: nat, q: Question): FormField {
    FormField(KeyOf(i), ClampShown(q.header, MAX_FORM_TITLE_LEN), ClampShown(q.text, MAX_FORM_DESCRIPTION),
              if q.multi then Multiselect else Select, OptionsOf(q.choices), true, false)
  }

  function FieldsOfForm(qs: seq<Question>): seq<FormField> {
    seq(|qs|, i requires 0 <= i < |qs| => FieldOf(i, qs[i]))
  }

  /** What is kept of a question until it is answered: the text is the agent's own, never cut. */
  datatype HeldField = HeldField(key: string, question: string, multi: bool)

  function Holding(qs: seq<Question>): seq<HeldField> {
    seq(|qs|, i requires 0 <= i < |qs| => HeldField(KeyOf(i), qs[i].text, qs[i].multi))
  }

  predicate Unambiguous(fields: seq<HeldField>) {
    forall i, j :: 0 <= i < j < |fields| ==> fields[i].key != fields[j].key && fields[i].question != fields[j].question
  }

  type HeldForm = fields: seq<HeldField> | Unambiguous(fields) witness []

  predicate Askable(qs: seq<Question>) {
    && (forall i :: 0 <= i < |qs| ==> qs[i].text != "")
    && forall i, j :: 0 <= i < j < |qs| ==> qs[i].text != qs[j].text
  }

  lemma HoldingUnambiguous(qs: seq<Question>)
    requires Askable(qs)
    ensures Unambiguous(Holding(qs))
  {
    forall i, j | 0 <= i < j < |qs| ensures KeyOf(i) != KeyOf(j) {
      if KeyOf(i) == KeyOf(j) {
        assert KeyOf(i)[1..] == Itoa(i) && KeyOf(j)[1..] == Itoa(j);
        ItoaInjective(i, j);
      }
    }
  }

  datatype Built = Built(form: FormRequest, held: HeldForm)

  function FormOf(id: string, callId: string, input: Value): Option<Built> {
    var qs := ReadQuestions(input);
    if qs.None? || !Askable(qs.value) then None
    else
      var form := FormRequest(id, callId, "question", "", FieldsOfForm(qs.value));
      if !form.Valid() then None
      else
        HoldingUnambiguous(qs.value);
        Some(Built(form, Holding(qs.value)))
  }

  /** buildForm step by step. */
  method BuildForm(id: string, callId: string, input: Value) returns (r: Option<Built>)
    ensures r == FormOf(id, callId, input)
  {
    hide FieldOf, KeyOf, ReadQuestions, Unambiguous, FormRequest.Valid;
    var qs := ReadQuestions(input);
    if qs.None? { return None; }
    var texts: set<string> := {};
    var fields, held := [], [];
    for i := 0 to |qs.value|
      invariant texts == set q | q in qs.value[..i] :: q.text
      invariant Askable(qs.value[..i])
      invariant fields == FieldsOfForm(qs.value[..i]) && held == Holding(qs.value[..i])
    {
      var q := qs.value[i];
      if q.text == "" || q.text in texts {
        assert q.text in texts ==> exists j :: 0 <= j < i && qs.value[..i][j].text == q.text;
        assert !Askable(qs.value);
        return None;
      }
      assert qs.value[..i + 1] == qs.value[..i] + [q];
      texts := texts + {q.text};
      fields := fields + [FieldOf(i, q)];
      held := held + [HeldField(KeyOf(i), q.text, q.multi)];
    }
    assert qs.value[..|qs.value|] == qs.value;
    var form := FormRequest(id, callId, "question", "", fields);
    if !form.Valid() { return None; }
    HoldingUnambiguous(qs.value);
    return Some(Built(form, held));
  }

  /** The choices of a question can be offered as they are, since they become the answers. */
  predicate Offered(q: Question) {
    && 0 < |q.choices| <= MAX_FORM_OPTIONS
    && (forall i :: 0 <= i < |q.choices| ==> 0 < |q.choices[i].caption| <= MAX_FORM_VALUE_LEN)
    && forall i, j :: 0 <= i < j < |q.choices| ==> q.choices[i].caption != q.choices[j].caption
  }

  lemma {:induction false} ItoaLength(n: nat)
    requires n < 100
    ensures 0 < |Itoa(n)| <= 2
  {
  }

  lemma FieldValidIff(i: nat, q: Question)
    requires i < 100
    ensures FieldOf(i, q).Valid() <==> Offered(q)
  {
    ItoaLength(i);
    var f := FieldOf(i, q);
    forall j | 0 <= j < |q.choices|
      ensures f.options[j] in f.options && f.options[j].value == q.choices[j].caption == f.options[j].caption
    {
    }
  }

  /** A question becomes a form exactly when it can be asked and answered without cutting anything that counts. */
  lemma FormIff(id: string, callId: string, input: Value)
    requires id != ""
    ensures FormOf(id, callId, input).Some? <==>
      var qs := ReadQuestions(input);
      && qs.Some? && Askable(qs.value) && 0 < |qs.value| <= MAX_FORM_FIELDS
      && forall i :: 0 <= i < |qs.value| ==> Offered(qs.value[i])
  {
    hide FieldOf, Offered;
    var qs := ReadQuestions(input);
    if qs.Some? && Askable(qs.value) && 0 < |qs.value| <= MAX_FORM_FIELDS {
      var form := FormRequest(id, callId, "question", "", FieldsOfForm(qs.value));
      KeysDiffer(qs.value);
      forall i | 0 <= i < |qs.value| ensures form.fields[i].Valid() <==> Offered(qs.value[i]) {
        FieldValidIff(i, qs.value[i]);
      }
      assert (forall f :: f in form.fields ==> f.Valid()) <==> forall i :: 0 <= i < |qs.value| ==> Offered(qs.value[i]) by {
        forall i | 0 <= i < |qs.value| ensures form.fields[i] in form.fields { }
      }
    }
  }

  lemma KeysDiffer(qs: seq<Question>)
    requires Askable(qs)
    ensures var fs := FieldsOfForm(qs); forall i, j :: 0 <= i < j < |fs| ==> fs[i].key != fs[j].key
  {
    HoldingUnambiguous(qs);
    var fs, hs := FieldsOfForm(qs), Holding(qs);
    assert forall i :: 0 <= i < |qs| ==> fs[i].key == hs[i].key;
  }

  // ----- what the human sees of the questions -----

  /** A text of a question as it was sent. */
  function TextAt(v: Value, name: string): string {
    if v.Object? && name in FieldsOf(v) && FieldsOf(v)[name].Str? then FieldsOf(v)[name].s else ""
  }

  function ListAt(v: Value, name: string): seq<Value> {
    if v.Object? && name in FieldsOf(v) && FieldsOf(v)[name].Array? then FieldsOf(v)[name].items else []
  }

  function FlagAt(v: Value, name: string): bool {
    v.Object? && name in FieldsOf(v) && FieldsOf(v)[name].Bool? && FieldsOf(v)[name].b
  }

  /** Missing, null, or of the type that is read. */
  predicate TextOrNone(v: Value, name: string) { name in FieldsOf(v) ==> FieldsOf(v)[name].Null? || FieldsOf(v)[name].Str? }

  predicate ListOrNone(v: Value, name: string) { name in FieldsOf(v) ==> FieldsOf(v)[name].Null? || FieldsOf(v)[name].Array? }

  predicate FlagOrNone(v: Value, name: string) { name in FieldsOf(v) ==> FieldsOf(v)[name].Null? || FieldsOf(v)[name].Bool? }

  predicate ReadableChoice(v: Value) { (v.Object? || v.Null?) && TextOrNone(v, "label") && TextOrNone(v, "description") }

  predicate ReadableQuestion(v: Value) {
    && (v.Object? || v.Null?) && TextOrNone(v, "question") && TextOrNone(v, "header") && FlagOrNone(v, "multiSelect")
    && ListOrNone(v, "options") && forall o :: o in ListAt(v, "options") ==> ReadableChoice(o)
  }

  predicate ReadableInput(input: Value) {
    ListOrNone(input, "questions") && forall v :: v in ListAt(input, "questions") ==> ReadableQuestion(v)
  }

  /** A text that is cut ends with an ellipsis. */
  ghost predicate CutTo(shown: string, s: string, max: nat) {
    if |s| <= max then shown == s
    else |shown| == max && max >= 1 && shown[..max - 1] == s[..max - 1] && shown[max - 1] == '\U{2026}'
  }

  ghost predicate ShowsChoice(x: FormOption, o: Value) {
    x.caption == TextAt(o, "label") && x.value == TextAt(o, "label") && CutTo(x.description, TextAt(o, "description"), 1000)
  }

  /** A field shows a question: the choices are the values sent back, never cut, and other texts are allowed. */
  ghost predicate ShowsQuestion(x: FormField, i: nat, v: Value) {
    && x.key == "q" + Itoa(i) && CutTo(x.title, TextAt(v, "header"), 200) && CutTo(x.description, TextAt(v, "question"), 1000)
    && (x.fieldType == if FlagAt(v, "multiSelect") then Multiselect else Select) && x.custom && !x.required
    && |x.options| == |ListAt(v, "options")|
    && forall j :: 0 <= j < |x.options| ==> ShowsChoice(x.options[j], ListAt(v, "options")[j])
  }

  lemma ChoiceIs(o: Value)
    ensures ReadChoice(o).None? <==> !ReadableChoice(o)
    ensures ReadChoice(o).Some? ==> ReadChoice(o).value == Choice(TextAt(o, "label"), TextAt(o, "description"))
  {
  }

  lemma {:induction false} ChoicesAre(os: seq<Value>)
    ensures ReadChoices(os).None? <==> exists o :: o in os && !ReadableChoice(o)
    ensures ReadChoices(os).Some? ==> |ReadChoices(os).value| == |os|
    ensures ReadChoices(os).Some? ==>
      forall j :: 0 <= j < |os| ==> ReadChoices(os).value[j] == Choice(TextAt(os[j], "label"), TextAt(os[j], "description"))
  {
    hide ReadChoice, ReadableChoice, TextAt;
    if os != [] {
      ChoicesAre(os[..|os| - 1]);
      ChoiceIs(os[|os| - 1]);
      assert os == os[..|os| - 1] + [os[|os| - 1]];
    }
  }

  /** The question as it was read is the question as it was sent. */
  ghost predicate SameQuestion(q: Question, v: Value) {
    && q.text == TextAt(v, "question") && q.header == TextAt(v, "header") && q.multi == FlagAt(v, "multiSelect")
    && |q.choices| == |ListAt(v, "options")|
    && forall j :: 0 <= j < |q.choices| ==>
         q.choices[j] == Choice(TextAt(ListAt(v, "options")[j], "label"), TextAt(ListAt(v, "options")[j], "description"))
  }

  lemma QuestionIs(v: Value)
    ensures ReadQuestion(v).None? <==> !ReadableQuestion(v)
    ensures ReadQuestion(v).Some? ==> SameQuestion(ReadQuestion(v).value, v)
  {
    hide ReadChoices, ReadableChoice;
    ChoicesAre(ListAt(v, "options"));
    NoChoices();
  }

  lemma NoChoices()
    ensures ReadChoices([]) == Some([])
  {
  }

  lemma {:induction false} AllAre(vs: seq<Value>)
    ensures ReadAll(vs).None? <==> exists v :: v in vs && !ReadableQuestion(v)
    ensures ReadAll(vs).Some? ==> |ReadAll(vs).value| == |vs|
    ensures ReadAll(vs).Some? ==> forall i :: 0 <= i < |vs| ==> SameQuestion(ReadAll(vs).value[i], vs[i])
  {
    hide ReadQuestion, ReadableQuestion, SameQuestion;
    if vs != [] {
      AllAre(vs[..|vs| - 1]);
      QuestionIs(vs[|vs| - 1]);
      assert vs == vs[..|vs| - 1] + [vs[|vs| - 1]];
    }
  }

  lemma QuestionsAre(input: Value)
    requires input.Object?
    ensures ReadQuestions(input).None? <==> !ReadableInput(input)
    ensures ReadQuestions(input).Some? ==>
      var qs, vs := ReadQuestions(input).value, ListAt(input, "questions");
      |qs| == |vs| && forall i :: 0 <= i < |vs| ==> SameQuestion(qs[i], vs[i])
  {
    hide ReadAll, ReadableQuestion, SameQuestion;
    AllAre(ListAt(input, "questions"));
    NoQuestions();
  }

  lemma NoQuestions()
    ensures ReadAll([]) == Some([])
  {
  }

  lemma FieldShows(i: nat, q: Question, v: Value)
    requires SameQuestion(q, v)
    ensures ShowsQuestion(FieldOf(i, q), i, v)
  {
    hide Itoa, ListAt, TextAt, FlagAt;
    forall j | 0 <= j < |q.choices| ensures ShowsChoice(FieldOf(i, q).options[j], ListAt(v, "options")[j]) { }
  }

  /** The form shows every question that was sent, in order, and holds its whole text for the answer. */
  lemma FormShows(id: string, callId: string, input: Value)
    requires input.Object? && FormOf(id, callId, input).Some?
    ensures var b, vs := FormOf(id, callId, input).value, ListAt(input, "questions");
      && b.form.requestId == id && b.form.callId == callId && b.form.kind == "question" && b.form.title == ""
      && |b.form.fields| == |b.held| == |vs|
      && forall i :: 0 <= i < |vs| ==>
           && ShowsQuestion(b.form.fields[i], i, vs[i])
           && b.held[i] == HeldField("q" + Itoa(i), TextAt(vs[i], "question"), FlagAt(vs[i], "multiSelect"))
  {
    hide FieldOf, ReadQuestions, ShowsQuestion, FormRequest.Valid, SameQuestion, Itoa;
    var qs, vs := ReadQuestions(input).value, ListAt(input, "questions");
    QuestionsAre(input);
    forall i | 0 <= i < |vs|
      ensures ShowsQuestion(FieldOf(i, qs[i]), i, vs[i])
      ensures qs[i].text == TextAt(vs[i], "question") && qs[i].multi == FlagAt(vs[i], "multiSelect")
    {
      FieldShows(i, qs[i], vs[i]);
      TextAndFlag(qs[i], vs[i]);
    }
  }

  lemma TextAndFlag(q: Question, v: Value)
    requires SameQuestion(q, v)
    ensures q.text == TextAt(v, "question") && q.multi == FlagAt(v, "multiSelect")
  {
  }

  /** A question whose choices can be sent back as they are: up to 32, distinct and short. */
  ghost predicate Choosable(v: Value) {
    var os := ListAt(v, "options");
    && 1 <= |os| <= 32 && (forall o :: o in os ==> 1 <= |TextAt(o, "label")| <= 200)
    && forall i, j :: 0 <= i < j < |os| ==> TextAt(os[i], "label") != TextAt(os[j], "label")
  }

  /** Exactly when the questions become a form, told from what was sent. */
  lemma FormWhen(id: string, callId: string, input: Value)
    requires id != "" && input.Object?
    ensures FormOf(id, callId, input).Some? <==>
      var vs := ListAt(input, "questions");
      && ReadableInput(input) && 1 <= |vs| <= 16
      && (forall i :: 0 <= i < |vs| ==> TextAt(vs[i], "question") != "" && Choosable(vs[i]))
      && forall i, j :: 0 <= i < j < |vs| ==> TextAt(vs[i], "question") != TextAt(vs[j], "question")
  {
    hide FormOf, ReadQuestions, Offered, Choosable, ReadableInput, SameQuestion, TextAt;
    FormIff(id, callId, input);
    QuestionsAre(input);
    if ReadableInput(input) {
      var qs, vs := ReadQuestions(input).value, ListAt(input, "questions");
      forall i | 0 <= i < |vs|
        ensures qs[i].text == TextAt(vs[i], "question") && (Offered(qs[i]) <==> Choosable(vs[i]))
      {
        TextAndFlag(qs[i], vs[i]);
        OfferedIs(qs[i], vs[i]);
      }
    }
  }

  lemma OfferedIs(q: Question, v: Value)
    requires SameQuestion(q, v)
    ensures Offered(q) <==> Choosable(v)
  {
    hide TextAt, ListAt;
    var os := ListAt(v, "options");
    assert forall i :: 0 <= i < |os| ==> q.choices[i].caption == TextAt(os[i], "label") && os[i] in os;
  }

  // ----- the answers -----

  predicate Fitting(fields: seq<HeldField>, key: string, v: FormValue) {
    exists f :: f in fields && f.key == key && v.multi == f.multi &&
      (!v.multi ==> |v.values| == 1) && |v.values| <= MAX_FORM_ANSWER_VALUES &&
      forall s :: s in v.values ==> |s| <= MAX_FORM_ANSWER_TEXT
  }

  function Joined(v: FormValue): string { Join(v.values, ", ") }

  lemma JoinedTells(v: FormValue)
    ensures v.values == [] ==> Joined(v) == ""
    ensures |v.values| == 1 ==> Joined(v) == v.values[0]
    ensures |v.values| > 1 ==> Joined(v) == v.values[0] + ", " + Joined(FormValue(v.multi, v.values[1..]))
  {
  }

  /** One text for a question with one answer, up to 40 for several, none over 4,000 characters. */
  lemma FittingTells(fields: seq<HeldField>, key: string, v: FormValue)
    ensures Fitting(fields, key, v) <==>
      && (exists f :: f in fields && f.key == key && f.multi == v.multi)
      && (if v.multi then |v.values| <= 40 else |v.values| == 1)
      && forall s :: s in v.values ==> |s| <= 4000
  {
  }

  /** The answers by question; an empty answer is left out. */
  function Answers(fields: HeldForm, answer: map<string, FormValue>): map<string, string> {
    map f | f in fields && f.key in answer && Joined(answer[f.key]) != "" :: f.question := Joined(answer[f.key])
  }

  /** A key that Go's simple case folding takes for "answers". */
  predicate FoldsTo(c: char, lower: char)
    requires 'a' <= lower <= 'z'
  {
    c == lower || (c as int) == (lower as int) - 32 || (lower == 's' && c == '\U{17f}')
  }

  predicate ReadAsAnswers(k: string) {
    |k| == 7 && forall i :: 0 <= i < 7 ==> FoldsTo(k[i], "answers"[i])
  }

  /** Upper and lower case are the same, and the long s is an s. */
  lemma AnswersKeyTells(k: string)
    ensures ReadAsAnswers(k) <==>
      && |k| == 7 && k[0] in {'a', 'A'} && k[1] in {'n', 'N'} && k[2] in {'s', 'S', '\U{17f}'} && k[3] in {'w', 'W'}
      && k[4] in {'e', 'E'} && k[5] in {'r', 'R'} && k[6] in {'s', 'S', '\U{17f}'}
  {
    if |k| == 7 {
      var w := "answers";
      assert w[0] == 'a' && w[1] == 'n' && w[2] == 's' && w[3] == 'w' && w[4] == 'e' && w[5] == 'r' && w[6] == 's';
      if forall i :: 0 <= i < 7 ==> FoldsTo(k[i], w[i]) {
        assert FoldsTo(k[0], w[0]) && FoldsTo(k[1], w[1]) && FoldsTo(k[2], w[2]) && FoldsTo(k[3], w[3]);
        assert FoldsTo(k[4], w[4]) && FoldsTo(k[5], w[5]) && FoldsTo(k[6], w[6]);
      }
    }
  }

  /** A field of the rewritten input: one of the held input, or the answers. */
  datatype Updated = Kept(value: Value) | Given(answers: map<string, string>)

  function UpdatedInput(fields: HeldForm, input: Value, answer: map<string, FormValue>): Option<map<string, Updated>> {
    if !input.Object? || exists k :: k in answer && !Fitting(fields, k, answer[k]) then None
    else
      var held := FieldsOf(input);
      Some((map k | k in held && !ReadAsAnswers(k) :: Kept(held[k]))["answers" := Given(Answers(fields, answer))])
  }

  /**
    Whoever reads the rewritten input, folding case or not, finds the human's answers and no
    others, and everything else that the agent had put there.
   */
  lemma RewrittenInput(fields: HeldForm, input: Value, answer: map<string, FormValue>)
    requires UpdatedInput(fields, input, answer).Some?
    ensures var u := UpdatedInput(fields, input, answer).value;
      && (forall k :: k in u && ReadAsAnswers(k) ==> k == "answers")
      && "answers" in u && u["answers"].Given?
      && (forall k :: !ReadAsAnswers(k) ==>
            (k in u <==> k in FieldsOf(input)) && (k in u ==> u[k] == Kept(FieldsOf(input)[k])))
      && (forall f :: f in fields ==>
            (f.question in u["answers"].answers <==> f.key in answer && Joined(answer[f.key]) != "") &&
            (f.question in u["answers"].answers ==> u["answers"].answers[f.question] == Joined(answer[f.key])))
      && (forall q :: q in u["answers"].answers ==> exists f :: f in fields && f.question == q)
  {
    var u := UpdatedInput(fields, input, answer).value;
    assert ReadAsAnswers("answers");
    forall f | f in fields ensures AnswerFor(fields, answer, f) {
      AnswerAt(fields, answer, f);
    }
  }

  ghost predicate AnswerFor(fields: HeldForm, answer: map<string, FormValue>, f: HeldField) {
    var given := Answers(fields, answer);
    && (f.question in given <==> f.key in answer && Joined(answer[f.key]) != "")
    && (f.question in given ==> given[f.question] == Joined(answer[f.key]))
  }

  lemma AnswerAt(fields: HeldForm, answer: map<string, FormValue>, f: HeldField)
    requires f in fields
    ensures AnswerFor(fields, answer, f)
  {
    hide Joined;
    if f.question in Answers(fields, answer) {
      var g :| g in fields && g.key in answer && Joined(answer[g.key]) != "" && g.question == f.question;
      assert g == f;
    }
  }

  /** The last field with each key, as byKey is filled. */
  method ByKey(fields: HeldForm) returns (byKey: map<string, HeldField>)
    ensures forall f :: f in fields ==> f.key in byKey && byKey[f.key] == f
    ensures forall k :: k in byKey ==> byKey[k] in fields && byKey[k].key == k
  {
    byKey := map[];
    for i := 0 to |fields|
      invariant forall j :: 0 <= j < i ==> fields[j].key in byKey && byKey[fields[j].key] == fields[j]
      invariant forall k :: k in byKey ==> byKey[k] in fields && byKey[k].key == k
    {
      byKey := byKey[fields[i].key := fields[i]];
    }
  }

  function Restrict(answer: map<string, FormValue>, ks: set<string>): map<string, FormValue> {
    map k | k in answer && k in ks :: answer[k]
  }

  lemma AnswerOneMore(fields: HeldForm, answer: map<string, FormValue>, ks: set<string>, f: HeldField)
    requires f in fields && f.key in answer && f.key !in ks
    ensures Answers(fields, Restrict(answer, ks + {f.key})) ==
      var before := Answers(fields, Restrict(answer, ks));
      if Joined(answer[f.key]) != "" then before[f.question := Joined(answer[f.key])] else before
  {
    hide Joined, Answers;
    var a, b := Restrict(answer, ks), Restrict(answer, ks + {f.key});
    var before, after := Answers(fields, a), Answers(fields, b);
    var want := if Joined(answer[f.key]) != "" then before[f.question := Joined(answer[f.key])] else before;
    AnswerAt(fields, a, f);
    AnswerAt(fields, b, f);
    forall q ensures (q in after <==> q in want) && (q in after ==> after[q] == want[q]) {
      if q in before { AnswerKeys(fields, a, q); }
      if q in after { AnswerKeys(fields, b, q); }
      if g :| g in fields && g.question == q && g != f {
        AnswerAt(fields, a, g);
        AnswerAt(fields, b, g);
        assert g.key != f.key && g.question != f.question;
      }
    }
    assert after == want;
  }

  lemma AnswerKeys(fields: HeldForm, answer: map<string, FormValue>, q: string)
    requires q in Answers(fields, answer)
    ensures exists f :: f in fields && f.question == q
  {
  }

  /** The answers by question, whatever order the iteration over the answer map takes. */
  method CollectAnswers(fields: HeldForm, answer: map<string, FormValue>) returns (r: Option<map<string, string>>)
    ensures r.None? <==> exists k :: k in answer && !Fitting(fields, k, answer[k])
    ensures r.Some? ==> r.value == Answers(fields, answer)
  {
    hide Answers;
    var byKey := ByKey(fields);
    var answers: map<string, string> := map[];
    var todo := answer.Keys;
    NoAnswers(fields, answer);
    while todo != {}
      invariant todo <= answer.Keys
      invariant forall k :: k in answer && k !in todo ==> Fitting(fields, k, answer[k])
      invariant answers == Answers(fields, Restrict(answer, answer.Keys - todo))
    {
      var k :| k in todo;
      var v := answer[k];
      if k !in byKey
        || v.multi != byKey[k].multi || (!v.multi && |v.values| != 1) || |v.values| > MAX_FORM_ANSWER_VALUES
        || exists s :: s in v.values && |s| > MAX_FORM_ANSWER_TEXT
      {
        assert !Fitting(fields, k, v);
        return None;
      }
      assert byKey[k] in fields;
      AnswerOneMore(fields, answer, answer.Keys - todo, byKey[k]);
      if Joined(v) != "" { answers := answers[byKey[k].question := Joined(v)]; }
      assert answer.Keys - (todo - {k}) == (answer.Keys - todo) + {k};
      todo := todo - {k};
    }
    assert Restrict(answer, answer.Keys - todo) == answer;
    return Some(answers);
  }

  lemma NoAnswers(fields: HeldForm, answer: map<string, FormValue>)
    ensures Answers(fields, Restrict(answer, answer.Keys - answer.Keys)) == map[]
  {
  }

  lemma AnswersIsOne()
    ensures ReadAsAnswers("answers")
  {
  }

  /** answersInput: the held input without any key that reads as answers, then the answers. */
  method AnswersInput(fields: HeldForm, input: Value, answer: map<string, FormValue>)
    returns (r: Option<map<string, Updated>>)
    ensures r == UpdatedInput(fields, input, answer)
  {
    hide Answers, Fitting, ReadAsAnswers, Fields;
    var answers := CollectAnswers(fields, answer);
    if answers.None? || !input.Object? { return None; }
    var held := FieldsOf(input);
    var kept := held;
    var todo := held.Keys;
    while todo != {}
      invariant todo <= held.Keys
      invariant kept == map k | k in held && (k in todo || k == "answers" || !ReadAsAnswers(k)) :: held[k]
    {
      var k :| k in todo;
      if k != "answers" && ReadAsAnswers(k) { kept := kept - {k}; }
      todo := todo - {k};
    }
    assert ReadAsAnswers("answers") by { AnswersIsOne(); }
    var updated := (map k | k in kept :: Kept(kept[k]))["answers" := Given(answers.value)];
    assert updated == UpdatedInput(fields, input, answer).value;
    return Some(updated);
  }
}
