/** spec/v0: the checks of a permission request, a form and an answer, as loops, and what passes them. */
module V0Checks {
  import opened V0
  import Order

  /** PermissionRequested.Validate. */
  method ValidatePermission(p: PermissionRequest) returns (ok: bool)
    ensures ok == p.Valid()
  {
    if p.requestId == "" || p.toolName == "" || |p.toolName| > MAX_TOOL_NAME_LEN { return false; }
    if !p.input.Object? { return false; }
    if |p.summary| > MAX_SUMMARY_LEN || '\r' in p.summary || '\n' in p.summary { return false; }
    if |p.details| > MAX_DETAILS { return false; }
    for i := 0 to |p.details|
      invariant forall j :: 0 <= j < i ==>
        p.details[j].caption != "" && |p.details[j].caption| <= MAX_DETAIL_LABEL_LEN && |p.details[j].text| <= MAX_DETAIL_TEXT_LEN
    {
      var d := p.details[i];
      if d.caption == "" || |d.caption| > MAX_DETAIL_LABEL_LEN || |d.text| > MAX_DETAIL_TEXT_LEN { return false; }
    }
    return true;
  }

  /** The options of a field, each value once. */
  method ValidateOptions(os: seq<FormOption>) returns (ok: bool)
    ensures ok <==>
      && (forall o :: o in os ==>
            && 0 < |o.value| <= MAX_FORM_VALUE_LEN && 0 < |o.caption| <= MAX_FORM_LABEL_LEN
            && |o.description| <= MAX_FORM_DESCRIPTION)
      && forall i, j :: 0 <= i < j < |os| ==> os[i].value != os[j].value
  {
    var vals := {};
    for j := 0 to |os|
      invariant vals == set i | 0 <= i < j :: os[i].value
      invariant forall i :: 0 <= i < j ==>
        0 < |os[i].value| <= MAX_FORM_VALUE_LEN && 0 < |os[i].caption| <= MAX_FORM_LABEL_LEN && |os[i].description| <= MAX_FORM_DESCRIPTION
      invariant forall i, k :: 0 <= i < k < j ==> os[i].value != os[k].value
    {
      var o := os[j];
      if o.value == "" || |o.value| > MAX_FORM_VALUE_LEN || o.caption == "" || |o.caption| > MAX_FORM_LABEL_LEN ||
         |o.description| > MAX_FORM_DESCRIPTION { return false; }
      if o.value in vals { return false; }
      vals := vals + {o.value};
    }
    return true;
  }

  method ValidateField(f: FormField) returns (ok: bool)
    ensures ok == f.Valid()
  {
    if f.key == "" || |f.key| > MAX_FORM_KEY_LEN { return false; }
    if |f.title| > MAX_FORM_TITLE_LEN || |f.description| > MAX_FORM_DESCRIPTION { return false; }
    match f.fieldType
    case FreeText => return |f.options| == 0;
    case _ =>
      if |f.options| == 0 || |f.options| > MAX_FORM_OPTIONS { return false; }
      ok := ValidateOptions(f.options);
  }

  /** FormRequested.Validate. */
  method ValidateForm(f: FormRequest) returns (ok: bool)
    ensures ok == f.Valid()
  {
    hide FormField.Valid;
    if f.requestId == "" || |f.kind| == 0 || |f.kind| > MAX_FORM_KIND_LEN || |f.title| > MAX_FORM_TITLE_LEN { return false; }
    if |f.fields| == 0 || |f.fields| > MAX_FORM_FIELDS { return false; }
    var seen := {};
    for i := 0 to |f.fields|
      invariant seen == set j | 0 <= j < i :: f.fields[j].key
      invariant forall j :: 0 <= j < i ==> f.fields[j].Valid()
      invariant forall j, k :: 0 <= j < k < i ==> f.fields[j].key != f.fields[k].key
    {
      if f.fields[i].key in seen { return false; }
      seen := seen + {f.fields[i].key};
      var valid := ValidateField(f.fields[i]);
      if !valid { return false; }
    }
    return true;
  }

  /** checkValue: the shape of the value, then each text, then that none stands there twice. */
  method CheckValue(f: FormField, v: FormValue) returns (ok: bool)
    ensures ok == f.Accepts(v)
  {
    match f.fieldType {
      case Multiselect => if !v.multi || |v.values| > MAX_FORM_ANSWER_VALUES { return false; }
      case _ => if v.multi || |v.values| != 1 { return false; }
    }
    var options := set o | o in f.options :: o.value;
    for i := 0 to |v.values|
      invariant forall j :: 0 <= j < i ==> TextOk(f, v.values[j])
    {
      var s := v.values[i];
      if |s| > MAX_FORM_ANSWER_TEXT { return false; }
      if f.fieldType.Multiselect? && s == "" { return false; }
      if !f.fieldType.FreeText? && !f.custom && s !in options { return false; }
    }
    if f.fieldType.Multiselect? {
      var once := Order.SortedNames(set s | s in v.values);
      Order.ListsCount(once, set s | s in v.values);
      EachOnce(v.values);
      return |once| == |v.values|;
    }
    return true;
  }

  predicate TextOk(f: FormField, s: string) {
    && |s| <= MAX_FORM_ANSWER_TEXT
    && (f.fieldType.Multiselect? ==> s != "")
    && (!f.fieldType.FreeText? && !f.custom ==> exists o :: o in f.options && o.value == s)
  }

  predicate NoneTwice(s: seq<string>) { forall i, j :: 0 <= i < j < |s| ==> s[i] != s[j] }

  lemma {:induction false} EachOnce(s: seq<string>)
    ensures |set x | x in s| <= |s|
    ensures |set x | x in s| == |s| <==> NoneTwice(s)
  {
    hide NoneTwice;
    if s == [] {
      NothingTwice();
    } else {
      var front, last := s[..|s| - 1], s[|s| - 1];
      EachOnce(front);
      NoneTwiceFront(s);
      assert s == front + [last];
      assert (set x | x in s) == (set x | x in front) + {last};
    }
  }

  lemma NothingTwice()
    ensures NoneTwice([])
  {
  }

  lemma NoneTwiceFront(s: seq<string>)
    requires s != []
    ensures NoneTwice(s) <==> NoneTwice(s[..|s| - 1]) && s[|s| - 1] !in s[..|s| - 1]
  {
    var front, last := s[..|s| - 1], s[|s| - 1];
    if last in front {
      var i :| 0 <= i < |front| && front[i] == last;
      assert s[i] == s[|s| - 1];
    }
    assert forall i :: 0 <= i < |front| ==> front[i] == s[i];
    assert forall i :: 0 <= i < |front| ==> front[i] in front;
  }

  /** The fields by their keys. */
  method FieldMap(fs: seq<FormField>) returns (fields: map<string, FormField>)
    requires forall i, j :: 0 <= i < j < |fs| ==> fs[i].key != fs[j].key
    ensures forall f :: f in fs ==> f.key in fields && fields[f.key] == f
    ensures forall k :: k in fields ==> fields[k] in fs && fields[k].key == k
  {
    fields := map[];
    for i := 0 to |fs|
      invariant forall k :: k in fields ==> exists j :: 0 <= j < i && fs[j].key == k && fields[k] == fs[j]
      invariant forall j :: 0 <= j < i ==> fs[j].key in fields && fields[fs[j].key] == fs[j]
    {
      fields := fields[fs[i].key := fs[i]];
    }
  }

  method CheckValues(answer: map<string, FormValue>, fields: map<string, FormField>) returns (ok: bool)
    ensures ok <==> forall k :: k in answer ==> k in fields && fields[k].Accepts(answer[k])
  {
    hide FormField.Accepts;
    var todo := answer.Keys;
    while todo != {}
      invariant todo <= answer.Keys
      invariant forall k :: k in answer && k !in todo ==> k in fields && fields[k].Accepts(answer[k])
    {
      var k :| k in todo;
      if k !in fields { return false; }
      var fits := CheckValue(fields[k], answer[k]);
      if !fits { return false; }
      todo := todo - {k};
    }
    return true;
  }

  method CheckRequired(answer: map<string, FormValue>, fs: seq<FormField>) returns (ok: bool)
    ensures ok <==> forall f :: f in fs && f.required ==> f.key in answer && exists s :: s in answer[f.key].values && s != ""
  {
    for i := 0 to |fs|
      invariant forall j :: 0 <= j < i && fs[j].required ==>
        fs[j].key in answer && exists s :: s in answer[fs[j].key].values && s != ""
    {
      var f := fs[i];
      if f.required {
        if f.key !in answer { return false; }
        if forall s :: s in answer[f.key].values ==> s == "" { return false; }
      }
    }
    return true;
  }

  /** FormResolve.Validate, against the form that is held. */
  method ValidateResolve(r: FormResolve, req: FormRequest) returns (ok: bool)
    requires req.Valid()
    ensures ok == r.Valid(req)
  {
    hide FormField.Valid, FormField.Accepts;
    if r.requestId != req.requestId { return false; }
    if r.outcome == CANCELLED { return r.answer == map[]; }
    if r.outcome != ANSWERED { return false; }
    var fields := FieldMap(req.fields);
    var known := CheckValues(r.answer, fields);
    var given := CheckRequired(r.answer, req.fields);
    return known && given;
  }

  // ----- what passes, in the words of the protocol -----

  /** One text for a field with one answer, up to 40 different ones for several; only options unless other texts are allowed. */
  ghost predicate Answers(f: FormField, v: FormValue) {
    match f.fieldType
    case FreeText => !v.multi && exists s: string :: v.values == [s] && |s| <= 4000
    case Select => !v.multi && exists s: string :: v.values == [s] && |s| <= 4000 && (f.custom || Offers(f, s))
    case Multiselect =>
      && v.multi && |v.values| <= 40 && (forall i, j :: 0 <= i < j < |v.values| ==> v.values[i] != v.values[j])
      && forall s :: s in v.values ==> 1 <= |s| <= 4000 && (f.custom || Offers(f, s))
  }

  predicate Offers(f: FormField, s: string) { exists o :: o in f.options && o.value == s }

  lemma AcceptsTells(f: FormField, v: FormValue)
    ensures f.Accepts(v) <==> Answers(f, v)
  {
    if !f.fieldType.Multiselect? && |v.values| == 1 {
      assert v.values == [v.values[0]];
      assert forall s :: s in v.values <==> s == v.values[0];
    }
  }

  /** An answer passes exactly when it cancels with nothing, or answers known fields fittingly and every required one. */
  lemma ResolveTells(r: FormResolve, req: FormRequest)
    ensures r.Valid(req) <==>
      && r.requestId == req.requestId
      && (|| (r.outcome == "cancelled" && r.answer == map[])
          || (&& r.outcome == "answered"
              && (forall k :: k in r.answer ==> exists f :: f in req.fields && f.key == k && Answers(f, r.answer[k]))
              && forall f :: f in req.fields && f.required ==>
                   f.key in r.answer && exists s :: s in r.answer[f.key].values && s != ""))
  {
    hide FormField.Accepts, Answers;
    forall f: FormField, v ensures f.Accepts(v) <==> Answers(f, v) { AcceptsTells(f, v); }
  }

  ghost predicate Answerable(f: FormField) {
    && 1 <= |f.key| <= 64 && |f.title| <= 200 && |f.description| <= 1000
    && if f.fieldType == FreeText then f.options == []
       else
         && 1 <= |f.options| <= 32
         && (forall o :: o in f.options ==> 1 <= |o.value| <= 200 && 1 <= |o.caption| <= 200 && |o.description| <= 1000)
         && forall i, j :: 0 <= i < j < |f.options| ==> f.options[i].value != f.options[j].value
  }

  /** A form passes exactly when it has up to 16 fields with distinct keys that can be answered, and short texts. */
  lemma FormTells(f: FormRequest)
    ensures f.Valid() <==>
      && f.requestId != "" && 1 <= |f.kind| <= 64 && |f.title| <= 200 && 1 <= |f.fields| <= 16
      && (forall x :: x in f.fields ==> Answerable(x))
      && forall i, j :: 0 <= i < j < |f.fields| ==> f.fields[i].key != f.fields[j].key
  {
  }

  /** A permission passes exactly when its names are there and short, its input is an object and its texts fit. */
  lemma PermissionTells(p: PermissionRequest)
    ensures p.Valid() <==>
      && p.requestId != "" && 1 <= |p.toolName| <= 128 && p.input.Object?
      && |p.summary| <= 200 && (forall c :: c in p.summary ==> c !in {'\r', '\n'})
      && |p.details| <= 16 && forall d :: d in p.details ==> 1 <= |d.caption| <= 64 && |d.text| <= 4000
  {
  }
}
