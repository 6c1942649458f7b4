/** The vocabulary of protocol v0 that the adapters and the request ledger share. */
module V0 {
  import Json

  const MAX_SUMMARY_LEN := 200
  const MAX_DETAILS := 16
  const MAX_DETAIL_LABEL_LEN := 64
  const MAX_DETAIL_TEXT_LEN := 4000
  const MAX_TOOL_NAME_LEN := 128

  const ALLOW_ONCE := "allow_once"
  const ALLOW_ALWAYS := "allow_always"
  const REJECT_ONCE := "reject_once"
  const CANCELLED := "cancelled"
  const ANSWERED := "answered"

  // ----- permission requests -----

  datatype Detail = Detail(caption: string, text: string, kind: string)

  datatype PermissionRequest = PermissionRequest(
    requestId: string, callId: string, toolName: string, kind: string, input: Json.Value,
    title: string, summary: string, details: seq<Detail>, detailsTruncated: bool)
  {
    predicate Valid() {
      && requestId != "" && toolName != "" && |toolName| <= MAX_TOOL_NAME_LEN
      && input.Object?
      && |summary| <= MAX_SUMMARY_LEN && '\r' !in summary && '\n' !in summary
      && |details| <= MAX_DETAILS
      && forall d :: d in details ==>
           d.caption != "" && |d.caption| <= MAX_DETAIL_LABEL_LEN && |d.text| <= MAX_DETAIL_TEXT_LEN
    }
  }

  function Clamp(s: string, max: nat): (r: string)
    ensures r <= s && (|s| <= max ==> |r| == |s|) && (|s| > max ==> |r| == max)
  {
    if |s| <= max then s else s[..max]
  }

  function Flat(c: char): char { if c == '\r' || c == '\n' || c == '\t' then ' ' else c }

  function Flatten(s: string): string {
    seq(|s|, i requires 0 <= i < |s| => Flat(s[i]))
  }

  /** One line of at most max characters, whatever the input. */
  function SummaryLine(s: string, max: nat): (r: string)
    requires max > 0
    ensures |r| <= max
    ensures '\r' !in r && '\n' !in r && '\t' !in r
    ensures |s| <= max ==> |r| == |s|
    ensures |s| > max ==> |r| == max && r[max - 1] == '\U{2026}'
    ensures forall i :: 0 <= i < |s| && (i < max - 1 || |s| <= max) ==>
      r[i] == if s[i] in {'\r', '\n', '\t'} then ' ' else s[i]
  {
    var flat := Flatten(s);
    if |flat| <= max then flat else flat[..max - 1] + "\U{2026}"
  }

  // ----- forms -----

  const MAX_FORM_FIELDS := 16
  const MAX_FORM_OPTIONS := 32
  const MAX_FORM_KEY_LEN := 64
  const MAX_FORM_KIND_LEN := 64
  const MAX_FORM_TITLE_LEN := 200
  const MAX_FORM_LABEL_LEN := 200
  const MAX_FORM_VALUE_LEN := 200
  const MAX_FORM_DESCRIPTION := 1000
  const MAX_FORM_ANSWER_TEXT := 4000
  const MAX_FORM_ANSWER_VALUES := 40

  datatype FieldType = Select | Multiselect | FreeText

  datatype FormOption = FormOption(caption: string, value: string, description: string)

  datatype FormField = FormField(
    key: string, title: string, description: string, fieldType: FieldType,
    options: seq<FormOption>, custom: bool, required: bool)
  {
    predicate Valid() {
      && 0 < |key| <= MAX_FORM_KEY_LEN
      && |title| <= MAX_FORM_TITLE_LEN && |description| <= MAX_FORM_DESCRIPTION
      && if fieldType.FreeText? then options == []
         else
           && 0 < |options| <= MAX_FORM_OPTIONS
           && (forall o :: o in options ==>
                 && 0 < |o.value| <= MAX_FORM_VALUE_LEN && 0 < |o.caption| <= MAX_FORM_LABEL_LEN
                 && |o.description| <= MAX_FORM_DESCRIPTION)
           && forall i, j :: 0 <= i < j < |options| ==> options[i].value != options[j].value
    }

    predicate Accepts(v: FormValue) {
      && (if fieldType.Multiselect? then v.multi && |v.values| <= MAX_FORM_ANSWER_VALUES
          else !v.multi && |v.values| == 1)
      && (forall s :: s in v.values ==>
            && |s| <= MAX_FORM_ANSWER_TEXT
            && (fieldType.Multiselect? ==> s != "")
            && (!fieldType.FreeText? && !custom ==> exists o :: o in options && o.value == s))
      && (fieldType.Multiselect? ==>
            forall i, j :: 0 <= i < j < |v.values| ==> v.values[i] != v.values[j])
    }
  }

  datatype FormRequest = FormRequest(
    requestId: string, callId: string, kind: string, title: string, fields: seq<FormField>)
  {
    predicate Valid() {
      && requestId != "" && 0 < |kind| <= MAX_FORM_KIND_LEN && |title| <= MAX_FORM_TITLE_LEN
      && 0 < |fields| <= MAX_FORM_FIELDS
      && (forall f :: f in fields ==> f.Valid())
      && forall i, j :: 0 <= i < j < |fields| ==> fields[i].key != fields[j].key
    }
  }

  datatype FormValue = FormValue(multi: bool, values: seq<string>)

  datatype FormResolve = FormResolve(requestId: string, outcome: string, answer: map<string, FormValue>)
  {
    predicate Valid(req: FormRequest) {
      && requestId == req.requestId
      && (|| (outcome == CANCELLED && answer == map[])
          || (&& outcome == ANSWERED
              && (forall k :: k in answer ==>
                    exists f :: f in req.fields && f.key == k && f.Accepts(answer[k]))
              && (forall f :: f in req.fields && f.required ==>
                    f.key in answer && exists s :: s in answer[f.key].values && s != "")))
    }
  }
}
