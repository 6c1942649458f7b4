/** agent/opencode: permission.asked as a permission request. */
module OpencodePermission {
  import opened Wrappers
  import opened Json
  import opened V0
  import opened Strings
  import opened Details

  /** The part of the data of permission.asked that the conversion reads. */
  datatype Asked = Asked(
    id: Field<string>, sid: Field<string>, action: Field<string>, resources: Field<seq<string>>,
    sourceId: string, metadata: Option<Value>)

  function ReadAsked(data: Value): Asked {
    var f := FieldsOf(data);
    Asked(ReadText(f, "id"), ReadText(f, "sessionID"), ReadText(f, "action"), ReadTexts(f, "resources"),
          if "source" in f then Text(ReadText(FieldsOf(f["source"]), "id")) else "",
          if "metadata" in f then Some(f["metadata"]) else None)
  }

  function Resources(d: Asked): seq<string> {
    if d.resources.Read? then d.resources.value else []
  }

  function MetaFields(d: Asked): map<string, Value> {
    if d.metadata.Some? then FieldsOf(d.metadata.value) else map[]
  }

  datatype Patch = Patch(file: string, patch: string)

  /** The files of an edit; unreadable as a whole when an element is neither an object nor null. */
  function Patches(d: Asked): seq<Patch> {
    var f := MetaFields(d);
    if "files" in f && f["files"].Array? && forall v :: v in f["files"].items ==> v.Object? || v.Null? then
      var items := f["files"].items;
      seq(|items|, i requires 0 <= i < |items| =>
        Patch(Text(ReadText(FieldsOf(items[i]), "file")), Text(ReadText(FieldsOf(items[i]), "patch"))))
    else []
  }

  const NAMED: seq<string> := ["url", "query", "root", "format"]

  function Caption(action: string): string {
    if action == "shell" then "command"
    else if action in {"edit", "write", "read", "external_directory"} then "path"
    else if action in {"glob", "grep"} then "pattern"
    else if action == "webfetch" then "url"
    else if action == "websearch" then "query"
    else "target"
  }

  function DetailKind(action: string): string {
    if action == "shell" then "command"
    else if action in {"edit", "write", "read", "external_directory"} then "path"
    else if action == "webfetch" then "url"
    else "text"
  }

  function ToolKind(name: string): string {
    if name in {"shell", "execute"} then "execute"
    else if name in {"edit", "write"} then "edit"
    else if name in {"read", "external_directory"} then "read"
    else if name in {"glob", "grep", "websearch"} then "search"
    else if name == "webfetch" then "fetch"
    else "other"
  }

  // ----- everything that is to be shown -----

  function ResourceItems(d: Asked): seq<Detail> {
    var rs := Resources(d);
    seq(|rs|, i requires 0 <= i < |rs| => Detail(Caption(Text(d.action)), rs[i], DetailKind(Text(d.action))))
  }

  function PatchItems(ps: seq<Patch>): seq<Detail> {
    seq(|ps|, i requires 0 <= i < |ps| => Detail("patch: " + ps[i].file, ps[i].patch, "text"))
  }

  predicate NeedsOwnItem(d: Asked, name: string) {
    var v := Text(ReadText(MetaFields(d), name));
    v != "" && v !in Resources(d)
  }

  function NamedItems(d: Asked, names: seq<string>): seq<Detail> {
    if names == [] then []
    else
      var rest := NamedItems(d, names[..|names| - 1]);
      var name := names[|names| - 1];
      if NeedsOwnItem(d, name) then rest + [Detail(name, Text(ReadText(MetaFields(d), name)), "text")] else rest
  }

  function Items(d: Asked): seq<Detail> {
    ResourceItems(d) + PatchItems(Patches(d)) + NamedItems(d, NAMED)
  }

  // ----- what the details would not show -----

  predicate KnownFileField(name: string, v: Value) {
    if name in {"file", "patch"} then Textual(v)
    else if name in {"additions", "deletions"} then v.Number? || v.Null?
    else if name == "status" then Textual(v) && ByteLen(TextOf(v)) <= 32
    else false
  }

  predicate KnownFile(v: Value) {
    (v.Object? || v.Null?) && forall k :: k in FieldsOf(v) ==> KnownFileField(k, FieldsOf(v)[k])
  }

  predicate KnownMetaField(name: string, v: Value) {
    if name in NAMED then Textual(v)
    else if name == "files" then v.Null? || (v.Array? && forall x :: x in v.items ==> KnownFile(x))
    else false
  }

  predicate HiddenMetadata(m: Option<Value>) {
    && m.Some? && !m.value.Null?
    && (!m.value.Object? || exists k :: k in FieldsOf(m.value) && !KnownMetaField(k, FieldsOf(m.value)[k]))
  }

  predicate KnownTopField(name: string, v: Value) {
    if name in {"id", "sessionID", "action", "resources", "metadata", "save"} then true
    else if name == "source" then
      (v.Object? || v.Null?) && forall k :: k in FieldsOf(v) ==> k in {"id", "messageID", "type"}
    else false
  }

  predicate HiddenTopLevel(data: Value) {
    || !(data.Object? || data.Null?)
    || exists k :: k in FieldsOf(data) && !KnownTopField(k, FieldsOf(data)[k])
  }

  // ----- the request -----

  function Input(d: Asked): Value {
    var rs := Resources(d);
    var base := [Member("action", Str(Text(d.action))),
                 Member("resources", Array(seq(|rs|, i requires 0 <= i < |rs| => Str(rs[i]))))];
    if d.metadata.Some? && d.metadata.value.Object?
    then Object(base + [Member("metadata", d.metadata.value)]) else Object(base)
  }

  function Summary(d: Asked): string {
    SummaryLine(Text(d.action) + ": " + Join(Resources(d), if Text(d.action) == "shell" then " ; " else ", "),
                MAX_SUMMARY_LEN)
  }

  /** The request that permission.asked becomes. */
  function Permission(data: Value): PermissionRequest {
    var d := ReadAsked(data);
    PermissionRequest(
      Text(d.id), d.sourceId, Text(d.action), ToolKind(Text(d.action)), Input(d), "", Summary(d), Shown(Items(d)),
      !Fits(Items(d)) || Resources(d) == [] || HiddenMetadata(d.metadata) || HiddenTopLevel(data))
  }

  method AddResources(d: Asked, sheet: Sheet)
    requires sheet.Valid() && sheet.items == []
    modifies sheet
    ensures sheet.Valid() && sheet.items == ResourceItems(d)
  {
    var resources, caption, kind := Resources(d), Caption(Text(d.action)), DetailKind(Text(d.action));
    ghost var all := ResourceItems(d);
    for i := 0 to |resources|
      invariant sheet.Valid() && sheet.items == all[..i]
    {
      sheet.Add(caption, resources[i], kind);
      assert all[..i + 1] == all[..i] + [all[i]];
    }
  }

  method AddPatches(d: Asked, sheet: Sheet)
    requires sheet.Valid()
    modifies sheet
    ensures sheet.Valid() && sheet.items == old(sheet.items) + PatchItems(Patches(d))
  {
    var files := Patches(d);
    ghost var all := PatchItems(files);
    for i := 0 to |files|
      invariant sheet.Valid() && sheet.items == old(sheet.items) + all[..i]
    {
      sheet.Add("patch: " + files[i].file, files[i].patch, "text");
      assert all[..i + 1] == all[..i] + [all[i]];
    }
  }

  method AddNamed(d: Asked, sheet: Sheet)
    requires sheet.Valid()
    modifies sheet
    ensures sheet.Valid() && sheet.items == old(sheet.items) + NamedItems(d, NAMED)
  {
    for i := 0 to |NAMED|
      invariant sheet.Valid() && sheet.items == old(sheet.items) + NamedItems(d, NAMED[..i])
    {
      var v := Text(ReadText(MetaFields(d), NAMED[i]));
      assert NAMED[..i + 1][..i] == NAMED[..i];
      if v != "" && v !in Resources(d) {
        sheet.Add(NAMED[i], v, "text");
      }
    }
    assert NAMED[..|NAMED|] == NAMED;
  }

  /** buildPermission and the check of the top-level fields, step by step. */
  method BuildPermission(data: Value) returns (req: PermissionRequest)
    ensures req == Permission(data)
  {
    var d := ReadAsked(data);
    var sheet := new Sheet();
    AddResources(d, sheet);
    AddPatches(d, sheet);
    AddNamed(d, sheet);
    var truncated := sheet.truncated;
    if Resources(d) == [] || HiddenMetadata(d.metadata) {
      truncated := true;
    }
    req := PermissionRequest(Text(d.id), d.sourceId, Text(d.action), ToolKind(Text(d.action)), Input(d), "",
                             Summary(d), sheet.details, truncated);
    if HiddenTopLevel(data) {
      req := req.(detailsTruncated := true);
    }
  }

  // ----- what the flag promises -----

  lemma {:induction false} NamedItemsHave(d: Asked, names: seq<string>, name: string)
    requires name in names && NeedsOwnItem(d, name)
    ensures Detail(name, Text(ReadText(MetaFields(d), name)), "text") in NamedItems(d, names)
  {
    var front := names[..|names| - 1];
    if name in front {
      NamedItemsHave(d, front, name);
    } else {
      assert name == names[|names| - 1];
    }
  }

  // What the agent sent, read without the conversion.

  function StringAt(fields: map<string, Value>, name: string): string {
    if name in fields && fields[name].Str? then fields[name].s else ""
  }

  /** The members of the metadata. */
  function Meta(data: Value): map<string, Value> {
    if "metadata" in FieldsOf(data) then FieldsOf(FieldsOf(data)["metadata"]) else map[]
  }

  function ItemsAt(fields: map<string, Value>, name: string): seq<Value> {
    if name in fields && fields[name].Array? then fields[name].items else []
  }

  /** The texts of the resources, none when one of them is no text. */
  function Asks(data: Value): seq<string> {
    var vs := ItemsAt(FieldsOf(data), "resources");
    if forall v :: v in vs ==> v.Str? || v.Null?
    then seq(|vs|, i requires 0 <= i < |vs| => if vs[i].Str? then vs[i].s else "") else []
  }

  /** Caption and kind of the resources of each action. */
  function ResourceRow(action: string, text: string): Detail {
    match action
    case "shell" => Detail("command", text, "command")
    case "edit" => Detail("path", text, "path")
    case "write" => Detail("path", text, "path")
    case "read" => Detail("path", text, "path")
    case "external_directory" => Detail("path", text, "path")
    case "glob" => Detail("pattern", text, "text")
    case "grep" => Detail("pattern", text, "text")
    case "webfetch" => Detail("url", text, "url")
    case "websearch" => Detail("query", text, "text")
    case _ => Detail("target", text, "text")
  }

  function PatchRow(file: Value): Detail {
    Detail("patch: " + StringAt(FieldsOf(file), "file"), StringAt(FieldsOf(file), "patch"), "text")
  }

  /** A file of an edit has nothing but its name, its patch and numbers that follow from the patch. */
  predicate PlainFile(v: Value) {
    && (v.Object? || v.Null?)
    && var m := FieldsOf(v);
       && (forall k :: k in m ==> k in {"file", "patch", "additions", "deletions", "status"})
       && (forall k :: k in m && k in {"file", "patch", "status"} ==> m[k].Str? || m[k].Null?)
       && (forall k :: k in m && k in {"additions", "deletions"} ==> m[k].Number? || m[k].Null?)
       && ByteLen(StringAt(m, "status")) <= 32
  }

  /** Nothing was sent beside what the details are made of and what only names the request. */
  predicate AllKnown(data: Value) {
    && (data.Object? || data.Null?)
    && var f, m := FieldsOf(data), Meta(data);
       && (forall k :: k in f ==> k in {"id", "sessionID", "action", "resources", "metadata", "save", "source"})
       && ("source" in f ==>
             (f["source"].Object? || f["source"].Null?) && forall k :: k in FieldsOf(f["source"]) ==> k in {"id", "messageID", "type"})
       && ("metadata" in f ==> f["metadata"].Object? || f["metadata"].Null?)
       && (forall k :: k in m ==> k in {"url", "query", "root", "format", "files"})
       && (forall k :: k in m && k in {"url", "query", "root", "format"} ==> m[k].Str? || m[k].Null?)
       && ("files" in m ==> m["files"].Array? || m["files"].Null?)
       && forall v :: v in ItemsAt(m, "files") ==> PlainFile(v)
  }

  lemma KnownFileIff(v: Value)
    ensures KnownFile(v) <==> PlainFile(v)
  {
    hide ByteLen;
    var m := FieldsOf(v);
    if KnownFile(v) {
      assert forall k :: k in m ==> KnownFileField(k, m[k]);
      if "status" in m { assert KnownFileField("status", m["status"]); }
      NoBytes();
    }
    if PlainFile(v) {
      forall k | k in m ensures KnownFileField(k, m[k]) { }
    }
  }

  lemma NoBytes()
    ensures ByteLen("") == 0
  {
  }

  lemma KnownIff(data: Value)
    ensures !HiddenMetadata(ReadAsked(data).metadata) && !HiddenTopLevel(data) <==> AllKnown(data)
  {
    hide KnownFile, PlainFile;
    forall v ensures KnownFile(v) <==> PlainFile(v) { KnownFileIff(v); }
    var f, m := FieldsOf(data), Meta(data);
    if AllKnown(data) {
      forall k | k in f ensures KnownTopField(k, f[k]) { }
      forall k | k in m ensures KnownMetaField(k, m[k]) { }
    } else if !HiddenMetadata(ReadAsked(data).metadata) && !HiddenTopLevel(data) {
      assert forall k :: k in f ==> KnownTopField(k, f[k]);
      assert "metadata" in f && f["metadata"].Object? ==> forall k :: k in m ==> KnownMetaField(k, m[k]);
    }
  }

  lemma AskedAre(data: Value)
    ensures Resources(ReadAsked(data)) == Asks(data)
    ensures MetaFields(ReadAsked(data)) == Meta(data)
    ensures Text(ReadAsked(data).action) == StringAt(FieldsOf(data), "action")
    ensures forall name :: Text(ReadText(Meta(data), name)) == StringAt(Meta(data), name)
  {
  }

  lemma ResourceItemsAre(data: Value)
    ensures var d, action, rs := ReadAsked(data), StringAt(FieldsOf(data), "action"), Asks(data);
      |ResourceItems(d)| == |rs| && forall i :: 0 <= i < |rs| ==> ResourceItems(d)[i] == ResourceRow(action, rs[i])
  {
    hide ReadAsked, Asks, Caption, DetailKind, ResourceRow;
    AskedAre(data);
    var d, action, rs := ReadAsked(data), StringAt(FieldsOf(data), "action"), Asks(data);
    forall i | 0 <= i < |rs| ensures ResourceItems(d)[i] == ResourceRow(action, rs[i]) { RowIs(action, rs[i]); }
  }

  lemma RowIs(action: string, text: string)
    ensures Detail(Caption(action), text, DetailKind(action)) == ResourceRow(action, text)
  {
  }

  lemma PatchItemsAre(data: Value)
    ensures var ps, fs := PatchItems(Patches(ReadAsked(data))), ItemsAt(Meta(data), "files");
      (forall v :: v in fs ==> v.Object? || v.Null?) ==>
        |ps| == |fs| && forall j :: 0 <= j < |fs| ==> ps[j] == PatchRow(fs[j])
  {
    hide ReadAsked;
    AskedAre(data);
  }

  /** The row of a value that has a name of its own, unless it is a resource as well. */
  function OwnRow(data: Value, name: string): seq<Detail> {
    var text := StringAt(Meta(data), name);
    if text == "" || text in Asks(data) then [] else [Detail(name, text, "text")]
  }

  function OwnRows(data: Value): seq<Detail> {
    OwnRow(data, "url") + OwnRow(data, "query") + OwnRow(data, "root") + OwnRow(data, "format")
  }

  lemma NamedStep(data: Value, names: seq<string>, name: string)
    ensures var d := ReadAsked(data); NamedItems(d, names + [name]) == NamedItems(d, names) + OwnRow(data, name)
  {
    hide ReadAsked, Asks, Meta;
    AskedAre(data);
    assert (names + [name])[..|names|] == names;
  }

  lemma NamedItemsAre(data: Value)
    ensures NamedItems(ReadAsked(data), NAMED) == OwnRows(data)
  {
    hide NamedItems, OwnRow, ReadAsked;
    NamedStep(data, [], "url");
    NamedStep(data, ["url"], "query");
    NamedStep(data, ["url", "query"], "root");
    NamedStep(data, ["url", "query", "root"], "format");
    assert NamedItems(ReadAsked(data), []) == [] by { NoNames(ReadAsked(data)); }
    assert [] + ["url"] == ["url"] && ["url"] + ["query"] == ["url", "query"];
    assert ["url", "query"] + ["root"] == ["url", "query", "root"];
    assert ["url", "query", "root"] + ["format"] == NAMED;
  }

  lemma NoNames(d: Asked)
    ensures NamedItems(d, []) == []
  {
  }

  /** The rows of everything that was sent: the resources, the patches, then what else is named. */
  ghost predicate ShowsAll(data: Value, ds: seq<Detail>) {
    var rs, fs, action := Asks(data), ItemsAt(Meta(data), "files"), StringAt(FieldsOf(data), "action");
    && |ds| == |rs| + |fs| + |OwnRows(data)|
    && (forall i :: 0 <= i < |rs| ==> ds[i] == ResourceRow(action, rs[i]))
    && (forall j :: 0 <= j < |fs| ==> ds[|rs| + j] == PatchRow(fs[j]))
    && ds[|rs| + |fs|..] == OwnRows(data)
  }

  lemma ItemsShowAll(data: Value)
    requires forall v :: v in ItemsAt(Meta(data), "files") ==> v.Object? || v.Null?
    ensures ShowsAll(data, Items(ReadAsked(data)))
  {
    hide ReadAsked, Asks, Meta, OwnRows, ResourceItems, PatchItems, NamedItems, PatchRow, ResourceRow, ItemsAt, StringAt;
    var d := ReadAsked(data);
    ResourceItemsAre(data);
    PatchItemsAre(data);
    NamedItemsAre(data);
    var a, b, c := ResourceItems(d), PatchItems(Patches(d)), NamedItems(d, NAMED);
    assert Items(d) == a + b + c;
    assert (a + b + c)[|a| + |b|..] == c;
    assert forall j :: 0 <= j < |b| ==> (a + b + c)[|a| + j] == b[j];
  }

  /**
    While the flag is down, every resource, every file of an edit with its patch and every other named
    value stands in the details just as it was sent, in that order, and nothing else was sent.
   */
  lemma NothingHidden(data: Value)
    requires !Permission(data).detailsTruncated
    ensures var f, m, ds := FieldsOf(data), Meta(data), Permission(data).details;
      var rs, fs := ItemsAt(f, "resources"), ItemsAt(m, "files");
      && rs != [] && |rs| + |fs| <= |ds|
      && (forall i :: 0 <= i < |rs| ==>
            (rs[i].Str? || rs[i].Null?) && ds[i] == ResourceRow(StringAt(f, "action"), if rs[i].Str? then rs[i].s else ""))
      && (forall j :: 0 <= j < |fs| ==>
            ds[|rs| + j] == Detail("patch: " + StringAt(FieldsOf(fs[j]), "file"), StringAt(FieldsOf(fs[j]), "patch"), "text"))
      && ds[|rs| + |fs|..] == OwnRow(data, "url") + OwnRow(data, "query") + OwnRow(data, "root") + OwnRow(data, "format")
      && AllKnown(data)
  {
    hide Items, ReadAsked, OwnRow, HiddenMetadata, HiddenTopLevel, ResourceRow, PlainFile, Summary, Input;
    KnownIff(data);
    PlainIsObject();
    ItemsShowAll(data);
    ShownWhole(Items(ReadAsked(data)));
    AskedAre(data);
  }

  lemma PlainIsObject()
    ensures forall v :: PlainFile(v) ==> v.Object? || v.Null?
  {
  }

  /** The flag is up exactly when nothing or something unknown was sent, or what was sent does not fit. */
  lemma FlagIff(data: Value)
    ensures Permission(data).detailsTruncated <==>
      || Asks(data) == [] || !AllKnown(data)
      || exists ds :: ShowsAll(data, ds) && (|ds| > 16 || exists d: Detail :: d in ds && (|d.caption| > 64 || |d.text| > 4000))
  {
    hide Items, ReadAsked, ShowsAll, HiddenMetadata, HiddenTopLevel, PlainFile, Summary, Input, Asks;
    KnownIff(data);
    AskedAre(data);
    if AllKnown(data) {
      PlainIsObject();
      var items := Items(ReadAsked(data));
      ItemsShowAll(data);
      forall ds | ShowsAll(data, ds) ensures ds == items { OnlyOne(data, ds, items); }
    }
  }

  lemma OnlyOne(data: Value, a: seq<Detail>, b: seq<Detail>)
    requires ShowsAll(data, a) && ShowsAll(data, b)
    ensures a == b
  {
    hide OwnRows, Asks, PatchRow, ResourceRow, ItemsAt, Meta;
    var n := |Asks(data)|;
    var k := n + |ItemsAt(Meta(data), "files")|;
    forall i | 0 <= i < |a| ensures a[i] == b[i] {
      if i >= k {
        assert a[i] == a[k..][i - k] && b[i] == b[k..][i - k];
      } else if i >= n {
        var j := i - n;
        assert a[n + j] == PatchRow(ItemsAt(Meta(data), "files")[j]) && b[n + j] == PatchRow(ItemsAt(Meta(data), "files")[j]);
      }
    }
  }

  /** Everything else of the request, told from what the agent sent. */
  lemma RequestTells(data: Value)
    ensures var r, f := Permission(data), FieldsOf(data);
      var action, rs := StringAt(f, "action"), Asks(data);
      var base := [Member("action", Str(action)), Member("resources", Array(seq(|rs|, i requires 0 <= i < |rs| => Str(rs[i]))))];
      && r.requestId == StringAt(f, "id") && r.toolName == action && r.title == ""
      && r.callId == (if "source" in f then StringAt(FieldsOf(f["source"]), "id") else "")
      && r.input == Object(if "metadata" in f && f["metadata"].Object? then base + [Member("metadata", f["metadata"])] else base)
      && r.summary == SummaryLine(action + ": " + Join(rs, if action == "shell" then " ; " else ", "), 200)
      && r.kind == (match action
                    case "shell" => "execute" case "execute" => "execute" case "edit" => "edit" case "write" => "edit"
                    case "read" => "read" case "external_directory" => "read" case "webfetch" => "fetch"
                    case "glob" => "search" case "grep" => "search" case "websearch" => "search"
                    case _ => "other")
  {
    hide Items, HiddenMetadata, HiddenTopLevel, SummaryLine, Join, Asks, Resources;
    AskedAre(data);
  }

  lemma {:induction false} NamedItemsCaptioned(d: Asked, names: seq<string>)
    requires forall i :: 0 <= i < |names| ==> |names[i]| > 0
    ensures forall x :: x in NamedItems(d, names) ==> |x.caption| > 0
  {
    if names != [] {
      NamedItemsCaptioned(d, names[..|names| - 1]);
    }
  }

  /** The request passes the protocol's own check exactly when the action is not too long for a tool name. */
  lemma ValidUnlessNameTooLong(data: Value)
    requires var d := ReadAsked(data); Text(d.id) != "" && Text(d.action) != ""
    ensures Permission(data).Valid() <==> |Text(ReadAsked(data).action)| <= MAX_TOOL_NAME_LEN
  {
    hide Items, ReadAsked, HiddenMetadata, HiddenTopLevel, Caption;
    ItemsCaptioned(ReadAsked(data));
    ShownValid(Items(ReadAsked(data)));
    assert |Summary(ReadAsked(data))| <= MAX_SUMMARY_LEN;
  }

  lemma ItemsCaptioned(d: Asked)
    ensures forall i :: 0 <= i < |Items(d)| ==> |Items(d)[i].caption| > 0
  {
    hide Patches, Resources, NamedItems;
    var items, n, p := Items(d), |ResourceItems(d)|, |PatchItems(Patches(d))|;
    NamedItemsCaptioned(d, NAMED);
    forall i | 0 <= i < |items| ensures |items[i].caption| > 0 {
      if i < n {
        assert items[i].caption == Caption(Text(d.action));
      } else if i < n + p {
        assert items[i].caption == "patch: " + Patches(d)[i - n].file;
      } else {
        assert items[i] == NamedItems(d, NAMED)[i - n - p];
      }
    }
  }

  lemma ShownValid(items: seq<Detail>)
    requires forall i :: 0 <= i < |items| ==> |items[i].caption| > 0
    ensures |Shown(items)| <= MAX_DETAILS
    ensures forall d :: d in Shown(items) ==>
      d.caption != "" && |d.caption| <= MAX_DETAIL_LABEL_LEN && |d.text| <= MAX_DETAIL_TEXT_LEN
  {
  }
}
