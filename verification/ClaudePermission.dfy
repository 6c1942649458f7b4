/** agent/claude: a can_use_tool request as a permission request. */
module ClaudePermission {
  import opened Wrappers
  import opened Json
  import opened JsonText
  import opened V0
  import opened Details
  import Order

  /** A fixed detail of a known tool: the input key it shows, under which caption. */
  datatype Spec = Spec(caption: string, key: string, kind: string)

  /** The tools that have fixed details, with the input key that their summary shows. */
  function SummaryKey(tool: string): string {
    if tool == "Bash" then "command"
    else if tool in {"Write", "Edit", "Read"} then "file_path"
    else if tool == "WebFetch" then "url"
    else ""
  }

  /** The fixed details of a known tool, in their order. */
  function Specs(tool: string): (r: seq<Spec>)
    ensures forall s :: s in r ==> 0 < |s.caption| <= MAX_DETAIL_LABEL_LEN
    ensures |r| <= 3 && (r == [] <==> SummaryKey(tool) == "")
  {
    if tool == "Bash" then [Spec("command", "command", "command")]
    else if tool == "Write" then [Spec("path", "file_path", "path"), Spec("content", "content", "text")]
    else if tool == "Edit" then
      [Spec("path", "file_path", "path"), Spec("old_string", "old_string", "text"), Spec("new_string", "new_string", "text")]
    else if tool == "Read" then [Spec("path", "file_path", "path")]
    else if tool == "WebFetch" then [Spec("url", "url", "url"), Spec("prompt", "prompt", "text")]
    else []
  }

  const EMPTY_KEY := "(\U{7a7a}\U{306e}\U{30ad}\U{30fc})"

  function ToolKind(name: string): string {
    if name == "Read" then "read"
    else if name in {"Write", "Edit", "MultiEdit", "NotebookEdit"} then "edit"
    else if name in {"Grep", "Glob", "WebSearch"} then "search"
    else if name == "Bash" then "execute"
    else if name == "WebFetch" then "fetch"
    else "other"
  }

  /** A text as it is, anything else as its JSON text, a missing value as nothing. */
  function ValueText(fields: map<string, Value>, key: string): string {
    if key !in fields then ""
    else if fields[key].Str? then fields[key].s
    else Compact(fields[key])
  }

  function Caption(key: string): string { if key == "" then EMPTY_KEY else key }

  function UsedKeys(specs: seq<Spec>): set<string> { set s | s in specs :: s.key }

  // ----- everything that is to be shown -----

  function FixedItems(specs: seq<Spec>, fields: map<string, Value>): seq<Detail> {
    seq(|specs|, i requires 0 <= i < |specs| =>
      Detail(Caption(specs[i].caption), ValueText(fields, specs[i].key), specs[i].kind))
  }

  function KeyItems(keys: seq<string>, fields: map<string, Value>): seq<Detail> {
    seq(|keys|, i requires 0 <= i < |keys| => Detail(Caption(keys[i]), ValueText(fields, keys[i]), "text"))
  }

  /** The keys that no fixed detail shows, in order. */
  ghost function OtherKeys(tool: string, fields: map<string, Value>): seq<string> {
    Order.Listing(fields.Keys - UsedKeys(Specs(tool)))
  }

  ghost function Items(tool: string, fields: map<string, Value>): seq<Detail> {
    FixedItems(Specs(tool), fields) + KeyItems(OtherKeys(tool, fields), fields)
  }

  function Summary(tool: string, fields: map<string, Value>): string {
    var key := SummaryKey(tool);
    SummaryLine(if key != "" then tool + ": " + ValueText(fields, key) else tool, MAX_SUMMARY_LEN)
  }

  /** The request that can_use_tool becomes. */
  ghost function Permission(id: string, callId: string, tool: string, input: Value, title: string): PermissionRequest {
    var fields := FieldsOf(input);
    PermissionRequest(id, callId, tool, ToolKind(tool), input, title, Summary(tool, fields),
                      Shown(Items(tool, fields)), !Fits(Items(tool, fields)))
  }

  method AddFixed(tool: string, fields: map<string, Value>, sheet: Sheet)
    requires sheet.Valid() && sheet.items == []
    modifies sheet
    ensures sheet.Valid() && sheet.items == FixedItems(Specs(tool), fields)
  {
    var specs := Specs(tool);
    ghost var all := FixedItems(specs, fields);
    for i := 0 to |specs|
      invariant sheet.Valid() && sheet.items == all[..i]
    {
      sheet.Add(Caption(specs[i].caption), ValueText(fields, specs[i].key), specs[i].kind);
      assert all[..i + 1] == all[..i] + [all[i]];
    }
  }

  method AddKeys(keys: seq<string>, fields: map<string, Value>, sheet: Sheet)
    requires sheet.Valid()
    modifies sheet
    ensures sheet.Valid() && sheet.items == old(sheet.items) + KeyItems(keys, fields)
  {
    ghost var all := KeyItems(keys, fields);
    for i := 0 to |keys|
      invariant sheet.Valid() && sheet.items == old(sheet.items) + all[..i]
    {
      sheet.Add(Caption(keys[i]), ValueText(fields, keys[i]), "text");
      assert all[..i + 1] == all[..i] + [all[i]];
    }
  }

  /** buildPermission step by step: the other keys come out of the map in any order and are sorted. */
  method BuildPermission(id: string, callId: string, tool: string, input: Value, title: string)
    returns (req: PermissionRequest)
    ensures req == Permission(id, callId, tool, input, title)
  {
    var fields := FieldsOf(input);
    var sheet := new Sheet();
    AddFixed(tool, fields, sheet);
    var others := fields.Keys - UsedKeys(Specs(tool));
    var keys := Order.SortedNames(others);
    Order.ListsUnique(keys, Order.Listing(others), others);
    AddKeys(keys, fields, sheet);
    req := PermissionRequest(id, callId, tool, ToolKind(tool), input, title, Summary(tool, fields),
                             sheet.details, sheet.truncated);
  }

  // ----- what the flag promises -----

  /** A human who reads the text knows the value: a string is shown as it is, anything else reads back to itself. */
  ghost predicate Tells(text: string, v: Value) {
    match v
    case Str(s) => text == s
    case Null => text == "null"
    case Bool(b) => text == if b then "true" else "false"
    case Number(n) => text == n
    case _ => Parse(text) == Some(Parsed(v, ""))
  }

  /** The text under this key of the input, nothing when there is none. */
  ghost predicate TellsKey(text: string, fields: map<string, Value>, key: string) {
    if key in fields then Tells(text, fields[key]) else text == ""
  }

  lemma ValueTells(fields: map<string, Value>, key: string)
    ensures TellsKey(ValueText(fields, key), fields, key)
  {
    hide Compact, Parse;
    if key in fields && !fields[key].Str? {
      var v := fields[key];
      ReadsBack(v, "");
      assert Compact(v) + "" == Compact(v);
      CompactWord(v);
    }
  }

  lemma CompactWord(v: Value)
    ensures v.Null? ==> Compact(v) == "null"
    ensures v.Bool? ==> Compact(v) == if v.b then "true" else "false"
    ensures v.Number? ==> Compact(v) == v.text
  {
  }

  /** The keys that a known tool always shows, first of all. */
  function FixedKeys(tool: string): set<string> {
    match tool
    case "Bash" => {"command"}
    case "Write" => {"file_path", "content"}
    case "Edit" => {"file_path", "old_string", "new_string"}
    case "Read" => {"file_path"}
    case "WebFetch" => {"url", "prompt"}
    case _ => {}
  }

  lemma UsedAre(tool: string)
    ensures UsedKeys(Specs(tool)) == FixedKeys(tool) && |Specs(tool)| == |FixedKeys(tool)|
  {
    hide Specs, UsedKeys, FixedKeys;
    SpecKeys(tool);
    UsedOnce(Specs(tool));
  }

  /** The keys of the fixed details, in their order. */
  function KeysInOrder(tool: string): seq<string> {
    match tool
    case "Bash" => ["command"]
    case "Write" => ["file_path", "content"]
    case "Edit" => ["file_path", "old_string", "new_string"]
    case "Read" => ["file_path"]
    case "WebFetch" => ["url", "prompt"]
    case _ => []
  }

  lemma SpecKeys(tool: string)
    ensures var specs, ks := Specs(tool), KeysInOrder(tool);
      && |specs| == |ks| && (forall i :: 0 <= i < |ks| ==> specs[i].key == ks[i])
      && (forall i, j :: 0 <= i < j < |ks| ==> ks[i] != ks[j])
      && FixedKeys(tool) == set k | k in ks
  {
    hide FixedKeys, KeysInOrder;
    DifferentKeys(tool);
    SameKeys(tool);
    FixedAre(tool);
  }

  lemma DifferentKeys(tool: string)
    ensures var ks := KeysInOrder(tool); forall i, j :: 0 <= i < j < |ks| ==> ks[i] != ks[j]
  {
    assert "file_path"[0] != "content"[0] && "file_path"[0] != "old_string"[0] && "file_path"[0] != "new_string"[0];
    assert "old_string"[0] != "new_string"[0] && "url"[0] != "prompt"[0];
  }

  lemma SameKeys(tool: string)
    ensures var specs, ks := Specs(tool), KeysInOrder(tool);
      |specs| == |ks| && (forall i :: 0 <= i < |ks| ==> specs[i].key == ks[i])
  {
  }

  lemma FixedAre(tool: string)
    ensures FixedKeys(tool) == set k | k in KeysInOrder(tool)
  {
  }

  lemma {:induction false} UsedOnce(specs: seq<Spec>)
    requires forall i, j :: 0 <= i < j < |specs| ==> specs[i].key != specs[j].key
    ensures |UsedKeys(specs)| == |specs|
    ensures forall k :: k in UsedKeys(specs) <==> exists i :: 0 <= i < |specs| && specs[i].key == k
  {
    if specs != [] {
      var front, last := specs[..|specs| - 1], specs[|specs| - 1];
      UsedOnce(front);
      assert specs == front + [last];
      assert UsedKeys(specs) == UsedKeys(front) + {last.key};
    }
  }

  lemma FixedShown(tool: string, fields: map<string, Value>, s: Spec)
    requires s in Specs(tool)
    ensures Detail(s.caption, ValueText(fields, s.key), s.kind) in Items(tool, fields)
  {
    hide Specs, ValueText;
    var specs := Specs(tool);
    var i :| 0 <= i < |specs| && specs[i] == s;
    assert Items(tool, fields)[i] == FixedItems(specs, fields)[i];
  }

  lemma KeyShown(tool: string, fields: map<string, Value>, k: string)
    requires k in fields && k !in UsedKeys(Specs(tool))
    ensures Detail(Caption(k), ValueText(fields, k), "text") in Items(tool, fields)
  {
    hide Specs, ValueText, UsedKeys, OtherKeys;
    var keys, n := OtherKeys(tool, fields), |Specs(tool)|;
    OtherKeysAre(tool, fields);
    var i :| 0 <= i < |keys| && keys[i] == k;
    assert Items(tool, fields)[n + i] == KeyItems(keys, fields)[i];
  }

  lemma OtherKeysAre(tool: string, fields: map<string, Value>)
    ensures forall k :: k in OtherKeys(tool, fields) <==> k in fields && k !in UsedKeys(Specs(tool))
  {
    hide Specs, UsedKeys, Order.Sorted, Order.Distinct;
  }

  /** Nothing else is shown. */
  lemma ShownFrom(tool: string, fields: map<string, Value>, d: Detail)
    requires d in Items(tool, fields)
    ensures || (exists s :: s in Specs(tool) && d == Detail(s.caption, ValueText(fields, s.key), s.kind))
            || (exists k :: k in fields && k !in UsedKeys(Specs(tool)) && d == Detail(Caption(k), ValueText(fields, k), "text"))
  {
    hide Specs, ValueText, UsedKeys, OtherKeys;
    var specs, keys := Specs(tool), OtherKeys(tool, fields);
    OtherKeysAre(tool, fields);
    var fixed, others := FixedItems(specs, fields), KeyItems(keys, fields);
    if d in fixed {
      var i :| 0 <= i < |specs| && fixed[i] == d;
      assert specs[i] in specs;
    } else {
      assert d in others;
      var i :| 0 <= i < |keys| && others[i] == d;
      assert keys[i] in keys;
    }
  }

  ghost predicate Row(d: Detail, caption: string, kind: string, fields: map<string, Value>, key: string) {
    d.caption == caption && d.kind == kind && TellsKey(d.text, fields, key)
  }

  /** The details begin with those of the known tools. */
  ghost predicate FixedFirst(tool: string, fields: map<string, Value>, ds: seq<Detail>) {
    match tool
    case "Bash" => |ds| >= 1 && Row(ds[0], "command", "command", fields, "command")
    case "Write" =>
      |ds| >= 2 && Row(ds[0], "path", "path", fields, "file_path") && Row(ds[1], "content", "text", fields, "content")
    case "Edit" =>
      && |ds| >= 3 && Row(ds[0], "path", "path", fields, "file_path")
      && Row(ds[1], "old_string", "text", fields, "old_string") && Row(ds[2], "new_string", "text", fields, "new_string")
    case "Read" => |ds| >= 1 && Row(ds[0], "path", "path", fields, "file_path")
    case "WebFetch" => |ds| >= 2 && Row(ds[0], "url", "url", fields, "url") && Row(ds[1], "prompt", "text", fields, "prompt")
    case _ => true
  }

  /** The other keys follow, in their order, one detail each. */
  ghost predicate OthersAfter(tool: string, fields: map<string, Value>, ds: seq<Detail>, keys: seq<string>) {
    var n := |FixedKeys(tool)|;
    && Order.Lists(keys, fields.Keys - FixedKeys(tool)) && |ds| == n + |keys|
    && forall i :: 0 <= i < |keys| ==>
         Row(ds[n + i], NamedOr(keys[i]), "text", fields, keys[i])
  }

  /** The caption of a key: itself, and for the empty one the words for an empty key. */
  function NamedOr(key: string): string { if key == "" then "(\U{7a7a}\U{306e}\U{30ad}\U{30fc})" else key }

  function ShownUnder(tool: string, key: string): string {
    if tool in {"Write", "Edit", "Read"} && key == "file_path" then "path" else NamedOr(key)
  }

  lemma FixedAreFirst(tool: string, fields: map<string, Value>)
    ensures FixedFirst(tool, fields, Items(tool, fields))
  {
    hide ValueText, Parse, TellsKey, OtherKeys;
    var specs, items := Specs(tool), Items(tool, fields);
    forall i | 0 <= i < |specs|
      ensures Row(items[i], specs[i].caption, specs[i].kind, fields, specs[i].key)
    {
      ValueTells(fields, specs[i].key);
      assert items[i] == FixedItems(specs, fields)[i];
    }
  }

  lemma OthersAreAfter(tool: string, fields: map<string, Value>)
    ensures OthersAfter(tool, fields, Items(tool, fields), OtherKeys(tool, fields))
  {
    hide Specs, Items, FixedKeys, UsedKeys, OtherKeys, Row, Order.Lists, NamedOr;
    UsedAre(tool);
    OthersListed(tool, fields);
    ItemCount(tool, fields);
    var keys := OtherKeys(tool, fields);
    Order.ListsCount(keys, fields.Keys - FixedKeys(tool));
    forall i | 0 <= i < |keys|
      ensures Row(Items(tool, fields)[|FixedKeys(tool)| + i], NamedOr(keys[i]), "text", fields, keys[i])
    {
      KeyRow(tool, fields, i);
    }
  }

  lemma OthersListed(tool: string, fields: map<string, Value>)
    ensures Order.Lists(OtherKeys(tool, fields), fields.Keys - UsedKeys(Specs(tool)))
  {
  }

  lemma KeyRow(tool: string, fields: map<string, Value>, i: nat)
    requires i < |OtherKeys(tool, fields)|
    ensures var key, n := OtherKeys(tool, fields)[i], |Specs(tool)|;
      n + i < |Items(tool, fields)| && Row(Items(tool, fields)[n + i], NamedOr(key), "text", fields, key)
  {
    hide Specs, OtherKeys, ValueText, TellsKey;
    var keys := OtherKeys(tool, fields);
    assert Items(tool, fields)[|Specs(tool)| + i] == KeyItems(keys, fields)[i];
    ValueTells(fields, keys[i]);
  }

  /**
    While the flag is down the details are those of the known tool and then those of the other keys in
    order, each with its whole value, and so every key of the input is shown under its caption.
   */
  lemma NothingHidden(id: string, callId: string, tool: string, input: Value, title: string)
    requires !Permission(id, callId, tool, input, title).detailsTruncated
    ensures var fields, ds := FieldsOf(input), Permission(id, callId, tool, input, title).details;
      && FixedFirst(tool, fields, ds)
      && (exists keys :: OthersAfter(tool, fields, ds, keys))
      && forall k :: k in fields ==>
           exists d :: d in ds && Tells(d.text, fields[k]) && d.caption == ShownUnder(tool, k)
  {
    hide Specs, ValueText, Items, Summary, Fits, Shown, FixedFirst, OthersAfter, Tells;
    var fields := FieldsOf(input);
    ShownWhole(Items(tool, fields));
    FixedAreFirst(tool, fields);
    OthersAreAfter(tool, fields);
    forall k | k in fields
      ensures exists d :: d in Items(tool, fields) && Tells(d.text, fields[k]) && d.caption == ShownUnder(tool, k)
    {
      KeyIsShown(tool, fields, Items(tool, fields), OtherKeys(tool, fields), k);
    }
  }

  lemma KeyIsShown(tool: string, fields: map<string, Value>, ds: seq<Detail>, keys: seq<string>, k: string)
    requires k in fields && FixedFirst(tool, fields, ds) && OthersAfter(tool, fields, ds, keys)
    ensures exists d :: d in ds && Tells(d.text, fields[k]) && d.caption == ShownUnder(tool, k)
  {
    hide Tells;
    if k in FixedKeys(tool) {
      assert forall i :: 0 <= i < |ds| ==> ds[i] in ds;
    } else {
      assert k in keys;
      var i :| 0 <= i < |keys| && keys[i] == k;
      assert ds[|FixedKeys(tool)| + i] in ds;
    }
  }

  /** The characters that a value takes when it is shown. */
  function Length(v: Value): nat { if v.Str? then |v.s| else |Compact(v)| }

  /**
    The flag is up exactly when the fixed keys and those of the input are too many, a value is too
    long, or a key is that becomes a caption.
   */
  lemma CutIff(id: string, callId: string, tool: string, input: Value, title: string)
    ensures var fields := FieldsOf(input);
      Permission(id, callId, tool, input, title).detailsTruncated <==>
        || |FixedKeys(tool) + fields.Keys| > 16
        || (exists k :: k in fields && Length(fields[k]) > 4000)
        || (exists k :: k in fields && k !in FixedKeys(tool) && |k| > 64)
  {
    hide Specs, Items, Summary, Shown, UsedKeys, Compact, FixedKeys;
    var fields := FieldsOf(input);
    var specs, all := Specs(tool), Items(tool, fields);
    UsedAre(tool);
    ItemCount(tool, fields);
    assert FixedKeys(tool) + fields.Keys == FixedKeys(tool) + (fields.Keys - FixedKeys(tool));
    if k :| k in fields && Length(fields[k]) > 4000 {
      if k in FixedKeys(tool) {
        SpecOf(tool, k);
        var s :| s in specs && s.key == k;
        FixedShown(tool, fields, s);
      } else {
        KeyShown(tool, fields, k);
      }
    }
    if k :| k in fields && k !in FixedKeys(tool) && |k| > 64 { KeyShown(tool, fields, k); }
    if d :| d in all && (|d.caption| > MAX_DETAIL_LABEL_LEN || |d.text| > MAX_DETAIL_TEXT_LEN) { ShownFrom(tool, fields, d); }
  }

  lemma SpecOf(tool: string, k: string)
    requires k in FixedKeys(tool)
    ensures exists s :: s in Specs(tool) && s.key == k
  {
    UsedAre(tool);
  }

  /** Everything else of the request, told from what the agent sent. */
  lemma RequestTells(id: string, callId: string, tool: string, input: Value, title: string)
    ensures var r, fields := Permission(id, callId, tool, input, title), FieldsOf(input);
      && r.requestId == id && r.callId == callId && r.toolName == tool && r.input == input && r.title == title
      && r.kind == (match tool
                    case "Read" => "read" case "Bash" => "execute" case "WebFetch" => "fetch"
                    case "Write" => "edit" case "Edit" => "edit" case "MultiEdit" => "edit" case "NotebookEdit" => "edit"
                    case "Grep" => "search" case "Glob" => "search" case "WebSearch" => "search"
                    case _ => "other")
      && exists t: string :: r.summary == SummaryLine(t, 200) &&
           match tool
           case "Bash" => MainValue(t, "Bash: ", fields, "command")
           case "Write" => MainValue(t, "Write: ", fields, "file_path")
           case "Edit" => MainValue(t, "Edit: ", fields, "file_path")
           case "Read" => MainValue(t, "Read: ", fields, "file_path")
           case "WebFetch" => MainValue(t, "WebFetch: ", fields, "url")
           case _ => t == tool
  {
    hide ValueText, TellsKey, Items, SummaryLine;
    var fields, key := FieldsOf(input), SummaryKey(tool);
    ValueTells(fields, key);
    var t := if key != "" then tool + ": " + ValueText(fields, key) else tool;
    assert Permission(id, callId, tool, input, title).summary == SummaryLine(t, 200);
    if key != "" { MainIs(tool + ": ", fields, key); }
    assert "Bash" + ": " == "Bash: " && "Write" + ": " == "Write: " && "Edit" + ": " == "Edit: ";
    assert "Read" + ": " == "Read: " && "WebFetch" + ": " == "WebFetch: ";
  }

  /** The text that stands after the tool's name in its summary. */
  ghost predicate MainValue(t: string, front: string, fields: map<string, Value>, key: string) {
    front <= t && TellsKey(t[|front|..], fields, key)
  }

  lemma MainIs(front: string, fields: map<string, Value>, key: string)
    ensures MainValue(front + ValueText(fields, key), front, fields, key)
  {
    hide ValueText, TellsKey;
    ValueTells(fields, key);
    assert (front + ValueText(fields, key))[|front|..] == ValueText(fields, key);
  }

  lemma ItemCount(tool: string, fields: map<string, Value>)
    ensures |Items(tool, fields)| == |Specs(tool)| + |fields.Keys - UsedKeys(Specs(tool))|
  {
    hide Specs, UsedKeys;
    Order.ListsCount(OtherKeys(tool, fields), fields.Keys - UsedKeys(Specs(tool)));
  }

  /** The request passes the protocol's own check exactly when the tool's name is not too long. */
  lemma ValidUnlessNameTooLong(id: string, callId: string, tool: string, input: Value, title: string)
    requires id != "" && tool != "" && input.Object?
    ensures Permission(id, callId, tool, input, title).Valid() <==> |tool| <= MAX_TOOL_NAME_LEN
  {
    hide Specs, ValueText, Items, Compact;
    var items := Items(tool, FieldsOf(input));
    forall d | d in items ensures |d.caption| > 0 {
      ShownFrom(tool, FieldsOf(input), d);
    }
    assert forall i :: 0 <= i < |items| ==> items[i] in items;
  }
}
