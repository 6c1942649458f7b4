/**
  JSON values as the adapters see them, and the fields that they read leniently.

  Characters are Unicode code points, so `|s|` is the rune count of the source.
 */
module Json {

  predicate NumberChar(c: char) { '0' <= c <= '9' || c == '-' || c == '+' || c == '.' || c == 'e' || c == 'E' }

  /** The text of a number as it was sent. */
  type NumberText = s: string | s != "" && forall i :: 0 <= i < |s| ==> NumberChar(s[i]) witness "0"

  /** A JSON value. An object keeps its members in text order; on a repeated name the last wins. */
  datatype Value =
    | Null
    | Bool(b: bool)
    | Number(text: NumberText)
    | Str(s: string)
    | Array(items: seq<Value>)
    | Object(members: seq<Member>)

  datatype Member = Member(name: string, value: Value)

  /** A field read without ever failing: missing, present but unreadable (null included), or read. */
  datatype Field<T> = Absent | Unreadable | Read(value: T)

  /** The object as a map, which is how encoding/json fills a map. */
  function Fields(members: seq<Member>): map<string, Value> {
    if members == [] then map[]
    else
      var last := members[|members| - 1];
      Fields(members[..|members| - 1])[last.name := last.value]
  }

  function FieldsOf(v: Value): map<string, Value> {
    if v.Object? then Fields(v.members) else map[]
  }

  /** The zero value stands for a text that is missing or unreadable. */
  function Text(f: Field<string>): string {
    if f.Read? then f.value else ""
  }

  function ReadText(fields: map<string, Value>, name: string): Field<string> {
    if name !in fields then Absent
    else if fields[name].Str? then Read(fields[name].s)
    else Unreadable
  }

  /** An element of an array of texts: null leaves the empty text. */
  predicate Textual(v: Value) { v.Str? || v.Null? }

  function TextOf(v: Value): string { if v.Str? then v.s else "" }

  function ReadTexts(fields: map<string, Value>, name: string): Field<seq<string>> {
    if name !in fields then Absent
    else if fields[name].Array? && forall v :: v in fields[name].items ==> Textual(v) then
      var items := fields[name].items;
      Read(seq(|items|, i requires 0 <= i < |items| => TextOf(items[i])))
    else Unreadable
  }

  /** Bytes of the UTF-8 form of one code point. */
  function RuneLen(c: char): nat {
    if c <= '\U{7f}' then 1 else if c <= '\U{7ff}' then 2 else if c <= '\U{ffff}' then 3 else 4
  }

  function ByteLen(s: string): nat {
    if s == [] then 0 else RuneLen(s[0]) + ByteLen(s[1..])
  }
}
