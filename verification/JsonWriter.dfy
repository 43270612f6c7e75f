/** The canonical writer as it runs: appending to a string it was lent. */
module JsonWriter {
  import opened Json

  class Buffer {
    var text: string

    constructor ()
      ensures text == ""
    {
      text := "";
    }

    method Push(s: string)
      modifies this
      ensures text == old(text) + s
    {
      text := text + s;
    }
  }

  /** The code units of a character in UTF-16. */
  method EncodeUtf16(c: char) returns (units: seq<nat>)
    ensures forall k :: 0 <= k < |units| ==> units[k] < 0x1_0000
    ensures c as int < 0x1_0000 ==> units == [c as int]
    ensures c as int >= 0x1_0000 ==>
      units == [0xD800 + (c as int - 0x1_0000) / 0x400, 0xDC00 + (c as int - 0x1_0000) % 0x400]
  {
    var v := c as int;
    if v < 0x1_0000 { return [v]; }
    var above := v - 0x1_0000;
    return [0xD800 + above / 0x400, 0xDC00 + above % 0x400];
  }

  method WriteChar(c: char, out: Buffer)
    modifies out
    ensures out.text == old(out.text) + Escape(c)
  {
    var v := c as int;
    if v == 0x22 { out.Push("\\\""); }
    else if v == 0x5C { out.Push("\\\\"); }
    else if v == 0x0A { out.Push("\\n"); }
    else if v == 0x0D { out.Push("\\r"); }
    else if v == 0x09 { out.Push("\\t"); }
    else if v == 0x08 { out.Push("\\b"); }
    else if v == 0x0C { out.Push("\\f"); }
    else if v < 0x20 { out.Push(Unit(v)); }
    else if v < 0x7F { out.Push([c]); }
    else { WriteUnits(c, out); }
  }

  method WriteUnits(c: char, out: Buffer)
    requires c as int >= 0x7F
    modifies out
    ensures out.text == old(out.text) + Escape(c)
  {
    hide Hex4;
    var units := EncodeUtf16(c);
    out.Push(Unit(units[0]));
    if |units| > 1 { out.Push(Unit(units[1])); }
  }

  lemma EscapedAppend(s: string, k: nat)
    requires k < |s|
    ensures Escaped(s[..k + 1]) == Escaped(s[..k]) + Escape(s[k])
  {
    hide Escape;
    if k == 0 {
      assert s[..1] == [s[0]];
      assert s[..1][1..] == "";
    } else {
      EscapedAppend(s[1..], k - 1);
      assert s[..k + 1][1..] == s[1..][..k] && s[..k][1..] == s[1..][..k - 1];
    }
  }

  method WriteJsonString(s: string, out: Buffer)
    modifies out
    ensures out.text == old(out.text) + Quoted(s)
  {
    hide Escape;
    out.Push("\"");
    for k := 0 to |s|
      invariant out.text == old(out.text) + "\"" + Escaped(s[..k])
    {
      EscapedAppend(s, k);
      WriteChar(s[k], out);
    }
    assert s[..|s|] == s;
    out.Push("\"");
  }

  /** What is still to be written of a list after its first `i` items. */
  function ItemsLeft(i: nat, rest: Items): string {
    if rest == NoItems then "" else (if i > 0 then [','] else "") + ItemsText(rest)
  }

  function FieldsLeft(i: nat, rest: Fields): string {
    if rest == NoFields then "" else (if i > 0 then [','] else "") + FieldsText(rest)
  }

  lemma {:induction false} ItemsEnds(items: Items)
    ensures ItemsLeft(0, items) == ItemsText(items) && forall i :: ItemsLeft(i, NoItems) == ""
  {
  }

  lemma {:induction false} FieldsEnds(fields: Fields)
    ensures FieldsLeft(0, fields) == FieldsText(fields) && forall i :: FieldsLeft(i, NoFields) == ""
  {
  }

  lemma {:induction false} ItemsStep(before: string, comma: string, i: nat, rest: Items)
    requires rest.Item? && comma == if i > 0 then "," else ""
    ensures before + comma + Text(rest.first) + ItemsLeft(i + 1, rest.rest) == before + ItemsLeft(i, rest)
  {
    hide Text;
    var left := ItemsLeft(i + 1, rest.rest);
    assert ItemsLeft(i, rest) == comma + (Text(rest.first) + left);
    Regroup(before, comma, Text(rest.first), left);
  }

  lemma Regroup(a: string, b: string, c: string, d: string)
    ensures a + b + c + d == a + (b + (c + d))
  {
  }

  lemma {:induction false} FieldsStep(before: string, comma: string, i: nat, rest: Fields)
    requires rest.Field? && comma == if i > 0 then "," else ""
    ensures before + comma + Quoted(rest.key) + ":" + Text(rest.value) + FieldsLeft(i + 1, rest.rest)
      == before + FieldsLeft(i, rest)
  {
    hide Text, Quoted;
    var left := FieldsLeft(i + 1, rest.rest);
    var key := Quoted(rest.key) + [':'];
    assert FieldsLeft(i, rest) == comma + (key + Text(rest.value) + left);
    assert key + Text(rest.value) + left == key + (Text(rest.value) + left);
    assert before + comma + Quoted(rest.key) + ":" == before + comma + key;
    Regroup(before, comma, key, Text(rest.value) + left);
    Regroup(before + comma, key, Text(rest.value), left);
  }

  method WriteCanonical(value: Value, out: Buffer)
    modifies out
    ensures out.text == old(out.text) + Text(value)
    decreases value, 1
  {
    match value
    case Null => out.Push("null");
    case Bool(b) => out.Push(if b then "true" else "false");
    case Int(n) => out.Push(Decimal(n));
    case Str(s) => WriteJsonString(s, out);
    case Arr(items) => WriteItems(value, out);
    case Obj(fields) => WriteFields(value, out);
  }

  method WriteItems(value: Value, out: Buffer)
    requires value.Arr?
    modifies out
    ensures out.text == old(out.text) + Text(value)
    decreases value, 0
  {
    hide ItemsText, ItemsLeft;
    ItemsEnds(value.items);
    out.Push("[");
    var i, rest := 0, value.items;
    while rest != NoItems
      invariant rest == value.items || rest < value.items
      invariant out.text + ItemsLeft(i, rest) == old(out.text) + "[" + ItemsText(value.items)
      decreases rest
    {
      ghost var before := out.text;
      var comma := if i > 0 then "," else "";
      out.Push(comma);
      WriteCanonical(rest.first, out);
      ItemsStep(before, comma, i, rest);
      i, rest := i + 1, rest.rest;
    }
    assert ItemsLeft(i, NoItems) == "" && out.text + "" == out.text;
    out.Push("]");
    assert out.text == old(out.text) + ("[" + ItemsText(value.items) + "]");
  }

  method WriteFields(value: Value, out: Buffer)
    requires value.Obj?
    modifies out
    ensures out.text == old(out.text) + Text(value)
    decreases value, 0
  {
    hide FieldsText, FieldsLeft, Quoted;
    FieldsEnds(value.fields);
    out.Push("{");
    var i, rest := 0, value.fields;
    while rest != NoFields
      invariant rest == value.fields || rest < value.fields
      invariant out.text + FieldsLeft(i, rest) == old(out.text) + "{" + FieldsText(value.fields)
      decreases rest
    {
      ghost var before := out.text;
      var comma := if i > 0 then "," else "";
      out.Push(comma);
      WriteJsonString(rest.key, out);
      out.Push(":");
      WriteCanonical(rest.value, out);
      FieldsStep(before, comma, i, rest);
      i, rest := i + 1, rest.rest;
    }
    assert FieldsLeft(i, NoFields) == "" && out.text + "" == out.text;
    out.Push("}");
    assert out.text == old(out.text) + ("{" + FieldsText(value.fields) + "}");
  }

  method CanonicalJson(value: Value) returns (text: string)
    ensures text == Text(value)
  {
    var out := new Buffer();
    WriteCanonical(value, out);
    text := out.text;
  }
}
