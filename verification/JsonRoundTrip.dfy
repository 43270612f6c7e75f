/** The canonical text of a value reads back as that value, so it names one value and no other. */
module JsonRoundTrip {
  import opened Wrappers
  import opened Names
  import opened Json

  // ---------------------------------------------------------------- strings

  lemma HexDigitRead(d: nat)
    requires d < 16
    ensures HexValue(HexDigit(d)) == Some(d)
  {
  }

  lemma Hex4Read(n: nat, t: string)
    requires n < 0x1_0000
    ensures |Hex4(n)| == 4 && ReadHex4(Hex4(n) + t) == Some(n)
  {
    hide HexValue, HexDigit;
    HexDigitRead(n / 0x1000);
    HexDigitRead(n / 0x100 % 16);
    HexDigitRead(n / 16 % 16);
    HexDigitRead(n % 16);
    var h := Hex4(n) + t;
    assert h[0] == HexDigit(n / 0x1000) && h[1] == HexDigit(n / 0x100 % 16);
    assert h[2] == HexDigit(n / 16 % 16) && h[3] == HexDigit(n % 16);
    Nibbles(n);
  }

  lemma Nibbles(n: nat)
    requires n < 0x1_0000
    ensures n == n / 0x1000 * 0x1000 + n / 0x100 % 16 * 0x100 + n / 16 % 16 * 16 + n % 16
  {
    assert n / 0x100 == n / 0x1000 * 16 + n / 0x100 % 16;
    assert n / 16 == n / 0x100 * 16 + n / 16 % 16;
  }

  /** What a reader makes of a string once its first character is `c`. */
  function Then(c: char, r: Option<(string, string)>): Option<(string, string)> {
    match r
    case None => None
    case Some(p) => Some(([c] + p.0, p.1))
  }

  lemma UnitRead(c: char, t: string)
    requires (c as int) < 0x1_0000
    ensures ReadString(Unit(c as int) + t) == Then(c, ReadString(t))
  {
    hide Hex4, ReadHex4;
    var v := c as int;
    Hex4Read(v, t);
    var x := Unit(v) + t;
    assert x[1..][1..] == Hex4(v) + t;
    assert x[1..][0] == 'u';
    assert ReadUnits(x[1..]) == Some((c, 5));
    assert x[1 + 5..] == t;
  }

  lemma PairRead(c: char, t: string)
    requires c as int >= 0x1_0000
    ensures ReadString(Escape(c) + t) == Then(c, ReadString(t))
  {
    hide Hex4, ReadHex4, Combine;
    var v := c as int - 0x1_0000;
    var high, low := 0xD800 + v / 0x400, 0xDC00 + v % 0x400;
    HalvesCombine(c, v);
    PairText(high, low, t);
    var x := Unit(high) + Unit(low) + t;
    assert Escape(c) + t == x;
    assert ReadUnits(x[1..]) == Some((c, 11));
    assert x[1..][11..] == t;
  }

  lemma HalvesCombine(c: char, v: nat)
    requires c as int == 0x1_0000 + v
    ensures v < 0x10_0000 && IsHigh(0xD800 + v / 0x400) && IsLow(0xDC00 + v % 0x400)
    ensures Combine(0xD800 + v / 0x400, 0xDC00 + v % 0x400) == c
  {
  }

  /** Where the parts of a surrogate pair's escape lie. */
  lemma PairText(high: nat, low: nat, t: string)
    requires IsHigh(high) && IsLow(low)
    ensures var x := (Unit(high) + Unit(low) + t)[1..];
      && |x| == 11 + |t| && (Unit(high) + Unit(low) + t)[0] == '\\' && x[0] == 'u' && x[5] == '\\' && x[6] == 'u'
      && ReadHex4(x[1..]) == Some(high) && ReadHex4(x[7..]) == Some(low)
  {
    hide Hex4, ReadHex4;
    var after := Unit(low) + t;
    Hex4Read(high, after);
    Hex4Read(low, t);
    var x := (Unit(high) + Unit(low) + t)[1..];
    assert x[1..] == Hex4(high) + after;
    assert x[7..] == Hex4(low) + t;
  }

  lemma SimpleRead(c: char, e: char, t: string)
    requires Escape(c) == ['\\', e] && ReadEscape([e] + t) == Some((c, 1))
    ensures ReadString(Escape(c) + t) == Then(c, ReadString(t))
  {
    hide Escape, ReadEscape;
    var x := Escape(c) + t;
    assert x[1..] == [e] + t;
    assert x[1 + 1..] == t;
  }

  /** The escape of a character reads back as that character. */
  lemma EscapeRead(c: char, t: string)
    ensures ReadString(Escape(c) + t) == Then(c, ReadString(t))
  {
    hide ReadString, Unit, ReadHex4;
    var v := c as int;
    if v == 0x22 { SimpleRead(c, '"', t); }
    else if v == 0x5C { SimpleRead(c, '\\', t); }
    else if v == 0x0A { SimpleRead(c, 'n', t); }
    else if v == 0x0D { SimpleRead(c, 'r', t); }
    else if v == 0x09 { SimpleRead(c, 't', t); }
    else if v == 0x08 { SimpleRead(c, 'b', t); }
    else if v == 0x0C { SimpleRead(c, 'f', t); }
    else if 0x20 <= v < 0x7F { PlainRead(c, t); }
    else if v < 0x1_0000 { UnitRead(c, t); }
    else { PairRead(c, t); }
  }

  lemma PlainRead(c: char, t: string)
    requires 0x20 <= c as int && c != '"' && c != '\\'
    ensures ReadString([c] + t) == Then(c, ReadString(t))
  {
    assert ([c] + t)[1..] == t;
  }

  lemma {:induction false} StringRead(s: string, rest: string)
    ensures ReadString(Escaped(s) + ['"'] + rest) == Some((s, rest))
  {
    hide Escape;
    if s == "" {
      assert Escaped(s) + ['"'] + rest == ['"'] + rest;
      assert (['"'] + rest)[1..] == rest;
    } else {
      StringRead(s[1..], rest);
      EscapeRead(s[0], Escaped(s[1..]) + ['"'] + rest);
      assert Escaped(s) + ['"'] + rest == Escape(s[0]) + (Escaped(s[1..]) + ['"'] + rest);
      assert [s[0]] + s[1..] == s;
    }
  }

  // ---------------------------------------------------------------- numbers

  predicate Delimited(rest: string) {
    rest == "" || !IsDigit(rest[0])
  }

  lemma DigitRead(d: nat)
    requires d < 10
    ensures IsDigit(Digit(d)) && (Digit(d) - '0') as nat == d && (d > 0 ==> Digit(d) != '0')
  {
  }

  lemma {:induction false} DigitsRead(n: nat, rest: string)
    ensures ReadDigits(Digits(n) + rest, 0) == ReadDigits(rest, n)
    ensures Digits(n) != "" && IsDigit(Digits(n)[0]) && (n > 0 ==> Digits(n)[0] != '0')
  {
    hide Digit, IsDigit;
    if n < 10 {
      DigitRead(n);
      assert ([Digit(n)] + rest)[1..] == rest;
    } else {
      var d := n % 10;
      var more := [Digit(d)] + rest;
      DigitsRead(n / 10, more);
      assert Digits(n) + rest == Digits(n / 10) + more;
      DigitRead(d);
      assert more[1..] == rest;
      assert n / 10 * 10 + d == n;
    }
  }

  lemma NatRead(n: nat, rest: string)
    requires Delimited(rest)
    ensures ReadNat(Digits(n) + rest) == Some((n, rest))
  {
    DigitsRead(n, rest);
    var t := Digits(n) + rest;
    if n == 0 {
      assert t[1..] == rest;
    } else {
      assert t[0] == Digits(n)[0];
      assert ReadDigits(t, 0) == ReadDigits(t[1..], (t[0] - '0') as nat);
    }
  }

  lemma IntRead(n: int, rest: string)
    requires Delimited(rest)
    ensures ReadInt(Decimal(n) + rest) == Some((Int(n), rest))
    ensures Decimal(n) != "" && (Decimal(n)[0] == '-' || IsDigit(Decimal(n)[0]))
  {
    hide Digits, ReadNat;
    if n < 0 { NegativeRead(n, rest); } else { PositiveRead(n, rest); }
  }

  lemma NegativeRead(n: int, rest: string)
    requires Delimited(rest) && n < 0
    ensures ReadInt(Decimal(n) + rest) == Some((Int(n), rest))
  {
    hide Digits, ReadNat;
    DigitsRead(-n, rest);
    NatRead(-n, rest);
    assert (Decimal(n) + rest)[1..] == Digits(-n) + rest;
  }

  lemma PositiveRead(n: nat, rest: string)
    requires Delimited(rest)
    ensures ReadInt(Decimal(n) + rest) == Some((Int(n), rest))
    ensures Decimal(n) != "" && IsDigit(Decimal(n)[0])
  {
    hide Digits, ReadNat;
    DigitsRead(n, rest);
    NatRead(n, rest);
    assert (Decimal(n) + rest)[0] == Digits(n)[0];
  }

  // ---------------------------------------------------------------- values

  /** Every object in `v` holds its keys in ascending order, as a sorted map does. */
  predicate Sorted(v: Value) {
    match v
    case Arr(items) => SortedItems(items)
    case Obj(fields) => SortedFields(fields)
    case _ => true
  }

  predicate SortedItems(items: Items) {
    match items
    case NoItems => true
    case Item(first, rest) => Sorted(first) && SortedItems(rest)
  }

  predicate SortedFields(fields: Fields) {
    match fields
    case NoFields => true
    case Field(key, value, rest) => Sorted(value) && SortedFields(rest) && (rest.Field? ==> Less(key, rest.key))
  }

  /** No value's text starts the way a closing bracket does. */
  lemma {:induction false} TextStarts(v: Value)
    ensures Text(v) != "" && Text(v)[0] != ']'
  {
    if v.Int? { IntRead(v.n, ""); }
  }

  lemma {:induction false} LiteralRead(v: Value, rest: string)
    requires v.Null? || v.Bool?
    ensures ReadValue(Text(v) + rest) == Some((v, rest))
  {
    var t := Text(v) + rest;
    assert t[|Text(v)|..] == rest && t[0] == Text(v)[0] && Text(v) <= t;
  }

  lemma NumberRead(n: int, rest: string)
    requires Delimited(rest)
    ensures ReadValue(Decimal(n) + rest) == Some((Int(n), rest))
  {
    hide ReadInt, Decimal;
    IntRead(n, rest);
    var t := Decimal(n) + rest;
    assert t[0] == Decimal(n)[0];
  }

  lemma StrRead(s: string, rest: string)
    ensures ReadValue(Quoted(s) + rest) == Some((Str(s), rest))
  {
    hide ReadString, Escaped;
    StringRead(s, rest);
    var t := Quoted(s) + rest;
    assert t[1..] == Escaped(s) + ['"'] + rest;
  }

  lemma {:induction false} ValueRead(v: Value, rest: string)
    requires Sorted(v) && Delimited(rest)
    ensures ReadValue(Text(v) + rest) == Some((v, rest))
    decreases v
  {
    hide ReadString, ReadInt, Decimal, Quoted, ReadValue;
    match v
    case Null => LiteralRead(v, rest);
    case Bool(_) => LiteralRead(v, rest);
    case Int(n) => NumberRead(n, rest);
    case Str(s) => StrRead(s, rest);
    case Arr(items) =>
      if items == NoItems {
        EmptyRead(v, rest);
      } else {
        ItemsRead(items, rest);
        ArrayRead(items, rest);
      }
    case Obj(fields) =>
      if fields == NoFields {
        EmptyRead(v, rest);
      } else {
        FieldsRead(fields, rest);
        ObjectRead(fields, rest);
      }
  }

  lemma {:induction false} EmptyRead(v: Value, rest: string)
    requires v == Arr(NoItems) || v == Obj(NoFields)
    ensures ReadValue(Text(v) + rest) == Some((v, rest))
  {
    var t := Text(v) + rest;
    assert t[2..] == rest;
  }

  lemma {:induction false} ArrayRead(items: Items, rest: string)
    requires items.Item? && ReadItems(ItemsText(items) + [']'] + rest) == Some((items, rest))
    ensures ReadValue(Text(Arr(items)) + rest) == Some((Arr(items), rest))
  {
    hide ReadItems, ReadInt, ReadString;
    var t := Text(Arr(items)) + rest;
    TextStarts(items.first);
    assert t[1..] == ItemsText(items) + [']'] + rest;
    assert t[1] == Text(items.first)[0];
  }

  lemma {:induction false} ObjectRead(fields: Fields, rest: string)
    requires fields.Field? && ReadFields(FieldsText(fields) + ['}'] + rest) == Some((fields, rest))
    ensures ReadValue(Text(Obj(fields)) + rest) == Some((Obj(fields), rest))
  {
    hide ReadFields, ReadInt, ReadString;
    var t := Text(Obj(fields)) + rest;
    assert t[1..] == FieldsText(fields) + ['}'] + rest;
    assert t[1] == '"';
  }

  lemma {:induction false} ItemsRead(items: Items, rest: string)
    requires SortedItems(items) && items.Item?
    ensures ReadItems(ItemsText(items) + [']'] + rest) == Some((items, rest))
    decreases items
  {
    hide ReadValue, Text;
    if items.rest == NoItems {
      var tail := [']'] + rest;
      ValueRead(items.first, tail);
      assert ItemsText(items) + [']'] + rest == Text(items.first) + tail;
      assert tail[1..] == rest;
    } else {
      var tail := [','] + (ItemsText(items.rest) + [']'] + rest);
      ItemsRead(items.rest, rest);
      ValueRead(items.first, tail);
      assert ItemsText(items) + [']'] + rest == Text(items.first) + tail;
      assert tail[1..] == ItemsText(items.rest) + [']'] + rest;
    }
  }

  lemma {:induction false} PutFirst(key: string, value: Value, fields: Fields)
    requires fields.Field? ==> Less(key, fields.key)
    ensures Put(key, value, fields) == Field(key, value, fields)
  {
    if fields.Field? { LessTrichotomy(key, fields.key); }
  }

  /** The text of one field, before what follows its value. */
  lemma KeyRead(key: string, after: string)
    ensures var t := Quoted(key) + [':'] + after;
      && t[0] == '"' && ReadString(t[1..]) == Some((key, [':'] + after)) && ([':'] + after)[1..] == after
  {
    hide ReadString, Escaped;
    StringRead(key, [':'] + after);
    var t := Quoted(key) + [':'] + after;
    assert t[1..] == Escaped(key) + ['"'] + ([':'] + after);
  }

  /** One field read, whatever follows its value. */
  lemma FieldRead(key: string, value: Value, tail: string)
    requires tail != "" && ReadValue(Text(value) + tail) == Some((value, tail))
    ensures var r := ReadFields(Quoted(key) + [':'] + (Text(value) + tail));
      && (tail[0] == '}' ==> r == Some((Field(key, value, NoFields), tail[1..])))
      && (tail[0] == ',' && ReadFields(tail[1..]).Some? ==>
        var after := ReadFields(tail[1..]).value;
        r == Some((Put(key, value, after.0), after.1)))
  {
    hide ReadValue, ReadString, Text, Quoted, Put;
    KeyRead(key, Text(value) + tail);
  }

  lemma {:induction false} FieldsRead(fields: Fields, rest: string)
    requires SortedFields(fields) && fields.Field?
    ensures ReadFields(FieldsText(fields) + ['}'] + rest) == Some((fields, rest))
    decreases fields
  {
    hide ReadFields, ReadValue, Text, Quoted, Put, Less;
    if fields.rest == NoFields {
      var tail := ['}'] + rest;
      ValueRead(fields.value, tail);
      FieldRead(fields.key, fields.value, tail);
      assert FieldsText(fields) + ['}'] + rest == Quoted(fields.key) + [':'] + (Text(fields.value) + tail);
      assert tail[1..] == rest;
    } else {
      var tail := [','] + (FieldsText(fields.rest) + ['}'] + rest);
      FieldsRead(fields.rest, rest);
      ValueRead(fields.value, tail);
      FieldRead(fields.key, fields.value, tail);
      PutFirst(fields.key, fields.value, fields.rest);
      assert FieldsText(fields) + ['}'] + rest == Quoted(fields.key) + [':'] + (Text(fields.value) + tail);
      assert tail[1..] == FieldsText(fields.rest) + ['}'] + rest;
    }
  }

  /** Reading undoes writing. */
  lemma {:induction false} ParseUndoesText(v: Value)
    requires Sorted(v)
    ensures Parse(Text(v)) == Some(v)
  {
    ValueRead(v, "");
    assert Text(v) + "" == Text(v);
  }

  /** Values with the same canonical bytes are the same value. */
  lemma {:induction false} TextIsInjective(v: Value, w: Value)
    requires Sorted(v) && Sorted(w) && Text(v) == Text(w)
    ensures v == w
  {
    ParseUndoesText(v);
    ParseUndoesText(w);
  }

  // ---------------------------------------------------------------- the bytes are plain

  predicate Plain(t: string) {
    forall i :: 0 <= i < |t| ==> 0x20 <= t[i] as int < 0x7F
  }

  lemma EscapePlain(c: char)
    ensures Plain(Escape(c))
  {
  }

  lemma {:induction false} EscapedPlain(s: string)
    ensures Plain(Escaped(s))
  {
    hide Escape;
    if s != "" {
      EscapePlain(s[0]);
      EscapedPlain(s[1..]);
    }
  }

  lemma {:induction false} DigitsPlain(n: nat)
    ensures Plain(Digits(n))
  {
    if n >= 10 { DigitsPlain(n / 10); }
  }

  lemma PlainJoin(a: string, b: string)
    requires Plain(a) && Plain(b)
    ensures Plain(a + b)
  {
  }

  lemma PlainAround(open: char, t: string, close: char)
    requires Plain([open]) && Plain(t) && Plain([close])
    ensures Plain([open] + t + [close])
  {
    PlainJoin([open], t);
    PlainJoin([open] + t, [close]);
  }

  lemma QuotedPlain(s: string)
    ensures Plain(Quoted(s))
  {
    EscapedPlain(s);
    PlainAround('"', Escaped(s), '"');
  }

  lemma DecimalPlain(n: int)
    ensures Plain(Decimal(n))
  {
    DigitsPlain(if n < 0 then -n else n);
  }

  /** Canonical text is printable ASCII throughout: its characters are its bytes, in any encoding. */
  lemma {:induction false} TextPlain(v: Value)
    ensures Plain(Text(v))
    decreases v
  {
    hide Quoted, Decimal, ItemsText, FieldsText;
    match v
    case Int(n) => DecimalPlain(n);
    case Str(s) => QuotedPlain(s);
    case Arr(items) =>
      ItemsPlain(items);
      PlainAround('[', ItemsText(items), ']');
    case Obj(fields) =>
      FieldsPlain(fields);
      PlainAround('{', FieldsText(fields), '}');
    case _ =>
  }

  lemma {:induction false} ItemsPlain(items: Items)
    ensures Plain(ItemsText(items))
    decreases items
  {
    hide Text;
    match items
    case NoItems =>
    case Item(first, rest) =>
      TextPlain(first);
      ItemsPlain(rest);
      PlainJoin([','], ItemsText(rest));
  }

  lemma {:induction false} FieldsPlain(fields: Fields)
    ensures Plain(FieldsText(fields))
    decreases fields
  {
    hide Text, Quoted;
    match fields
    case NoFields =>
    case Field(key, value, rest) =>
      QuotedPlain(key);
      TextPlain(value);
      FieldsPlain(rest);
      PlainField(Quoted(key), Text(value));
      PlainJoin([','], FieldsText(rest));
  }

  lemma PlainField(key: string, value: string)
    requires Plain(key) && Plain(value)
    ensures Plain(key + [':'] + value)
  {
    PlainJoin(key, [':']);
    PlainJoin(key + [':'], value);
  }
}
