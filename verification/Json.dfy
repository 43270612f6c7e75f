/** Canonical JSON: the writer whose bytes identify a recipe, and a reader by RFC 8259 that undoes it.

    The writer is `json.dumps(value, sort_keys=True, separators=(",", ":"))`: compact, keys in the
    order of the sorted map that holds them, everything outside printable ASCII escaped.
 */
module Json {
  import opened Wrappers
  import opened Names

  datatype Value =
    | Null
    | Bool(b: bool)
    | Int(n: int)
    | Str(s: string)
    | Arr(items: Items)
    | Obj(fields: Fields)

  datatype Items = NoItems | Item(first: Value, rest: Items)

  /** An object as its sorted map iterates: keys ascending. */
  datatype Fields = NoFields | Field(key: string, value: Value, rest: Fields)

  // ---------------------------------------------------------------- strings

  function HexDigit(d: nat): char
    requires d < 16
  {
    if d < 10 then '0' + d as char else 'a' + (d - 10) as char
  }

  /** Four lower-case hex digits. */
  function Hex4(n: nat): (r: string)
    requires n < 0x1_0000
    ensures |r| == 4
  {
    [HexDigit(n / 0x1000), HexDigit(n / 0x100 % 16), HexDigit(n / 16 % 16), HexDigit(n % 16)]
  }

  function Unit(n: nat): string
    requires n < 0x1_0000
  {
    ['\\', 'u'] + Hex4(n)
  }

  /** The escape of one character; above the basic plane, a surrogate pair. */
  function Escape(c: char): string {
    var v := c as int;
    if v == 0x22 then ['\\', '"']
    else if v == 0x5C then ['\\', '\\']
    else if v == 0x0A then ['\\', 'n']
    else if v == 0x0D then ['\\', 'r']
    else if v == 0x09 then ['\\', 't']
    else if v == 0x08 then ['\\', 'b']
    else if v == 0x0C then ['\\', 'f']
    else if 0x20 <= v < 0x7F then [c]
    else if v < 0x1_0000 then Unit(v)
    else Unit(0xD800 + (v - 0x1_0000) / 0x400) + Unit(0xDC00 + (v - 0x1_0000) % 0x400)
  }

  function Escaped(s: string): string {
    if s == "" then "" else Escape(s[0]) + Escaped(s[1..])
  }

  function Quoted(s: string): string {
    ['"'] + Escaped(s) + ['"']
  }

  function HexValue(c: char): Option<nat> {
    var v := c as int;
    if 0x30 <= v <= 0x39 then Some(v - 0x30)
    else if 0x61 <= v <= 0x66 then Some(v - 0x61 + 10)
    else if 0x41 <= v <= 0x46 then Some(v - 0x41 + 10)
    else None
  }

  /** Four hex digits at the front of `t`. */
  function ReadHex4(t: string): (r: Option<nat>)
    ensures r.Some? ==> |t| >= 4 && r.value < 0x1_0000
  {
    if |t| < 4 then None
    else
      match (HexValue(t[0]), HexValue(t[1]), HexValue(t[2]), HexValue(t[3]))
      case (Some(a), Some(b), Some(c), Some(d)) =>
        if a < 16 && b < 16 && c < 16 && d < 16 then Some(a * 0x1000 + b * 0x100 + c * 16 + d) else None
      case _ => None
  }

  predicate IsHigh(u: nat) { 0xD800 <= u < 0xDC00 }

  predicate IsLow(u: nat) { 0xDC00 <= u < 0xE000 }

  /** The character of an escape after its backslash, and how much of `t` it took. */
  function ReadEscape(t: string): (r: Option<(char, nat)>)
    ensures r.Some? ==> 1 <= r.value.1 <= |t|
  {
    if t == "" then None
    else
      var e := t[0] as int;
      if e == 0x22 then Some(('"', 1))
      else if e == 0x5C then Some(('\\', 1))
      else if e == 0x2F then Some(('/', 1))
      else if e == 0x6E then Some((0x0A as char, 1))
      else if e == 0x72 then Some((0x0D as char, 1))
      else if e == 0x74 then Some((0x09 as char, 1))
      else if e == 0x62 then Some((0x08 as char, 1))
      else if e == 0x66 then Some((0x0C as char, 1))
      else if e == 0x75 then ReadUnits(t)
      else None
  }

  /** `uXXXX`, or a surrogate pair `uXXXX\uXXXX`; half a pair is refused. */
  function ReadUnits(t: string): (r: Option<(char, nat)>)
    requires t != ""
    ensures r.Some? ==> 1 <= r.value.1 <= |t|
  {
    match ReadHex4(t[1..])
    case None => None
    case Some(u) =>
      if IsLow(u) then None
      else if IsHigh(u) then
        if |t| >= 11 && t[5] == '\\' && t[6] == 'u' then
          match ReadHex4(t[7..])
          case Some(w) => if IsLow(w) then Some((Combine(u, w), 11)) else None
          case None => None
        else None
      else Some((u as char, 5))
  }

  function Combine(high: nat, low: nat): char
    requires IsHigh(high) && IsLow(low)
  {
    (0x1_0000 + (high - 0xD800) * 0x400 + (low - 0xDC00)) as char
  }

  /** The rest of a string literal after its opening quote: what it says, and what follows it. */
  function ReadString(t: string): (r: Option<(string, string)>)
    ensures r.Some? ==> |r.value.1| < |t|
    decreases |t|
  {
    if t == "" then None
    else if t[0] == '"' then Some(("", t[1..]))
    else if t[0] == '\\' then
      match ReadEscape(t[1..])
      case None => None
      case Some(e) =>
        (match ReadString(t[1 + e.1..])
         case None => None
         case Some(r) => Some(([e.0] + r.0, r.1)))
    else if (t[0] as int) < 0x20 then None
    else
      match ReadString(t[1..])
      case None => None
      case Some(r) => Some(([t[0]] + r.0, r.1))
  }

  // ---------------------------------------------------------------- numbers

  function Digit(d: nat): char
    requires d < 10
  {
    '0' + d as char
  }

  function Digits(n: nat): string {
    if n < 10 then [Digit(n)] else Digits(n / 10) + [Digit(n % 10)]
  }

  function Decimal(n: int): string {
    if n < 0 then ['-'] + Digits(-n) else Digits(n)
  }

  predicate IsDigit(c: char) { '0' <= c <= '9' }

  /** Digits read on from a value already read. */
  function ReadDigits(t: string, n: nat): (r: (nat, string))
    ensures |r.1| <= |t|
    decreases |t|
  {
    if t != "" && IsDigit(t[0]) then ReadDigits(t[1..], n * 10 + (t[0] - '0') as nat) else (n, t)
  }

  /** An unsigned integer without leading zeros. */
  function ReadNat(t: string): (r: Option<(nat, string)>)
    ensures r.Some? ==> |r.value.1| < |t|
  {
    if t == "" || !IsDigit(t[0]) then None
    else if t[0] == '0' then Some((0, t[1..]))
    else Some(ReadDigits(t[1..], (t[0] - '0') as nat))
  }

  function ReadInt(t: string): (r: Option<(Value, string)>)
    ensures r.Some? ==> |r.value.1| < |t|
  {
    if t != "" && t[0] == '-' then
      match ReadNat(t[1..])
      case None => None
      case Some(r) => Some((Int(0 - r.0 as int), r.1))
    else
      match ReadNat(t)
      case None => None
      case Some(r) => Some((Int(r.0), r.1))
  }

  // ---------------------------------------------------------------- values

  function Text(v: Value): string {
    match v
    case Null => "null"
    case Bool(b) => if b then "true" else "false"
    case Int(n) => Decimal(n)
    case Str(s) => Quoted(s)
    case Arr(items) => ['['] + ItemsText(items) + [']']
    case Obj(fields) => ['{'] + FieldsText(fields) + ['}']
  }

  function ItemsText(items: Items): string {
    match items
    case NoItems => ""
    case Item(first, rest) => Text(first) + (if rest == NoItems then "" else [','] + ItemsText(rest))
  }

  function FieldsText(fields: Fields): string {
    match fields
    case NoFields => ""
    case Field(key, value, rest) =>
      Quoted(key) + [':'] + Text(value) + (if rest == NoFields then "" else [','] + FieldsText(rest))
  }

  /** Put a field read earlier in front of those read after it, in key order; a key read again wins. */
  function Put(key: string, value: Value, fields: Fields): Fields {
    match fields
    case NoFields => Field(key, value, NoFields)
    case Field(k, v, rest) =>
      if key == k then fields
      else if Less(key, k) then Field(key, value, fields)
      else Field(k, v, Put(key, value, rest))
  }

  function ReadValue(t: string): (r: Option<(Value, string)>)
    ensures r.Some? ==> |r.value.1| < |t|
    decreases |t|, 0
  {
    if t == "" then None
    else if t[0] == '"' then
      match ReadString(t[1..])
      case None => None
      case Some(r) => Some((Str(r.0), r.1))
    else if t[0] == '[' then
      if |t| >= 2 && t[1] == ']' then Some((Arr(NoItems), t[2..]))
      else
        match ReadItems(t[1..])
        case None => None
        case Some(r) => Some((Arr(r.0), r.1))
    else if t[0] == '{' then
      if |t| >= 2 && t[1] == '}' then Some((Obj(NoFields), t[2..]))
      else
        match ReadFields(t[1..])
        case None => None
        case Some(r) => Some((Obj(r.0), r.1))
    else if "null" <= t then Some((Null, t[4..]))
    else if "true" <= t then Some((Bool(true), t[4..]))
    else if "false" <= t then Some((Bool(false), t[5..]))
    else ReadInt(t)
  }

  /** At least one item, up to and past the closing bracket. */
  function ReadItems(t: string): (r: Option<(Items, string)>)
    ensures r.Some? ==> |r.value.1| < |t|
    decreases |t|, 1
  {
    match ReadValue(t)
    case None => None
    case Some(v) =>
      if v.1 == "" then None
      else if v.1[0] == ']' then Some((Item(v.0, NoItems), v.1[1..]))
      else if v.1[0] == ',' then
        match ReadItems(v.1[1..])
        case None => None
        case Some(r) => Some((Item(v.0, r.0), r.1))
      else None
  }

  function ReadFields(t: string): (r: Option<(Fields, string)>)
    ensures r.Some? ==> |r.value.1| < |t|
    decreases |t|, 1
  {
    if t == "" || t[0] != '"' then None
    else
      match ReadString(t[1..])
      case None => None
      case Some(k) =>
        if k.1 == "" || k.1[0] != ':' then None
        else
          match ReadValue(k.1[1..])
          case None => None
          case Some(v) =>
            if v.1 == "" then None
            else if v.1[0] == '}' then Some((Field(k.0, v.0, NoFields), v.1[1..]))
            else if v.1[0] == ',' then
              match ReadFields(v.1[1..])
              case None => None
              case Some(r) => Some((Put(k.0, v.0, r.0), r.1))
            else None
  }

  /** A whole text: one value and nothing after it. */
  function Parse(t: string): Option<Value> {
    match ReadValue(t)
    case Some(r) => if r.1 == "" then Some(r.0) else None
    case None => None
  }
}
