/** The exact form of the canonical bytes: which of the many JSON texts of a recipe is the one hashed. */
module CanonicalForm {
  import opened Wrappers
  import opened Registry
  import opened Spec
  import opened Json
  import opened JsonRoundTrip
  import opened SpecJson

  // ---------------------------------------------------------------- characters

  /** Printable ASCII without upper-case letters. */
  predicate LowerCase(t: string) {
    Plain(t) && forall i :: 0 <= i < |t| ==> !('A' <= t[i] <= 'Z')
  }

  lemma {:induction false} DigitOfValue(c: char)
    requires HexValue(c).Some? && !('A' <= c <= 'Z')
    ensures HexValue(c).value < 16 && HexDigit(HexValue(c).value) == c
  {
  }

  lemma Hex4OfValue(t: string)
    requires |t| >= 4 && ReadHex4(t).Some? && LowerCase(t[..4])
    ensures Hex4(ReadHex4(t).value) == t[..4]
  {
    hide HexValue, HexDigit, Plain;
    assert forall i :: 0 <= i < 4 ==> t[..4][i] == t[i];
    DigitOfValue(t[0]);
    DigitOfValue(t[1]);
    DigitOfValue(t[2]);
    DigitOfValue(t[3]);
    DigitsOf(HexValue(t[0]).value, HexValue(t[1]).value, HexValue(t[2]).value, HexValue(t[3]).value);
  }

  lemma DigitsOf(a: nat, b: nat, c: nat, d: nat)
    requires a < 16 && b < 16 && c < 16 && d < 16
    ensures var n := a * 0x1000 + b * 0x100 + c * 16 + d;
      n / 0x1000 == a && n / 0x100 % 16 == b && n / 16 % 16 == c && n % 16 == d
  {
    var n := a * 0x1000 + b * 0x100 + c * 16 + d;
    LastDigit(a * 0x100 + b * 16 + c, d);
    LastDigit(a * 16 + b, c);
    LastDigit(a, b);
    assert n / 0x100 == n / 16 / 16 && n / 0x1000 == n / 16 / 16 / 16;
  }

  lemma LastDigit(m: nat, d: nat)
    requires d < 16
    ensures (m * 16 + d) / 16 == m && (m * 16 + d) % 16 == d
  {
  }

  /** How a character is written alone: `t` is a literal's inside that reads as just `c`. */
  predicate Spells(t: string, c: char) {
    ReadString(t + ['"']) == Some(([c], ""))
  }

  /** The escape is the shortest plain text that reads as the character, and, letters in lower case, the
      only one of that length. */
  lemma EscapeIsShortest(c: char, t: string)
    requires Plain(t) && Spells(t, c)
    ensures |Escape(c)| <= |t|
    ensures |t| == |Escape(c)| && LowerCase(t) ==> t == Escape(c)
  {
    hide Plain, Escape, ReadEscape;
    var x := t + ['"'];
    if t == "" {
      assert false;
    } else if t[0] == '\\' {
      EscapedSpelling(c, t);
    } else {
      PlainSpelling(c, t);
    }
  }

  lemma OnlyQuote(u: string)
    requires ReadString(u) == Some(("", ""))
    ensures u == ['"']
  {
    assert u != "" && u[0] == '"' && u[1..] == "";
  }

  lemma PlainSpelling(c: char, t: string)
    requires Plain(t) && Spells(t, c) && t != "" && t[0] != '\\'
    ensures t == [c] == Escape(c)
  {
    var x := t + ['"'];
    assert x[0] == t[0] && x[1..] == t[1..] + ['"'];
    if t[0] == '"' {
      assert false;
    } else {
      OnlyQuote(x[1..]);
      assert |t| == 1;
    }
  }

  lemma EscapedSpelling(c: char, t: string)
    requires Plain(t) && Spells(t, c) && t != "" && t[0] == '\\'
    ensures |Escape(c)| <= |t|
    ensures |t| == |Escape(c)| && LowerCase(t) ==> t == Escape(c)
  {
    hide ReadEscape, Escape, Plain;
    var x := t + ['"'];
    assert x[0] == t[0];
    var e := ReadEscape(x[1..]);
    var rest := ReadString(x[1 + e.value.1..]).value;
    assert ([e.value.0] + rest.0)[0] == [c][0] && |[e.value.0] + rest.0| == 1;
    OnlyQuote(x[1 + e.value.1..]);
    assert |t| == 1 + e.value.1;
    TakesExactly(c, t);
  }

  /** By what the escape is of: a letter, one unit, or a surrogate pair. */
  lemma TakesExactly(c: char, t: string)
    requires t != "" && t[0] == '\\' && ReadEscape((t + ['"'])[1..]) == Some((c, |t| - 1))
    ensures |Escape(c)| <= |t|
    ensures |t| == |Escape(c)| && LowerCase(t) ==> t == Escape(c)
  {
    hide ReadHex4, Hex4, Plain;
    var u := (t + ['"'])[1..];
    assert |t| >= 2 && u[0] == t[1];
    if t[1] != 'u' {
      assert |t| == 2 && t == [t[0], t[1]];
    } else {
      UnitSpelling(c, t, u);
    }
  }

  lemma UnitSpelling(c: char, t: string, u: string)
    requires |t| >= 2 && t[0] == '\\' && t[1] == 'u' && u == (t + ['"'])[1..]
    requires ReadUnits(u) == Some((c, |t| - 1))
    ensures |Escape(c)| <= |t|
    ensures |t| == |Escape(c)| && LowerCase(t) ==> t == Escape(c)
  {
    hide ReadHex4, Hex4;
    var high := ReadHex4(u[1..]).value;
    if |t| == 6 {
      assert c == high as char;
      assert |Escape(c)| <= 6;
      if |Escape(c)| == 6 && LowerCase(t) {
        assert u[1..][..4] == t[2..6];
        LowerPart(t, 2, 6);
        Hex4OfValue(u[1..]);
        assert t == ['\\', 'u'] + t[2..6];
      }
    } else {
      assert |t| == 12;
      PairSpelling(c, t, u);
    }
  }

  lemma LowerPart(t: string, a: nat, b: nat)
    requires LowerCase(t) && a <= b <= |t|
    ensures LowerCase(t[a..b])
  {
  }

  lemma PairSpelling(c: char, t: string, u: string)
    requires |t| == 12 && t[0] == '\\' && t[1] == 'u' && u == (t + ['"'])[1..]
    requires ReadUnits(u) == Some((c, 11))
    ensures |Escape(c)| <= 12
    ensures |Escape(c)| == 12 && LowerCase(t) ==> t == Escape(c)
  {
    hide ReadHex4, Hex4, LowerCase;
    var high, low := ReadHex4(u[1..]).value, ReadHex4(u[7..]).value;
    assert IsHigh(high) && IsLow(low) && c == Combine(high, low);
    if LowerCase(t) {
      assert u[1..][..4] == t[2..6] && u[7..][..4] == t[8..12];
      LowerPart(t, 2, 6);
      LowerPart(t, 8, 12);
      Hex4OfValue(u[1..]);
      Hex4OfValue(u[7..]);
      Halves(high, low);
      assert t[6] == u[5] && t[7] == u[6];
      assert t == ['\\', 'u'] + t[2..6] + ['\\', 'u'] + t[8..12];
    }
  }

  lemma Halves(high: nat, low: nat)
    requires IsHigh(high) && IsLow(low)
    ensures var v := Combine(high, low) as int;
      v >= 0x1_0000 && 0xD800 + (v - 0x1_0000) / 0x400 == high && 0xDC00 + (v - 0x1_0000) % 0x400 == low
  {
  }

  // ---------------------------------------------------------------- layout

  function Entry(key: string, text: string): string {
    Quoted(key) + ":" + text
  }

  function Comma(first: string, rest: string): string {
    first + ("," + rest)
  }

  lemma FourFields(a: string, b: string, c: string, d: string, u: Value, v: Value, w: Value, x: Value)
    ensures Text(Obj(Field(a, u, Field(b, v, Field(c, w, Field(d, x, NoFields)))))) == "{" +
      Comma(Entry(a, Text(u)), Comma(Entry(b, Text(v)), Comma(Entry(c, Text(w)), Entry(d, Text(x))))) + "}"
  {
    hide Text, FieldsText, Entry, Comma;
    var last := Field(d, x, NoFields);
    var third := Field(c, w, last);
    var second := Field(b, v, third);
    FieldLayout(d, x, NoFields);
    FieldLayout(c, w, last);
    FieldLayout(b, v, third);
    FieldLayout(a, u, second);
    BraceLayout(Field(a, u, second));
  }

  lemma FieldLayout(key: string, value: Value, rest: Fields)
    ensures FieldsText(Field(key, value, rest)) ==
      if rest == NoFields then Entry(key, Text(value)) else Comma(Entry(key, Text(value)), FieldsText(rest))
  {
    hide Quoted;
  }

  lemma BraceLayout(fields: Fields)
    ensures Text(Obj(fields)) == "{" + FieldsText(fields) + "}"
  {
  }

  /** The hashed bytes, piece by piece: four keys in order, and nothing between them but punctuation. */
  lemma BodyLayout(s: FeatureSpec)
    ensures CanonicalBody(s) == "{" +
      Comma(Entry("features", Text(Arr(DefValues(s.features)))),
      Comma(Entry("library_version", Decimal(s.libraryVersion)),
      Comma(Entry("spec", Quoted(s.name)), Entry("version", Decimal(s.version))))) + "}"
  {
    hide Quoted, Decimal, DefValues, ItemsText, FieldsText, Entry, Comma;
    FourFields("features", "library_version", "spec", "version",
      Arr(DefValues(s.features)), Int(s.libraryVersion), Str(s.name), Int(s.version));
  }

  /** One column's bytes: its inputs and parameters are written even when there are none. */
  lemma ColumnLayout(def: FeatureDef)
    ensures Text(DefValue(def)) == "{" +
      Comma(Entry("column", Quoted(def.column)),
      Comma(Entry("feature", Quoted(def.feature.Name())),
      Comma(Entry("inputs", Text(ObjectOf(NameValues(def.bindings)))),
        Entry("params", Text(ObjectOf(ParamValues(def.params))))))) + "}"
    ensures def.bindings == map[] ==> Text(ObjectOf(NameValues(def.bindings))) == "{}"
    ensures def.params == map[] ==> Text(ObjectOf(ParamValues(def.params))) == "{}"
  {
    hide Quoted, Transform.Name, FieldsText, Entry, Comma;
    FourFields("column", "feature", "inputs", "params",
      Str(def.column), Str(def.feature.Name()), ObjectOf(NameValues(def.bindings)), ObjectOf(ParamValues(def.params)));
    EmptyObject();
    if def.bindings == map[] { assert NameValues(def.bindings) == map[]; }
    if def.params == map[] { assert ParamValues(def.params) == map[]; }
  }

  lemma EmptyObject()
    ensures Text(ObjectOf(map[])) == "{}"
  {
  }
}
