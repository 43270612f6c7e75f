/** Specs as canonical JSON: identity by bytes, and reading back what was written.

    The fingerprint is `hash` of the canonical body, for an arbitrary `hash`.
 */
module SpecJson {
  import opened Wrappers
  import opened Registry
  import opened Names
  import opened Spec
  import opened Json
  import opened JsonRoundTrip

  const FEATURES_VERSION: nat := 1

  // ---------------------------------------------------------------- sorted maps

  /** The keys of a sorted map, as it iterates. */
  ghost function SortedKeys(keys: set<string>): (r: seq<string>)
    ensures Ascending(r) && Elements(r) == keys
    decreases |keys|
  {
    if keys == {} then []
    else
      var k :| k in keys;
      Names.Insert(SortedKeys(keys - {k}), k)
  }

  /** The entries of `m` under the listed keys. */
  function FieldsOf(keys: seq<string>, m: map<string, Value>): Fields
    requires forall i :: 0 <= i < |keys| ==> keys[i] in m
  {
    if keys == [] then NoFields else Field(keys[0], m[keys[0]], FieldsOf(keys[1..], m))
  }

  ghost function ObjectOf(m: map<string, Value>): Value {
    var keys := SortedKeys(m.Keys);
    assert forall i :: 0 <= i < |keys| ==> keys[i] in Elements(keys);
    Obj(FieldsOf(keys, m))
  }

  function Get(fields: Fields, key: string): Option<Value> {
    match fields
    case NoFields => None
    case Field(k, v, rest) => if k == key then Some(v) else Get(rest, key)
  }

  function KeysOf(fields: Fields): set<string> {
    match fields
    case NoFields => {}
    case Field(k, _, rest) => {k} + KeysOf(rest)
  }

  /** Insertion into the sorted map. */
  function Insert(fields: Fields, key: string, value: Value): Fields {
    match fields
    case NoFields => Field(key, value, NoFields)
    case Field(k, v, rest) =>
      if key == k then Field(key, value, rest)
      else if Less(key, k) then Field(key, value, fields)
      else Field(k, v, Insert(rest, key, value))
  }

  // ---------------------------------------------------------------- writing

  function ParamValue(p: Param): Value {
    match p
    case BoolParam(b) => Bool(b)
    case IntParam(i) => Int(i)
    case StrParam(s) => Str(s)
  }

  function ParamValues(params: Params): map<string, Value> {
    map k | k in params :: ParamValue(params[k])
  }

  function NameValues(bindings: map<string, string>): map<string, Value> {
    map k | k in bindings :: Str(bindings[k])
  }

  ghost function DefValue(def: FeatureDef): Value {
    Obj(Field("column", Str(def.column),
        Field("feature", Str(def.feature.Name()),
        Field("inputs", ObjectOf(NameValues(def.bindings)),
        Field("params", ObjectOf(ParamValues(def.params)), NoFields)))))
  }

  ghost function DefValues(defs: seq<FeatureDef>): Items {
    if defs == [] then NoItems else Item(DefValue(defs[0]), DefValues(defs[1..]))
  }

  ghost function BodyFields(s: FeatureSpec): Fields {
    Field("features", Arr(DefValues(s.features)),
    Field("library_version", Int(s.libraryVersion),
    Field("spec", Str(s.name),
    Field("version", Int(s.version), NoFields))))
  }

  /** The bytes the fingerprint is taken over. */
  ghost function CanonicalBody(s: FeatureSpec): string {
    Text(Obj(BodyFields(s)))
  }

  /** The serialized spec: the body parsed again, with the fingerprint put in its place. `None` would be
      a body that does not parse. */
  ghost function CanonicalJson(hash: string -> string, s: FeatureSpec): Option<string> {
    var body := CanonicalBody(s);
    match Parse(body)
    case None => None
    case Some(Obj(fields)) => Some(Text(Obj(Insert(fields, "fingerprint", Str(hash(body))))))
    case Some(v) => Some(Text(v))
  }

  // ---------------------------------------------------------------- reading

  function StringField(fields: Fields, key: string): Result<string, FeatureError> {
    match Get(fields, key)
    case Some(Str(s)) => Ok(s)
    case _ => Err(SpecError)
  }

  /** A JSON integer that fits in 32 bits. */
  function U32Of(v: Value): Result<nat, FeatureError> {
    if v.Int? && 0 <= v.n < 0x1_0000_0000 then Ok(v.n) else Err(SpecError)
  }

  predicate IsI64(i: int) {
    -0x8000_0000_0000_0000 <= i < 0x8000_0000_0000_0000
  }

  function ParamOf(v: Value): Result<Param, FeatureError> {
    match v
    case Bool(b) => Ok(BoolParam(b))
    case Int(n) => if IsI64(n) then Ok(IntParam(n)) else Err(SpecError)
    case Str(s) => Ok(StrParam(s))
    case _ => Err(SpecError)
  }

  function ParamsOf(fields: Fields): Result<Params, FeatureError> {
    match fields
    case NoFields => Ok(map[])
    case Field(k, v, rest) =>
      var p :- ParamOf(v);
      var others :- ParamsOf(rest);
      Ok(map[k := p] + others)
  }

  function BindingsOf(fields: Fields): Result<map<string, string>, FeatureError> {
    match fields
    case NoFields => Ok(map[])
    case Field(k, v, rest) =>
      if !v.Str? then Err(SpecError)
      else
        var others :- BindingsOf(rest);
        Ok(map[k := v.s] + others)
  }

  /** An optional object member. */
  function SubObject(fields: Fields, key: string): Result<Fields, FeatureError> {
    match Get(fields, key)
    case None => Ok(NoFields)
    case Some(Obj(f)) => Ok(f)
    case Some(_) => Err(SpecError)
  }

  /** The transform registered under a name. */
  ghost function FeatureInfo(name: string): (r: Result<Transform, FeatureError>)
    ensures r.Ok? ==> r.value.Name() == name
    ensures r.Err? ==> r.error == UnknownFeature && forall t: Transform :: t.Name() != name
  {
    if t: Transform :| t.Name() == name then Ok(t) else Err(UnknownFeature)
  }

  /** `FeatureDef::new`. */
  ghost function NewDef(column: string, feature: string, params: Params, bindings: map<string, string>):
    (r: Result<FeatureDef, FeatureError>)
    ensures r.Ok? ==> r.value.Valid()
  {
    if IsBlank(column) then Err(SpecError)
    else
      var t :- FeatureInfo(feature);
      var def := FeatureDef(column, t, params, bindings);
      if def.Valid() then Ok(def) else Err(SpecError)
  }

  ghost function DefOf(v: Value): Result<FeatureDef, FeatureError> {
    if !v.Obj? || !(KeysOf(v.fields) <= {"column", "feature", "params", "inputs"}) then Err(SpecError)
    else
      var column :- StringField(v.fields, "column");
      var feature :- StringField(v.fields, "feature");
      var p :- SubObject(v.fields, "params");
      var params :- ParamsOf(p);
      var i :- SubObject(v.fields, "inputs");
      var bindings :- BindingsOf(i);
      NewDef(column, feature, params, bindings)
  }

  ghost function DefsOf(items: Items): Result<seq<FeatureDef>, FeatureError> {
    match items
    case NoItems => Ok([])
    case Item(first, rest) =>
      var def :- DefOf(first);
      var others :- DefsOf(rest);
      Ok([def] + others)
  }

  /** `FeatureSpec::new`. */
  ghost function NewSpec(name: string, version: nat, libraryVersion: nat, features: seq<FeatureDef>):
    Result<FeatureSpec, FeatureError>
  {
    if IsBlank(name) || version < 1 || features == [] || !DistinctColumns(features) then Err(SpecError)
    else Ok(FeatureSpec(name, version, libraryVersion, features))
  }

  /** A spec and the fingerprint recorded with it. */
  ghost function SpecOf(v: Value): Result<(FeatureSpec, Option<string>), FeatureError> {
    if !v.Obj? || !(KeysOf(v.fields) <= {"spec", "version", "library_version", "features", "fingerprint"})
       || !({"spec", "version", "features"} <= KeysOf(v.fields)) then Err(SpecError)
    else
      var name :- StringField(v.fields, "spec");
      var version :- FieldAsU32(v.fields, "version");
      var libraryVersion :- LibraryVersion(v.fields);
      var items :- FeatureItems(v.fields);
      var features :- DefsOf(items);
      var s :- NewSpec(name, version, libraryVersion, features);
      Ok((s, Recorded(v.fields)))
  }

  function FieldAsU32(fields: Fields, key: string): Result<nat, FeatureError> {
    match Get(fields, key)
    case None => Err(SpecError)
    case Some(v) => U32Of(v)
  }

  function LibraryVersion(fields: Fields): Result<nat, FeatureError> {
    if Get(fields, "library_version") == None then Ok(FEATURES_VERSION) else FieldAsU32(fields, "library_version")
  }

  function FeatureItems(fields: Fields): Result<Items, FeatureError> {
    match Get(fields, "features")
    case Some(Arr(items)) => Ok(items)
    case _ => Err(SpecError)
  }

  function Recorded(fields: Fields): Option<string> {
    match Get(fields, "fingerprint")
    case Some(Str(s)) => Some(s)
    case _ => None
  }

  ghost function ParseSpec(text: string): Result<(FeatureSpec, Option<string>), FeatureError> {
    match Parse(text)
    case None => Err(SpecError)
    case Some(v) => SpecOf(v)
  }

  /** The load path: both identity checks. */
  ghost function FromJson(hash: string -> string, text: string): Result<FeatureSpec, FeatureError> {
    var read :- ParseSpec(text);
    if read.1.Some? && read.1.value != hash(CanonicalBody(read.0)) then Err(Mismatch)
    else if read.0.libraryVersion != FEATURES_VERSION then Err(Mismatch)
    else Ok(read.0)
  }

  // ---------------------------------------------------------------- the registry's names

  /** Length, first two characters and last: enough to tell the registered names apart. */
  function Signature(name: string): (nat, char, char, char)
    requires |name| >= 2
  {
    (|name|, name[0], name[1], name[|name| - 1])
  }

  function SignatureOf(t: Transform): (nat, char, char, char) {
    match t
    case BookImbalance => (14, 'b', 'o', 'e')
    case CloseLocation => (14, 'c', 'l', 'n')
    case Ema => (3, 'e', 'm', 'a')
    case EmaCrossover => (13, 'e', 'm', 'r')
    case LogReturn => (10, 'l', 'o', 'n')
    case MidPrice => (9, 'm', 'i', 'e')
    case Momentum => (8, 'm', 'o', 'm')
    case RealizedVolatility => (19, 'r', 'e', 'y')
    case RelativeRange => (14, 'r', 'e', 'e')
    case RelativeSpread => (15, 'r', 'e', 'd')
    case RollingMean => (12, 'r', 'o', 'n')
    case RollingStd => (11, 'r', 'o', 'd')
    case RollingSum => (11, 'r', 'o', 'm')
    case RollingZscore => (14, 'r', 'o', 'e')
    case SmaCrossover => (13, 's', 'm', 'r')
    case Spread => (6, 's', 'p', 'd')
    case TradeFlowImbalance => (20, 't', 'r', 'e')
  }

  lemma NameSigned(t: Transform)
    ensures |t.Name()| >= 2 && Signature(t.Name()) == SignatureOf(t)
  {
  }

  lemma SignaturesDiffer(t: Transform, u: Transform)
    requires SignatureOf(t) == SignatureOf(u)
    ensures t == u
  {
  }

  /** No two transforms are registered under one name, so a spec's feature names mean one thing. */
  lemma NamesAreDistinct(t: Transform, u: Transform)
    requires t.Name() == u.Name()
    ensures t == u
  {
    hide Transform.Name, SignatureOf;
    NameSigned(t);
    NameSigned(u);
    SignaturesDiffer(t, u);
  }

  lemma FeatureInfoOf(t: Transform)
    ensures FeatureInfo(t.Name()) == Ok(t)
  {
    hide Transform.Name;
    var r := FeatureInfo(t.Name());
    if r.Ok? { NamesAreDistinct(t, r.value); }
  }

  // ---------------------------------------------------------------- a map written and read

  lemma AscendingTail(keys: seq<string>)
    requires Ascending(keys) && keys != []
    ensures Ascending(keys[1..]) && keys[0] !in keys[1..]
  {
    forall j | 1 <= j < |keys|
      ensures keys[j] != keys[0]
    {
      LessTrichotomy(keys[0], keys[j]);
    }
  }

  lemma {:induction false} FieldsOfSorted(keys: seq<string>, m: map<string, Value>)
    requires Ascending(keys) && forall i :: 0 <= i < |keys| ==> keys[i] in m && Sorted(m[keys[i]])
    ensures SortedFields(FieldsOf(keys, m))
  {
    if keys != [] {
      AscendingTail(keys);
      FieldsOfSorted(keys[1..], m);
    }
  }

  /** The entries under the listed keys. */
  function Only<V>(keys: seq<string>, m: map<string, V>): map<string, V> {
    map k | k in keys && k in m :: m[k]
  }

  lemma OnlyHead<V>(keys: seq<string>, m: map<string, V>)
    requires keys != [] && keys[0] in m
    ensures Only(keys, m) == map[keys[0] := m[keys[0]]] + Only(keys[1..], m)
  {
    assert forall k :: k in keys <==> k == keys[0] || k in keys[1..];
  }

  lemma OnlyAll<V>(keys: seq<string>, m: map<string, V>)
    requires forall k :: k in keys <==> k in m
    ensures Only(keys, m) == m
  {
  }

  lemma ParamRead(p: Param)
    requires p.IntParam? ==> IsI64(p.i)
    ensures ParamOf(ParamValue(p)) == Ok(p) && Sorted(ParamValue(p))
  {
  }

  lemma {:induction false} ParamsRead(keys: seq<string>, params: Params)
    requires Ascending(keys) && forall i :: 0 <= i < |keys| ==> keys[i] in params
    requires forall k :: k in params && params[k].IntParam? ==> IsI64(params[k].i)
    ensures ParamsOf(FieldsOf(keys, ParamValues(params))) == Ok(Only(keys, params))
    decreases |keys|
  {
    hide ParamOf, ParamValue, Ascending;
    if keys != [] {
      AscendingTail(keys);
      ParamsRead(keys[1..], params);
      ParamRead(params[keys[0]]);
      OnlyHead(keys, params);
    }
  }

  lemma {:induction false} BindingsRead(keys: seq<string>, bindings: map<string, string>)
    requires Ascending(keys) && forall i :: 0 <= i < |keys| ==> keys[i] in bindings
    ensures BindingsOf(FieldsOf(keys, NameValues(bindings))) == Ok(Only(keys, bindings))
    decreases |keys|
  {
    hide Ascending;
    if keys != [] {
      AscendingTail(keys);
      BindingsRead(keys[1..], bindings);
      OnlyHead(keys, bindings);
    }
  }

  lemma InKeys(keys: set<string>)
    ensures forall k :: k in SortedKeys(keys) <==> k in keys
  {
    forall k
      ensures k in SortedKeys(keys) <==> k in keys
    {
      assert k in Elements(SortedKeys(keys)) <==> k in keys;
    }
  }

  lemma ParamsRoundTrip(params: Params)
    requires forall k :: k in params && params[k].IntParam? ==> IsI64(params[k].i)
    ensures var v := ObjectOf(ParamValues(params));
      v.Obj? && Sorted(v) && ParamsOf(v.fields) == Ok(params)
  {
    var keys := SortedKeys(params.Keys);
    assert ParamValues(params).Keys == params.Keys;
    InKeys(params.Keys);
    ParamsRead(keys, params);
    FieldsOfSorted(keys, ParamValues(params));
    OnlyAll(keys, params);
  }

  lemma BindingsRoundTrip(bindings: map<string, string>)
    ensures var v := ObjectOf(NameValues(bindings));
      v.Obj? && Sorted(v) && BindingsOf(v.fields) == Ok(bindings)
  {
    var keys := SortedKeys(bindings.Keys);
    assert NameValues(bindings).Keys == bindings.Keys;
    InKeys(bindings.Keys);
    BindingsRead(keys, bindings);
    FieldsOfSorted(keys, NameValues(bindings));
    OnlyAll(keys, bindings);
  }

  // ---------------------------------------------------------------- a spec written and read

  /** Integer parameters are 64-bit. */
  predicate Representable(def: FeatureDef) {
    forall k :: k in def.params && def.params[k].IntParam? ==> IsI64(def.params[k].i)
  }

  predicate SpecRepresentable(s: FeatureSpec) {
    forall c :: 0 <= c < |s.features| ==> Representable(s.features[c])
  }

  lemma KeyOrder()
    ensures Less("column", "feature") && Less("feature", "inputs") && Less("inputs", "params")
    ensures Less("features", "fingerprint") && Less("fingerprint", "library_version")
    ensures Less("features", "library_version") && Less("library_version", "spec") && Less("spec", "version")
  {
    assert "features"[1..][0] == 'e' && "fingerprint"[1..][0] == 'i';
  }

  lemma KeysDiffer()
    ensures "column" != "feature" && "column" != "inputs" && "column" != "params"
    ensures "feature" != "inputs" && "feature" != "params" && "inputs" != "params"
  {
    assert "column"[0] == 'c' && "feature"[0] == 'f' && "inputs"[0] == 'i' && "params"[0] == 'p';
  }

  lemma SpecKeysDiffer()
    ensures "features" != "fingerprint" && "features" != "library_version"
      && "features" != "spec" && "features" != "version"
    ensures "fingerprint" != "library_version" && "fingerprint" != "spec" && "fingerprint" != "version"
    ensures "library_version" != "spec" && "library_version" != "version" && "spec" != "version"
  {
    assert "features"[0] == 'f' && "library_version"[0] == 'l' && "spec"[0] == 's' && "version"[0] == 'v';
    assert "features"[1] == 'e' && "fingerprint"[1] == 'i' && "fingerprint"[0] == 'f';
  }

  lemma DefRead(def: FeatureDef)
    requires def.Valid() && Representable(def)
    ensures Sorted(DefValue(def)) && DefOf(DefValue(def)) == Ok(def)
  {
    hide ObjectOf, ParamsOf, BindingsOf, ParamValues, NameValues, FeatureInfo, Transform.Name, Less;
    ParamsRoundTrip(def.params);
    BindingsRoundTrip(def.bindings);
    FeatureInfoOf(def.feature);
    DefSorted(def);
    DefFields(DefValue(def).fields, def);
  }

  lemma {:induction false} DefSorted(def: FeatureDef)
    requires Sorted(ObjectOf(NameValues(def.bindings))) && Sorted(ObjectOf(ParamValues(def.params)))
    ensures Sorted(DefValue(def))
  {
    hide ObjectOf, ParamValues, NameValues, Transform.Name, Less;
    KeyOrder();
    var fields := DefValue(def).fields;
    assert SortedFields(fields.rest.rest.rest);
    assert SortedFields(fields.rest.rest);
    assert SortedFields(fields.rest);
    assert SortedFields(fields);
  }

  /** The four members of a definition, looked up. */
  lemma {:induction false} DefFields(fields: Fields, def: FeatureDef)
    requires fields == DefValue(def).fields
    ensures Get(fields, "column") == Some(Str(def.column)) && Get(fields, "feature") == Some(Str(def.feature.Name()))
    ensures Get(fields, "inputs") == Some(ObjectOf(NameValues(def.bindings)))
    ensures Get(fields, "params") == Some(ObjectOf(ParamValues(def.params)))
    ensures KeysOf(fields) == {"column", "feature", "params", "inputs"}
  {
    hide ObjectOf, ParamValues, NameValues, Transform.Name;
    KeysDiffer();
    var inputs := fields.rest.rest;
    assert Get(fields, "inputs") == Get(fields.rest, "inputs") == Get(inputs, "inputs");
    assert Get(fields, "params") == Get(fields.rest, "params") == Get(inputs, "params") == Get(inputs.rest, "params");
    assert KeysOf(inputs.rest) == {"params"} && KeysOf(inputs) == {"inputs", "params"};
    assert KeysOf(fields.rest) == {"feature", "inputs", "params"};
  }

  lemma {:induction false} DefsRead(defs: seq<FeatureDef>)
    requires forall c :: 0 <= c < |defs| ==> defs[c].Valid() && Representable(defs[c])
    ensures SortedItems(DefValues(defs)) && DefsOf(DefValues(defs)) == Ok(defs)
  {
    hide DefValue, DefOf, FeatureDef.Valid, Representable, Sorted;
    if defs != [] {
      DefRead(defs[0]);
      DefsRead(defs[1..]);
      assert [defs[0]] + defs[1..] == defs;
    }
  }

  /** The body with a fingerprint in it. */
  ghost function FullFields(s: FeatureSpec, fingerprint: string): Fields {
    Field("features", Arr(DefValues(s.features)),
    Field("fingerprint", Str(fingerprint),
    Field("library_version", Int(s.libraryVersion),
    Field("spec", Str(s.name),
    Field("version", Int(s.version), NoFields)))))
  }

  lemma FingerprintLands(s: FeatureSpec, fingerprint: string)
    ensures Insert(BodyFields(s), "fingerprint", Str(fingerprint)) == FullFields(s, fingerprint)
  {
    hide DefValues, Less;
    KeyOrder();
    SpecKeysDiffer();
    LessTrichotomy("features", "fingerprint");
    var rest := BodyFields(s).rest;
    assert Insert(rest, "fingerprint", Str(fingerprint)) == Field("fingerprint", Str(fingerprint), rest);
  }

  lemma BodySorted(s: FeatureSpec, fingerprint: string)
    requires s.Valid() && SpecRepresentable(s)
    ensures Sorted(Obj(BodyFields(s))) && Sorted(Obj(FullFields(s, fingerprint)))
  {
    hide DefValues, Less;
    DefsRead(s.features);
    KeyOrder();
    var l := BodyFields(s).rest;
    assert SortedFields(l.rest.rest);
    assert SortedFields(l.rest);
    assert SortedFields(l);
    assert Sorted(Arr(DefValues(s.features)));
    assert SortedFields(BodyFields(s));
    assert SortedFields(FullFields(s, fingerprint).rest);
  }

  lemma TailFields(s: FeatureSpec, l: Fields)
    requires l == BodyFields(s).rest
    ensures Get(l, "library_version") == Some(Int(s.libraryVersion))
    ensures Get(l, "spec") == Some(Str(s.name)) && Get(l, "version") == Some(Int(s.version))
    ensures Get(l, "features") == None && Get(l, "fingerprint") == None
    ensures KeysOf(l) == {"library_version", "spec", "version"}
  {
    hide DefValues;
    SpecKeysDiffer();
    var n := l.rest;
    var v := n.rest;
    assert KeysOf(v) == {"version"} && KeysOf(n) == {"spec", "version"};
    assert Get(v, "features") == None && Get(v, "fingerprint") == None;
    assert Get(n, "features") == None && Get(n, "fingerprint") == None;
    assert Get(n, "version") == Get(v, "version") == Some(Int(s.version));
  }

  lemma BodyRead(s: FeatureSpec)
    requires s.Valid() && SpecRepresentable(s)
    ensures SpecOf(Obj(BodyFields(s))) == Ok((s, None))
  {
    hide DefValues, DefsOf;
    DefsRead(s.features);
    SpecKeysDiffer();
    var f := BodyFields(s);
    TailFields(s, f.rest);
    assert KeysOf(f) == {"features"} + KeysOf(f.rest);
    assert Get(f, "spec") == Get(f.rest, "spec") && Get(f, "version") == Get(f.rest, "version");
    assert Get(f, "library_version") == Get(f.rest, "library_version")
      && Get(f, "fingerprint") == Get(f.rest, "fingerprint");
  }

  lemma FullRead(s: FeatureSpec, fingerprint: string)
    requires s.Valid() && SpecRepresentable(s)
    ensures SpecOf(Obj(FullFields(s, fingerprint))) == Ok((s, Some(fingerprint)))
  {
    hide DefValues, DefsOf;
    DefsRead(s.features);
    SpecKeysDiffer();
    var f := FullFields(s, fingerprint);
    var l := BodyFields(s).rest;
    TailFields(s, l);
    assert f.rest.rest == l && KeysOf(f.rest) == {"fingerprint"} + KeysOf(l)
      && KeysOf(f) == {"features"} + KeysOf(f.rest);
    assert Get(f, "spec") == Get(f.rest, "spec") == Get(l, "spec");
    assert Get(f, "version") == Get(f.rest, "version") == Get(l, "version");
    assert Get(f, "library_version") == Get(f.rest, "library_version") == Get(l, "library_version");
    assert Get(f, "fingerprint") == Get(f.rest, "fingerprint") == Some(Str(fingerprint));
  }

  /** The canonical body always parses, and parsing it gives back the spec: the writer never panics, and
      nothing of the recipe is lost in its bytes. */
  lemma BodyRoundTrip(s: FeatureSpec)
    requires s.Valid() && SpecRepresentable(s)
    ensures Parse(CanonicalBody(s)) == Some(Obj(BodyFields(s)))
    ensures ParseSpec(CanonicalBody(s)) == Ok((s, None))
  {
    hide Text, Parse, BodyFields, SpecOf, Sorted;
    BodySorted(s, "");
    ParseUndoesText(Obj(BodyFields(s)));
    BodyRead(s);
  }

  /** Two specs with equal canonical bodies are the same spec, column order included. */
  lemma BodyIdentifiesSpec(s: FeatureSpec, t: FeatureSpec)
    requires s.Valid() && SpecRepresentable(s) && t.Valid() && SpecRepresentable(t)
    ensures CanonicalBody(s) == CanonicalBody(t) <==> s == t
  {
    hide CanonicalBody, ParseSpec;
    BodyRoundTrip(s);
    BodyRoundTrip(t);
  }

  /** What is written reads back as the spec and its own fingerprint. */
  lemma ParseUndoesCanonicalJson(hash: string -> string, s: FeatureSpec)
    requires s.Valid() && SpecRepresentable(s)
    ensures CanonicalJson(hash, s).Some?
    ensures ParseSpec(CanonicalJson(hash, s).value) == Ok((s, Some(hash(CanonicalBody(s)))))
  {
    hide Text, Parse, BodyFields, FullFields, SpecOf, Sorted, CanonicalBody, Insert;
    BodyRoundTrip(s);
    var fingerprint := hash(CanonicalBody(s));
    FingerprintLands(s, fingerprint);
    BodySorted(s, fingerprint);
    ParseUndoesText(Obj(FullFields(s, fingerprint)));
    FullRead(s, fingerprint);
  }

  /** The load path accepts what was written exactly when it was written against this library. */
  lemma LoadAcceptsExactly(hash: string -> string, s: FeatureSpec)
    requires s.Valid() && SpecRepresentable(s)
    ensures CanonicalJson(hash, s).Some?
    ensures FromJson(hash, CanonicalJson(hash, s).value) ==
      if s.libraryVersion == FEATURES_VERSION then Ok(s) else Err(Mismatch)
  {
    hide CanonicalJson, ParseSpec, CanonicalBody;
    ParseUndoesCanonicalJson(hash, s);
  }

  // ---------------------------------------------------------------- the canonical form is the only one

  lemma {:induction false} GetInKeys(f: Fields, key: string)
    ensures key in KeysOf(f) <==> Get(f, key).Some?
  {
    match f
    case NoFields =>
    case Field(_, _, rest) => GetInKeys(rest, key);
  }

  /** The first key of a sorted object is below all the others. */
  lemma {:induction false} HeadIsLeast(f: Fields, key: string)
    requires f.Field? && SortedFields(f) && key in KeysOf(f.rest)
    ensures Less(f.key, key)
    decreases f
  {
    if key != f.rest.key {
      HeadIsLeast(f.rest, key);
      LessTransitive(f.key, f.rest.key, key);
    }
  }

  lemma TailWithoutHead(f: Fields)
    requires f.Field? && SortedFields(f)
    ensures f.key !in KeysOf(f.rest) && KeysOf(f.rest) == KeysOf(f) - {f.key}
  {
    if f.key in KeysOf(f.rest) {
      HeadIsLeast(f, f.key);
      LessTrichotomy(f.key, f.key);
    }
  }

  lemma SameHead(f: Fields, g: Fields)
    requires f.Field? && g.Field? && SortedFields(f) && SortedFields(g) && KeysOf(f) == KeysOf(g)
    ensures f.key == g.key
  {
    if f.key != g.key {
      assert f.key in KeysOf(g) && g.key in KeysOf(f);
      HeadIsLeast(f, g.key);
      HeadIsLeast(g, f.key);
      LessTrichotomy(f.key, g.key);
    }
  }

  /** A sorted object is determined by what its keys map to. */
  lemma {:induction false} FieldsUnique(f: Fields, g: Fields)
    requires SortedFields(f) && SortedFields(g) && KeysOf(f) == KeysOf(g)
    requires forall key :: key in KeysOf(f) ==> Get(f, key) == Get(g, key)
    ensures f == g
    decreases f
  {
    match f
    case NoFields => assert g.Field? ==> KeysOf(g) != {};
    case Field(k, v, rest) =>
      assert k in KeysOf(f);
      if g.Field? {
        SameHead(f, g);
        TailWithoutHead(f);
        TailWithoutHead(g);
        assert Get(f, k) == Get(g, k);
        forall key | key in KeysOf(rest)
          ensures Get(rest, key) == Get(g.rest, key)
        {
          assert Get(f, key) == Get(g, key);
        }
        FieldsUnique(rest, g.rest);
      }
  }

  lemma {:induction false} FieldsOfGet(keys: seq<string>, m: map<string, Value>, key: string)
    requires forall i :: 0 <= i < |keys| ==> keys[i] in m
    ensures key in KeysOf(FieldsOf(keys, m)) <==> key in keys
    ensures key in keys ==> key in m && Get(FieldsOf(keys, m), key) == Some(m[key])
  {
    if keys != [] {
      FieldsOfGet(keys[1..], m, key);
      assert key in keys <==> key == keys[0] || key in keys[1..];
    }
  }

  /** An object that reads as a map is that map's object. */
  lemma ObjectOfUnique(f: Fields, m: map<string, Value>)
    requires SortedFields(f) && KeysOf(f) == m.Keys && forall k :: k in m ==> Sorted(m[k]) && Get(f, k) == Some(m[k])
    ensures ObjectOf(m) == Obj(f)
  {
    var keys := SortedKeys(m.Keys);
    InKeys(m.Keys);
    FieldsOfSorted(keys, m);
    forall key
      ensures key in KeysOf(FieldsOf(keys, m)) <==> key in m
      ensures key in m ==> Get(FieldsOf(keys, m), key) == Some(m[key])
    {
      FieldsOfGet(keys, m, key);
    }
    FieldsUnique(f, FieldsOf(keys, m));
  }

  lemma ParamWritten(v: Value)
    ensures ParamOf(v).Ok? ==> ParamValue(ParamOf(v).value) == v && Sorted(v)
  {
  }

  lemma {:induction false} ParamsWritten(f: Fields, k: string)
    requires SortedFields(f) && ParamsOf(f).Ok?
    ensures ParamsOf(f).value.Keys == KeysOf(f)
    ensures k in ParamsOf(f).value ==>
      Get(f, k) == Some(ParamValue(ParamsOf(f).value[k])) && Sorted(ParamValue(ParamsOf(f).value[k]))
    decreases f
  {
    hide ParamOf, ParamValue, Less;
    match f
    case NoFields =>
    case Field(key, v, rest) =>
      ParamsWritten(rest, k);
      ParamWritten(v);
      TailWithoutHead(f);
  }

  lemma {:induction false} BindingsWritten(f: Fields, k: string)
    requires SortedFields(f) && BindingsOf(f).Ok?
    ensures BindingsOf(f).value.Keys == KeysOf(f)
    ensures k in BindingsOf(f).value ==> Get(f, k) == Some(Str(BindingsOf(f).value[k]))
    decreases f
  {
    hide Less;
    match f
    case NoFields =>
    case Field(key, v, rest) =>
      BindingsWritten(rest, k);
      TailWithoutHead(f);
  }

  lemma ParamsObject(f: Fields)
    requires SortedFields(f) && ParamsOf(f).Ok?
    ensures ObjectOf(ParamValues(ParamsOf(f).value)) == Obj(f)
  {
    hide ObjectOf, ParamsOf, ParamValue;
    var m := ParamValues(ParamsOf(f).value);
    forall k
      ensures ParamsOf(f).value.Keys == KeysOf(f) && (k in m ==> Sorted(m[k]) && Get(f, k) == Some(m[k]))
    {
      ParamsWritten(f, k);
    }
    assert m.Keys == ParamsOf(f).value.Keys;
    ObjectOfUnique(f, m);
  }

  lemma BindingsObject(f: Fields)
    requires SortedFields(f) && BindingsOf(f).Ok?
    ensures ObjectOf(NameValues(BindingsOf(f).value)) == Obj(f)
  {
    hide ObjectOf, BindingsOf;
    var m := NameValues(BindingsOf(f).value);
    forall k
      ensures BindingsOf(f).value.Keys == KeysOf(f) && (k in m ==> Sorted(m[k]) && Get(f, k) == Some(m[k]))
    {
      BindingsWritten(f, k);
    }
    assert m.Keys == BindingsOf(f).value.Keys;
    ObjectOfUnique(f, m);
  }

  /** A definition that spells out its parameters and inputs, though they may be empty. */
  predicate DefExplicit(v: Value) {
    v.Obj? && KeysOf(v.fields) == {"column", "feature", "params", "inputs"}
  }

  predicate DefsExplicit(items: Items) {
    match items
    case NoItems => true
    case Item(first, rest) => DefExplicit(first) && DefsExplicit(rest)
  }

  /** A payload that spells out everything but a fingerprint. */
  predicate Explicit(v: Value) {
    && v.Obj? && KeysOf(v.fields) == {"features", "library_version", "spec", "version"}
    && FeatureItems(v.fields).Ok? && DefsExplicit(FeatureItems(v.fields).value)
  }

  lemma {:induction false} GetSorted(f: Fields, key: string)
    requires SortedFields(f) && Get(f, key).Some?
    ensures Sorted(Get(f, key).value)
  {
    if f.Field? && f.key != key { GetSorted(f.rest, key); }
  }

  lemma DefGets(v: Value)
    requires DefExplicit(v) && Sorted(v) && DefOf(v).Ok?
    ensures var def, f := DefOf(v).value, v.fields;
      && Get(f, "column") == Some(Str(def.column)) && Get(f, "feature") == Some(Str(def.feature.Name()))
      && Get(f, "inputs") == Some(ObjectOf(NameValues(def.bindings)))
      && Get(f, "params") == Some(ObjectOf(ParamValues(def.params)))
  {
    hide ObjectOf, ParamsOf, BindingsOf, ParamValues, NameValues, Transform.Name, FeatureDef.Valid, IsBlank, Less;
    var f := v.fields;
    GetInKeys(f, "params");
    GetInKeys(f, "inputs");
    GetSorted(f, "params");
    GetSorted(f, "inputs");
    ParamsObject(SubObject(f, "params").value);
    BindingsObject(SubObject(f, "inputs").value);
  }

  lemma DefIsCanonical(v: Value)
    requires DefExplicit(v) && Sorted(v) && DefOf(v).Ok?
    ensures v == DefValue(DefOf(v).value)
  {
    hide ObjectOf, DefOf, ParamValues, NameValues, Transform.Name, FeatureDef.Valid, Less, Get, KeysOf;
    var def := DefOf(v).value;
    DefGets(v);
    DefFits(v);
    DefRead(def);
    DefFields(DefValue(def).fields, def);
    FieldsUnique(v.fields, DefValue(def).fields);
  }

  lemma {:induction false} DefsAreCanonical(items: Items)
    requires DefsExplicit(items) && SortedItems(items) && DefsOf(items).Ok?
    ensures items == DefValues(DefsOf(items).value)
    decreases items
  {
    hide DefOf, DefValue, DefExplicit, Sorted;
    match items
    case NoItems =>
    case Item(first, rest) =>
      DefIsCanonical(first);
      DefsAreCanonical(rest);
      var defs := DefsOf(items).value;
      assert defs[1..] == DefsOf(rest).value;
  }

  lemma BodyGets(v: Value)
    requires Explicit(v) && Sorted(v) && SpecOf(v).Ok?
    ensures var s, f := SpecOf(v).value.0, v.fields;
      && Get(f, "spec") == Some(Str(s.name)) && Get(f, "version") == Some(Int(s.version))
      && Get(f, "library_version") == Some(Int(s.libraryVersion))
      && Get(f, "features") == Some(Arr(DefValues(s.features)))
  {
    hide DefsOf, DefValues, DistinctColumns, IsBlank, Less;
    var f := v.fields;
    GetInKeys(f, "library_version");
    GetSorted(f, "features");
    DefsAreCanonical(FeatureItems(f).value);
  }

  lemma BodyFieldGets(s: FeatureSpec)
    ensures var f := BodyFields(s);
      && Get(f, "spec") == Some(Str(s.name)) && Get(f, "version") == Some(Int(s.version))
      && Get(f, "library_version") == Some(Int(s.libraryVersion))
      && Get(f, "features") == Some(Arr(DefValues(s.features)))
      && KeysOf(f) == {"features", "library_version", "spec", "version"}
  {
    hide DefValues;
    SpecKeysDiffer();
    var f := BodyFields(s);
    TailFields(s, f.rest);
    assert KeysOf(f) == {"features"} + KeysOf(f.rest);
    assert Get(f, "spec") == Get(f.rest, "spec") && Get(f, "version") == Get(f.rest, "version");
    assert Get(f, "library_version") == Get(f.rest, "library_version");
  }

  /** The other way round: a payload that spells everything out, keys in order, and loads as `s` is the
      canonical body of `s`, byte for byte. */
  lemma ExplicitIsCanonical(v: Value, s: FeatureSpec)
    requires Explicit(v) && Sorted(v) && SpecOf(v).Ok? && SpecOf(v).value.0 == s
    ensures Text(v) == CanonicalBody(s)
  {
    hide SpecOf, DefValues, Less, Get, KeysOf, Text, DefsExplicit, FeatureDef.Valid, Representable;
    BodyGets(v);
    BodyFieldGets(s);
    SpecFits(v);
    BodySorted(s, "");
    FieldsUnique(v.fields, BodyFields(s));
  }

  lemma {:induction false} ParamsFit(fields: Fields)
    ensures ParamsOf(fields).Ok? ==>
      forall k :: k in ParamsOf(fields).value && ParamsOf(fields).value[k].IntParam? ==>
        IsI64(ParamsOf(fields).value[k].i)
  {
    match fields
    case NoFields =>
    case Field(_, _, rest) => ParamsFit(rest);
  }

  lemma DefFits(v: Value)
    ensures DefOf(v).Ok? ==> DefOf(v).value.Valid() && Representable(DefOf(v).value)
  {
    hide FeatureInfo, FeatureDef.Valid, BindingsOf, ParamsOf, IsBlank, StringField;
    if v.Obj? && SubObject(v.fields, "params").Ok? { ParamsFit(SubObject(v.fields, "params").value); }
  }

  lemma {:induction false} DefsFit(items: Items)
    ensures DefsOf(items).Ok? ==>
      forall c :: 0 <= c < |DefsOf(items).value| ==>
        DefsOf(items).value[c].Valid() && Representable(DefsOf(items).value[c])
  {
    hide DefOf, FeatureDef.Valid, Representable;
    match items
    case NoItems =>
    case Item(first, rest) =>
      DefFits(first);
      DefsFit(rest);
  }

  lemma SpecFits(v: Value)
    ensures SpecOf(v).Ok? ==> SpecOf(v).value.0.Valid() && SpecRepresentable(SpecOf(v).value.0)
  {
    hide DefsOf, FeatureDef.Valid, Representable, IsBlank, DistinctColumns;
    if v.Obj? && FeatureItems(v.fields).Ok? { DefsFit(FeatureItems(v.fields).value); }
  }

  /** Whatever loads is a spec the constructors would have built. */
  lemma LoadedIsValid(text: string)
    ensures ParseSpec(text).Ok? ==> ParseSpec(text).value.0.Valid() && SpecRepresentable(ParseSpec(text).value.0)
  {
    hide Parse, SpecOf, FeatureSpec.Valid, SpecRepresentable;
    if Parse(text).Some? { SpecFits(Parse(text).value); }
  }

  /** A payload that carries the fingerprint of `s` but loads as another recipe is a collision of the
      hash, on two different bodies. */
  lemma AlteredPayloadNeedsCollision(hash: string -> string, s: FeatureSpec, text: string, t: FeatureSpec)
    requires s.Valid() && SpecRepresentable(s)
    requires FromJson(hash, text) == Ok(t) && ParseSpec(text) == Ok((t, Some(hash(CanonicalBody(s)))))
    requires s != t
    ensures hash(CanonicalBody(s)) == hash(CanonicalBody(t)) && CanonicalBody(s) != CanonicalBody(t)
  {
    hide CanonicalBody, ParseSpec;
    LoadedIsValid(text);
    BodyIdentifiesSpec(s, t);
  }
}
