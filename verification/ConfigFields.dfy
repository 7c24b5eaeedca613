/** The generated apply functions of one config message (`internal/gen/test/v1/config.proc.go`, emitted by
    `internal/codegen/config.go`), for any list of fields, and the file merge of `config/file.go`: as functions on
    values, with the value each field ends up with. `ConfigLoad` runs them on config messages updated in place. */
module ConfigFields {
  import opened Options
  import opened JsonOverlay

  datatype Value = Text(text: string) | Number(number: int) | Bool(flag: bool)

  /** What is known of a field's type: parsing of raw strings, and the protojson form of its values. */
  datatype Codec = Codec(parse: string -> Option<Value>, encode: Value -> Json, decode: Json -> Option<Value>)

  datatype Field = Field(
    name: string,
    jsonName: string,
    env: Option<string>,
    flag: Option<string>,
    default: Option<string>,
    required: bool,
    zero: Value,
    codec: Codec)

  datatype Schema = Schema(fields: seq<Field>, decoders: Decoders)

  /** The config message and its presence tracker. A field without an entry has its zero value. */
  datatype State = State(values: map<string, Value>, present: set<string>)

  const INITIAL := State(map[], {})

  function ValueOf(s: State, f: Field): Value {
    if f.name in s.values then s.values[f.name] else f.zero
  }

  /** The descriptor's promise: names and JSON names identify fields. */
  ghost predicate DistinctFields(fields: seq<Field>) {
    forall i, j :: 0 <= i < |fields| && 0 <= j < |fields| && i != j ==>
      fields[i].name != fields[j].name && fields[i].jsonName != fields[j].jsonName
  }

  /** The codec's promise: a value other than zero survives the round trip through JSON. */
  ghost predicate Faithful(fields: seq<Field>) {
    forall f <- fields :: forall v :: v != f.zero ==>
      f.codec.encode(v) != Null && f.codec.decode(f.codec.encode(v)) == Some(v)
  }

  // ---- defaults, environment, bootstrap flags ------------------------------------------------------------

  datatype Source = Defaults | Env(vars: map<string, string>) | Flags(values: map<string, string>)

  function RawOf(source: Source, f: Field): Option<string> {
    match source
    case Defaults => f.default
    case Env(vars) => if f.env.Some? && f.env.value != "" && f.env.value in vars then Some(vars[f.env.value]) else None
    case Flags(values) => if f.flag.Some? && f.flag.value in values then Some(values[f.flag.value]) else None
  }

  datatype LoadError =
    | Conflict
    | BadArgs
    | CompositeConfig
    | BadFile
    | BadDefault(field: string)
    | BadEnv(field: string)
    | BadFlag(field: string)
    | Missing(field: string)

  function BadValue(source: Source, field: string): LoadError {
    match source
    case Defaults => BadDefault(field)
    case Env(_) => BadEnv(field)
    case Flags(_) => BadFlag(field)
  }

  function Put(s: State, f: Field, v: Value): State {
    State(s.values[f.name := v], if f.required then s.present + {f.name} else s.present)
  }

  function ApplyField(f: Field, source: Source, s: State): Result<State, LoadError> {
    match RawOf(source, f)
    case None => Ok(s)
    case Some(raw) =>
      match f.codec.parse(raw)
      case None => Err(BadValue(source, f.name))
      case Some(v) => Ok(Put(s, f, v))
  }

  /** The fields in order, up to the first whose raw value does not parse. */
  function Apply(fields: seq<Field>, source: Source, s: State): Result<State, LoadError> {
    if fields == [] then Ok(s)
    else
      match Apply(fields[..|fields| - 1], source, s)
      case Err(e) => Err(e)
      case Ok(s') => ApplyField(fields[|fields| - 1], source, s')
  }

  /** The source says `raw` for the field. An environment variable may be empty, but its name may not. */
  predicate Says(source: Source, f: Field, raw: string) {
    match source
    case Defaults => f.default == Some(raw)
    case Env(vars) => f.env.Some? && f.env.value != "" && f.env.value in vars && vars[f.env.value] == raw
    case Flags(values) => f.flag.Some? && f.flag.value in values && values[f.flag.value] == raw
  }

  ghost predicate Parses(fields: seq<Field>, source: Source) {
    forall f, raw :: f in fields && Says(source, f, raw) ==> f.codec.parse(raw).Some?
  }

  /** A source replaces exactly the fields it says something for. */
  ghost predicate Replaces(f: Field, source: Source, s: State, s': State) {
    && (forall raw :: Says(source, f, raw) ==>
          && f.codec.parse(raw) == Some(ValueOf(s', f))
          && (f.name in s'.present <==> f.required || f.name in s.present))
    && ((forall raw :: !Says(source, f, raw)) ==>
          ValueOf(s', f) == ValueOf(s, f) && (f.name in s'.present <==> f.name in s.present))
  }

  lemma SaysRaw(source: Source, f: Field)
    ensures forall raw :: Says(source, f, raw) <==> RawOf(source, f) == Some(raw)
  {
  }

  lemma ParsesSnoc(front: seq<Field>, last: Field, source: Source)
    ensures Parses(front + [last], source)
            <==> && Parses(front, source)
                 && (RawOf(source, last).Some? ==> last.codec.parse(RawOf(source, last).value).Some?)
  {
    SaysRaw(source, last);
    assert forall f :: f in front + [last] <==> f in front || f == last;
  }

  lemma {:induction false} ApplyKeepsOthers(fields: seq<Field>, source: Source, s: State, g: Field)
    requires Apply(fields, source, s).Ok? && forall f <- fields :: f.name != g.name
    ensures var s' := Apply(fields, source, s).value;
            ValueOf(s', g) == ValueOf(s, g) && (g.name in s'.present <==> g.name in s.present)
  {
    if fields != [] {
      ApplyKeepsOthers(fields[..|fields| - 1], source, s, g);
    }
  }

  lemma {:induction false} ApplyEffect(fields: seq<Field>, source: Source, s: State)
    requires DistinctFields(fields)
    ensures Apply(fields, source, s).Ok? <==> Parses(fields, source)
    ensures Apply(fields, source, s).Ok? ==>
            forall f <- fields :: Replaces(f, source, s, Apply(fields, source, s).value)
  {
    if fields != [] {
      var front, last := fields[..|fields| - 1], fields[|fields| - 1];
      assert fields == front + [last];
      ApplyEffect(front, source, s);
      ParsesSnoc(front, last, source);
      if Apply(fields, source, s).Ok? {
        forall f <- fields
          ensures Replaces(f, source, s, Apply(fields, source, s).value)
        {
          LastEffect(front, last, source, s, f);
        }
      }
    }
  }

  lemma LastIsNew(front: seq<Field>, last: Field)
    requires DistinctFields(front + [last])
    ensures forall f <- front :: f.name != last.name && f.jsonName != last.jsonName
  {
    var fields := front + [last];
    forall f <- front
      ensures f.name != last.name && f.jsonName != last.jsonName
    {
      var i :| 0 <= i < |front| && front[i] == f;
      assert fields[i] == f && fields[|front|] == last;
    }
  }

  lemma LastEffect(front: seq<Field>, last: Field, source: Source, s: State, f: Field)
    requires DistinctFields(front + [last]) && Apply(front, source, s).Ok? && f in front + [last]
    requires ApplyField(last, source, Apply(front, source, s).value).Ok?
    requires f in front ==> Replaces(f, source, s, Apply(front, source, s).value)
    ensures Replaces(f, source, s, ApplyField(last, source, Apply(front, source, s).value).value)
  {
    LastIsNew(front, last);
    if f == last {
      SaysRaw(source, last);
      ApplyKeepsOthers(front, source, s, last);
    } else {
      PutElsewhere(last, source, Apply(front, source, s).value, f);
    }
  }

  lemma PutElsewhere(last: Field, source: Source, s: State, f: Field)
    requires f.name != last.name && ApplyField(last, source, s).Ok?
    ensures var s' := ApplyField(last, source, s).value;
            ValueOf(s', f) == ValueOf(s, f) && (f.name in s'.present <==> f.name in s.present)
  {
  }

  /** The error for a value that does not parse names the source and the field. */
  predicate Complains(source: Source, field: string, e: LoadError) {
    match source
    case Defaults => e == BadDefault(field)
    case Env(_) => e == BadEnv(field)
    case Flags(_) => e == BadFlag(field)
  }

  /** The first field whose value from the source does not parse is field `n`, and `e` says so. */
  ghost predicate FirstBad(fields: seq<Field>, source: Source, n: nat, e: LoadError) {
    && n < |fields| && Parses(fields[..n], source) && Complains(source, fields[n].name, e)
    && exists raw :: Says(source, fields[n], raw) && fields[n].codec.parse(raw).None?
  }

  /** A source fails with the error of the first of its values that does not parse. */
  lemma {:induction false} ApplyFails(fields: seq<Field>, source: Source, s: State, e: LoadError)
    ensures Apply(fields, source, s) == Err(e) <==> exists n: nat :: FirstBad(fields, source, n, e)
    ensures Apply(fields, source, s).Ok? <==> Parses(fields, source)
  {
    if fields != [] {
      var m := |fields| - 1;
      var front, last := fields[..m], fields[m];
      assert fields == front + [last];
      ApplyFails(front, source, s, e);
      SaysRaw(source, last);
      LastBad(front, last, source, e);
      ParsesSnoc(front, last, source);
    }
  }

  /** The first bad field is in front, or it is the last one. */
  lemma LastBad(front: seq<Field>, last: Field, source: Source, e: LoadError)
    ensures (exists n: nat :: FirstBad(front + [last], source, n, e))
            <==> || (exists n: nat :: FirstBad(front, source, n, e))
                 || (Parses(front, source) && Complains(source, last.name, e)
                     && exists raw :: Says(source, last, raw) && last.codec.parse(raw).None?)
  {
    var fields := front + [last];
    assert fields[..|front|] == front;
    if n: nat :| FirstBad(front, source, n, e) {
      assert front[..n] == fields[..n];
      assert FirstBad(fields, source, n, e);
    }
    if Parses(front, source) && Complains(source, last.name, e)
       && exists raw :: Says(source, last, raw) && last.codec.parse(raw).None? {
      assert FirstBad(fields, source, |front|, e);
    }
    if n: nat :| FirstBad(fields, source, n, e) {
      BadInFront(front, last, source, n, e);
    }
  }

  lemma BadInFront(front: seq<Field>, last: Field, source: Source, n: nat, e: LoadError)
    requires FirstBad(front + [last], source, n, e)
    ensures if n < |front| then FirstBad(front, source, n, e)
            else Parses(front, source) && Complains(source, last.name, e)
                 && exists raw :: Says(source, last, raw) && last.codec.parse(raw).None?
  {
    assert n < |front| ==> (front + [last])[..n] == front[..n];
    assert n == |front| ==> (front + [last])[..n] == front;
  }

  // ---- the config file -----------------------------------------------------------------------------------

  /** `configJSONFieldNames`: both spellings of every field; a later field wins. */
  function NamesOf(fields: seq<Field>): FieldNames {
    if fields == [] then map[]
    else
      var last := fields[|fields| - 1];
      NamesOf(fields[..|fields| - 1])[last.jsonName := last.jsonName][last.name := last.jsonName]
  }

  /** `currentJSONMap`: the fields that are not zero. */
  function CurrentJson(fields: seq<Field>, s: State): map<string, Json> {
    if fields == [] then map[]
    else
      var front, last := CurrentJson(fields[..|fields| - 1], s), fields[|fields| - 1];
      if ValueOf(s, last) == last.zero then front else front[last.jsonName := last.codec.encode(ValueOf(s, last))]
  }

  function JsonNames(fields: seq<Field>): set<string> {
    if fields == [] then {} else JsonNames(fields[..|fields| - 1]) + {fields[|fields| - 1].jsonName}
  }

  function DecodeFields(fields: seq<Field>, merged: map<string, Json>): Option<map<string, Value>> {
    if fields == [] then Some(map[])
    else
      var last := fields[|fields| - 1];
      match DecodeFields(fields[..|fields| - 1], merged)
      case None => None
      case Some(values) =>
        if last.jsonName !in merged || merged[last.jsonName] == Null then Some(values)
        else
          match last.codec.decode(merged[last.jsonName])
          case None => None
          case Some(v) => Some(values[last.name := v])
  }

  /** `protojson.Unmarshal` with unknown fields refused: a null or missing field is zero. */
  function Unmarshal(fields: seq<Field>, merged: map<string, Json>): Option<map<string, Value>> {
    if merged.Keys <= JsonNames(fields) then DecodeFields(fields, merged) else None
  }

  function RequiredIn(fields: seq<Field>, present: set<string>): set<string> {
    if fields == [] then {}
    else
      var last := fields[|fields| - 1];
      RequiredIn(fields[..|fields| - 1], present)
      + if last.required && last.jsonName in present then {last.name} else {}
  }

  function MergeOverlaid(schema: Schema, overlay: map<string, Json>, s: State): Option<State> {
    if !Decodable(overlay, overlay.Keys, schema.decoders) then None
    else
      match Unmarshal(schema.fields, Merged(CurrentJson(schema.fields, s), overlay, overlay.Keys, schema.decoders))
      case None => None
      case Some(values) => Some(State(values, s.present + RequiredIn(schema.fields, NonNull(overlay))))
  }

  /** `loadRuntimeConfigFile` on the top-level object of the file. */
  ghost function MergeFile(schema: Schema, raw: map<string, Json>, s: State): Result<State, LoadError> {
    if !NoDuplicates(raw.Keys, NamesOf(schema.fields)) then Err(BadFile)
    else
      match MergeOverlaid(schema, Overlay(raw, NamesOf(schema.fields)), s)
      case None => Err(BadFile)
      case Some(s') => Ok(s')
  }

  lemma {:induction false} JsonNamesAre(fields: seq<Field>)
    ensures forall k :: k in JsonNames(fields) <==> exists f :: f in fields && f.jsonName == k
  {
    if fields != [] {
      JsonNamesAre(fields[..|fields| - 1]);
      assert fields == fields[..|fields| - 1] + [fields[|fields| - 1]];
    }
  }

  lemma {:induction false} CurrentJsonOf(fields: seq<Field>, s: State, f: Field)
    requires DistinctFields(fields) && f in fields
    ensures f.jsonName in CurrentJson(fields, s) <==> ValueOf(s, f) != f.zero
    ensures ValueOf(s, f) != f.zero ==> CurrentJson(fields, s)[f.jsonName] == f.codec.encode(ValueOf(s, f))
    ensures CurrentJson(fields, s).Keys <= JsonNames(fields)
  {
    var front, last := fields[..|fields| - 1], fields[|fields| - 1];
    assert fields == front + [last];
    CurrentJsonKeys(fields, s);
    var i :| 0 <= i < |fields| && fields[i] == f;
    if i == |front| {
      JsonNamesAre(front);
      CurrentJsonKeys(front, s);
      forall g <- front
        ensures g.jsonName != last.jsonName
      {
        var j :| 0 <= j < |front| && front[j] == g;
        assert fields[j] == g;
      }
    } else {
      assert front[i] == f;
      CurrentJsonOf(front, s, f);
    }
  }

  lemma {:induction false} CurrentJsonKeys(fields: seq<Field>, s: State)
    ensures CurrentJson(fields, s).Keys <= JsonNames(fields)
  {
    if fields != [] {
      CurrentJsonKeys(fields[..|fields| - 1], s);
    }
  }

  /** The decoded value of a field; `None` if it does not decode. */
  function DecodedAs(f: Field, merged: map<string, Json>): Option<Value> {
    if f.jsonName !in merged || merged[f.jsonName] == Null then Some(f.zero) else f.codec.decode(merged[f.jsonName])
  }

  lemma {:induction false} DecodeFieldsKeys(fields: seq<Field>, merged: map<string, Json>, name: string)
    requires DecodeFields(fields, merged).Some? && forall f <- fields :: f.name != name
    ensures name !in DecodeFields(fields, merged).value
  {
    if fields != [] {
      DecodeFieldsKeys(fields[..|fields| - 1], merged, name);
    }
  }

  lemma {:induction false} DecodeFieldsOf(fields: seq<Field>, merged: map<string, Json>)
    requires DistinctFields(fields)
    ensures DecodeFields(fields, merged).Some? <==> forall f <- fields :: DecodedAs(f, merged).Some?
    ensures DecodeFields(fields, merged).Some? ==>
              forall f <- fields :: Some(ValueOf(State(DecodeFields(fields, merged).value, {}), f))
                == DecodedAs(f, merged)
  {
    if fields != [] {
      var front, last := fields[..|fields| - 1], fields[|fields| - 1];
      assert fields == front + [last];
      DecodeFieldsOf(front, merged);
      assert (forall f <- fields :: DecodedAs(f, merged).Some?) <==>
             (forall f <- front :: DecodedAs(f, merged).Some?) && DecodedAs(last, merged).Some?;
      if DecodeFields(fields, merged).Some? {
        forall f <- fields
          ensures Some(ValueOf(State(DecodeFields(fields, merged).value, {}), f)) == DecodedAs(f, merged)
        {
          var i :| 0 <= i < |fields| && fields[i] == f;
          if i < |front| {
            assert front[i] == f && f.name != last.name;
          } else {
            LastIsNew(front, last);
            DecodeFieldsKeys(front, merged, last.name);
          }
        }
      }
    }
  }

  lemma {:induction false} RequiredInOf(fields: seq<Field>, present: set<string>, f: Field)
    requires DistinctFields(fields) && f in fields
    ensures f.name in RequiredIn(fields, present) <==> f.required && f.jsonName in present
  {
    var front, last := fields[..|fields| - 1], fields[|fields| - 1];
    assert fields == front + [last];
    LastIsNew(front, last);
    if f in front {
      RequiredInOf(front, present, f);
    } else {
      RequiredInNames(front, present);
    }
  }

  lemma {:induction false} RequiredInNames(fields: seq<Field>, present: set<string>)
    ensures forall name <- RequiredIn(fields, present) :: exists f :: f in fields && f.name == name
  {
    if fields != [] {
      RequiredInNames(fields[..|fields| - 1], present);
      assert fields == fields[..|fields| - 1] + [fields[|fields| - 1]];
    }
  }

  function EntryOf(overlay: map<string, Json>, f: Field): Option<Json> {
    if f.jsonName in overlay then Some(overlay[f.jsonName]) else None
  }

  /** The value an entry stands for: null is zero. */
  function EntryValue(schema: Schema, entry: Json, f: Field): Option<Value> {
    match entry
    case Null => Some(f.zero)
    case Raw(text) =>
      var parsers := schema.decoders.parsers;
      var json := if f.jsonName in parsers then parsers[f.jsonName](text) else schema.decoders.plain(text);
      if json == Some(Null) then Some(f.zero) else if json.Some? then f.codec.decode(json.value) else None
  }

  /** No unknown field, and every value decodes. */
  ghost predicate GoodOverlay(schema: Schema, overlay: map<string, Json>) {
    && (forall c <- overlay :: exists f :: f in schema.fields && f.jsonName == c)
    && (forall f <- schema.fields :: EntryOf(overlay, f).Some? ==>
        EntryValue(schema, EntryOf(overlay, f).value, f).Some?)
  }

  /** What the merge demands of the file: also that no two keys spell the same field. */
  ghost predicate GoodFile(schema: Schema, raw: map<string, Json>) {
    NoDuplicates(raw.Keys, NamesOf(schema.fields)) && GoodOverlay(schema, Overlay(raw, NamesOf(schema.fields)))
  }

  function MergedValue(schema: Schema, overlay: map<string, Json>, f: Field, s: State): Option<Value> {
    match EntryOf(overlay, f)
    case None => Some(ValueOf(s, f))
    case Some(entry) => EntryValue(schema, entry, f)
  }

  /** The merge sets exactly the fields of the file, and marks those as present that are not null. */
  ghost predicate MergedField(schema: Schema, overlay: map<string, Json>, f: Field, s: State, s': State) {
    && MergedValue(schema, overlay, f, s) == Some(ValueOf(s', f))
    && (f.name in s'.present
        <==> f.name in s.present || (f.required && f.jsonName in overlay && overlay[f.jsonName] != Null))
  }

  lemma DecodedMerge(schema: Schema, overlay: map<string, Json>, s: State, f: Field)
    requires DistinctFields(schema.fields) && Faithful(schema.fields) && f in schema.fields
    requires Decodable(overlay, overlay.Keys, schema.decoders)
    ensures DecodedAs(f, Merged(CurrentJson(schema.fields, s), overlay, overlay.Keys, schema.decoders))
            == MergedValue(schema, overlay, f, s)
  {
    CurrentJsonOf(schema.fields, s, f);
  }

  lemma GoodOverlayDecodes(schema: Schema, overlay: map<string, Json>)
    requires GoodOverlay(schema, overlay)
    ensures Decodable(overlay, overlay.Keys, schema.decoders)
  {
    forall c <- overlay
      ensures DecodeValue(c, overlay[c], schema.decoders).Some?
    {
      var f :| f in schema.fields && f.jsonName == c;
      assert EntryOf(overlay, f) == Some(overlay[c]);
    }
  }

  lemma UnmarshalEffect(schema: Schema, overlay: map<string, Json>, s: State)
    requires DistinctFields(schema.fields) && Faithful(schema.fields)
             && Decodable(overlay, overlay.Keys, schema.decoders)
    ensures var values := Unmarshal(schema.fields,
                                    Merged(CurrentJson(schema.fields, s), overlay, overlay.Keys, schema.decoders));
            && (values.Some? <==> overlay.Keys <= JsonNames(schema.fields)
                                  && forall f <- schema.fields :: MergedValue(schema, overlay, f, s).Some?)
            && (values.Some? ==> forall f <- schema.fields ::
                                   Some(ValueOf(State(values.value, {}), f)) == MergedValue(schema, overlay, f, s))
  {
    var merged := Merged(CurrentJson(schema.fields, s), overlay, overlay.Keys, schema.decoders);
    CurrentJsonKeys(schema.fields, s);
    assert merged.Keys == overlay.Keys + CurrentJson(schema.fields, s).Keys;
    DecodeFieldsOf(schema.fields, merged);
    forall f <- schema.fields
      ensures DecodedAs(f, merged) == MergedValue(schema, overlay, f, s)
    {
      DecodedMerge(schema, overlay, s, f);
    }
  }

  lemma GoodOverlayMeans(schema: Schema, overlay: map<string, Json>, s: State)
    ensures GoodOverlay(schema, overlay)
            <==> overlay.Keys <= JsonNames(schema.fields)
                 && forall f <- schema.fields :: MergedValue(schema, overlay, f, s).Some?
  {
    JsonNamesAre(schema.fields);
    assert forall f <- schema.fields ::
        MergedValue(schema, overlay, f, s).Some?
        <==> (EntryOf(overlay, f).Some? ==> EntryValue(schema, EntryOf(overlay, f).value, f).Some?);
  }

  lemma MergeOverlaidEffect(schema: Schema, overlay: map<string, Json>, s: State)
    requires DistinctFields(schema.fields) && Faithful(schema.fields)
    ensures MergeOverlaid(schema, overlay, s).Some? <==> GoodOverlay(schema, overlay)
    ensures MergeOverlaid(schema, overlay, s).Some? ==>
              forall f <- schema.fields :: MergedField(schema, overlay, f, s, MergeOverlaid(schema, overlay, s).value)
  {
    if GoodOverlay(schema, overlay) {
      GoodOverlayDecodes(schema, overlay);
    }
    GoodOverlayMeans(schema, overlay, s);
    if Decodable(overlay, overlay.Keys, schema.decoders) {
      UnmarshalEffect(schema, overlay, s);
      if MergeOverlaid(schema, overlay, s).Some? {
        forall f <- schema.fields
          ensures MergedField(schema, overlay, f, s, MergeOverlaid(schema, overlay, s).value)
        {
          RequiredInOf(schema.fields, NonNull(overlay), f);
        }
      }
    }
  }

  /** The merge succeeds exactly on good files, and then sets exactly the fields of the file. */
  lemma MergeFileEffect(schema: Schema, raw: map<string, Json>, s: State)
    requires DistinctFields(schema.fields) && Faithful(schema.fields)
    ensures MergeFile(schema, raw, s).Ok? <==> GoodFile(schema, raw)
    ensures MergeFile(schema, raw, s).Ok? ==>
              forall f <- schema.fields ::
                  MergedField(schema, Overlay(raw, NamesOf(schema.fields)), f, s, MergeFile(schema, raw, s).value)
  {
    if NoDuplicates(raw.Keys, NamesOf(schema.fields)) {
      MergeOverlaidEffect(schema, Overlay(raw, NamesOf(schema.fields)), s);
    }
  }

  /** No field bears another's name as its JSON name. */
  ghost predicate NamesApart(fields: seq<Field>) {
    forall f, g :: f in fields && g in fields && f.name == g.jsonName ==> f == g
  }

  lemma {:induction false} NamesOfKey(fields: seq<Field>, f: Field, k: string)
    requires DistinctFields(fields) && NamesApart(fields) && f in fields && (k == f.name || k == f.jsonName)
    ensures k in NamesOf(fields) && NamesOf(fields)[k] == f.jsonName
  {
    var front, last := fields[..|fields| - 1], fields[|fields| - 1];
    assert fields == front + [last];
    LastIsNew(front, last);
    if f in front {
      NamesOfKey(front, f, k);
    }
  }

  lemma {:induction false} NamesOfNoKey(fields: seq<Field>, k: string)
    requires forall f <- fields :: k != f.name && k != f.jsonName
    ensures k !in NamesOf(fields)
  {
    if fields != [] {
      NamesOfNoKey(fields[..|fields| - 1], k);
    }
  }

  /** A key spells a field if and only if it is its name or its JSON name. */
  lemma SpellingsOf(fields: seq<Field>, f: Field, k: string)
    requires DistinctFields(fields) && NamesApart(fields) && f in fields
    ensures Canonical(k, NamesOf(fields)) == f.jsonName <==> k == f.name || k == f.jsonName
  {
    if k == f.name || k == f.jsonName {
      NamesOfKey(fields, f, k);
    } else if g :| g in fields && (k == g.name || k == g.jsonName) {
      NamesOfKey(fields, g, k);
      var i :| 0 <= i < |fields| && fields[i] == f;
      var j :| 0 <= j < |fields| && fields[j] == g;
      assert i != j;
    } else {
      NamesOfNoKey(fields, k);
    }
  }

  // ---- one config, from all its sources --------------------------------------------------------------------

  function FirstMissing(fields: seq<Field>, present: set<string>): Option<string> {
    if fields == [] then None
    else
      var last := fields[|fields| - 1];
      match FirstMissing(fields[..|fields| - 1], present)
      case Some(name) => Some(name)
      case None => if last.required && last.name !in present then Some(last.name) else None
  }

  /** What reaches one config: the file, if any, the environment, and the bootstrap values. */
  datatype Inputs = Inputs(file: Option<map<string, Json>>, env: map<string, string>, values: map<string, string>)

  ghost function ApplyFile(schema: Schema, file: Option<map<string, Json>>, s: State): Result<State, LoadError> {
    if file.None? then Ok(s) else MergeFile(schema, file.value, s)
  }

  /** The phases in order: defaults, file, environment, bootstrap flags, required check. */
  ghost function LoadOne(schema: Schema, inputs: Inputs): Result<State, LoadError> {
    match Apply(schema.fields, Defaults, INITIAL)
    case Err(e) => Err(e)
    case Ok(s) =>
      match ApplyFile(schema, inputs.file, s)
      case Err(e) => Err(e)
      case Ok(s) =>
        match Apply(schema.fields, Env(inputs.env), s)
        case Err(e) => Err(e)
        case Ok(s) =>
          match Apply(schema.fields, Flags(inputs.values), s)
          case Err(e) => Err(e)
          case Ok(s) =>
            match FirstMissing(schema.fields, s.present)
            case Some(name) => Err(Missing(name))
            case None => Ok(s)
  }

  ghost predicate GoodInputs(schema: Schema, inputs: Inputs) {
    && Parses(schema.fields, Defaults) && Parses(schema.fields, Env(inputs.env))
       && Parses(schema.fields, Flags(inputs.values))
    && (inputs.file.Some? ==> GoodFile(schema, inputs.file.value))
  }

  /** The file's entry for a field, under any of its spellings. */
  ghost function FileEntry(schema: Schema, inputs: Inputs, f: Field): Option<Json>
    requires GoodInputs(schema, inputs)
  {
    if inputs.file.None? then None else EntryOf(Overlay(inputs.file.value, NamesOf(schema.fields)), f)
  }

  /** The field's flag was given. */
  predicate HasFlag(inputs: Inputs, f: Field) { f.flag.Some? && f.flag.value in inputs.values }

  /** The field's environment variable is set, be it to the empty string. */
  predicate HasEnv(inputs: Inputs, f: Field) { f.env.Some? && f.env.value != "" && f.env.value in inputs.env }

  /** Bootstrap flag, else environment, else file with null meaning zero, else default, else zero. */
  ghost function Expected(schema: Schema, inputs: Inputs, f: Field): Value
    requires GoodInputs(schema, inputs) && f in schema.fields
  {
    if HasFlag(inputs, f) then
      assert Says(Flags(inputs.values), f, inputs.values[f.flag.value]);
      f.codec.parse(inputs.values[f.flag.value]).value
    else if HasEnv(inputs, f) then
      assert Says(Env(inputs.env), f, inputs.env[f.env.value]);
      f.codec.parse(inputs.env[f.env.value]).value
    else if FileEntry(schema, inputs, f).Some? then EntryValue(schema, FileEntry(schema, inputs, f).value, f).value
    else if f.default.Some? then
      assert Says(Defaults, f, f.default.value);
      f.codec.parse(f.default.value).value
    else f.zero
  }

  /** Some source other than a null in the file supplied the field. */
  ghost predicate Supplied(schema: Schema, inputs: Inputs, f: Field)
    requires GoodInputs(schema, inputs)
  {
    || HasFlag(inputs, f) || HasEnv(inputs, f) || f.default.Some?
    || (FileEntry(schema, inputs, f).Some? && FileEntry(schema, inputs, f).value != Null)
  }

  lemma {:induction false} FirstMissingNone(fields: seq<Field>, present: set<string>)
    ensures FirstMissing(fields, present).None? <==> forall f <- fields :: f.required ==> f.name in present
  {
    if fields != [] {
      FirstMissingNone(fields[..|fields| - 1], present);
      assert fields == fields[..|fields| - 1] + [fields[|fields| - 1]];
    }
  }

  /** The state before the required check. */
  ghost predicate Final(schema: Schema, inputs: Inputs, s: State)
    requires GoodInputs(schema, inputs)
  {
    forall f <- schema.fields ::
      ValueOf(s, f) == Expected(schema, inputs, f)
        && (f.required ==> (f.name in s.present <==> Supplied(schema, inputs, f)))
  }

  /** What the source has for the field, if anything, is what it leaves there. */
  lemma ReplacedBy(f: Field, source: Source, s: State, s': State)
    requires Replaces(f, source, s, s')
    ensures match RawOf(source, f)
            case None => ValueOf(s', f) == ValueOf(s, f) && (f.name in s'.present <==> f.name in s.present)
            case Some(raw) =>
              && f.codec.parse(raw) == Some(ValueOf(s', f))
              && (f.name in s'.present <==> f.required || f.name in s.present)
  {
    SaysRaw(source, f);
  }

  lemma FieldEffect(schema: Schema, inputs: Inputs, f: Field, s1: State, s2: State, s3: State, s4: State)
    requires GoodInputs(schema, inputs) && f in schema.fields
    requires Replaces(f, Defaults, INITIAL, s1) && Replaces(f, Env(inputs.env), s2, s3)
             && Replaces(f, Flags(inputs.values), s3, s4)
    requires if inputs.file.None? then s2 == s1
             else MergedField(schema, Overlay(inputs.file.value, NamesOf(schema.fields)), f, s1, s2)
    ensures ValueOf(s4, f) == Expected(schema, inputs, f)
            && (f.required ==> (f.name in s4.present <==> Supplied(schema, inputs, f)))
  {
    ReplacedBy(f, Defaults, INITIAL, s1);
    ReplacedBy(f, Env(inputs.env), s2, s3);
    ReplacedBy(f, Flags(inputs.values), s3, s4);
  }

  lemma PhasesEffect(schema: Schema, inputs: Inputs, s1: State, s2: State, s3: State, s4: State)
    requires DistinctFields(schema.fields) && Faithful(schema.fields) && GoodInputs(schema, inputs)
    requires Apply(schema.fields, Defaults, INITIAL) == Ok(s1)
    requires ApplyFile(schema, inputs.file, s1) == Ok(s2)
    requires Apply(schema.fields, Env(inputs.env), s2) == Ok(s3)
    requires Apply(schema.fields, Flags(inputs.values), s3) == Ok(s4)
    ensures Final(schema, inputs, s4)
  {
    ApplyEffect(schema.fields, Defaults, INITIAL);
    if inputs.file.Some? {
      MergeFileEffect(schema, inputs.file.value, s1);
    }
    ApplyEffect(schema.fields, Env(inputs.env), s2);
    ApplyEffect(schema.fields, Flags(inputs.values), s3);
    forall f <- schema.fields
      ensures ValueOf(s4, f) == Expected(schema, inputs, f)
              && (f.required ==> (f.name in s4.present <==> Supplied(schema, inputs, f)))
    {
      FieldEffect(schema, inputs, f, s1, s2, s3, s4);
    }
  }

  /** Layered precedence. Loading succeeds if and only if every raw value parses, also those that are overridden, the
      file is good, and every required field is supplied by some source other than a null in the file; then each field
      has the value of its strongest source. */
  lemma Precedence(schema: Schema, inputs: Inputs)
    requires DistinctFields(schema.fields) && Faithful(schema.fields)
    ensures LoadOne(schema, inputs).Ok?
            <==> GoodInputs(schema, inputs) && forall f <- schema.fields :: f.required ==> Supplied(schema, inputs, f)
    ensures LoadOne(schema, inputs).Ok? ==>
              forall f <- schema.fields :: ValueOf(LoadOne(schema, inputs).value, f) == Expected(schema, inputs, f)
  {
    ApplyEffect(schema.fields, Defaults, INITIAL);
    if Parses(schema.fields, Defaults) {
      var s1 := Apply(schema.fields, Defaults, INITIAL).value;
      if inputs.file.Some? {
        MergeFileEffect(schema, inputs.file.value, s1);
      }
      if ApplyFile(schema, inputs.file, s1).Ok? {
        var s2 := ApplyFile(schema, inputs.file, s1).value;
        ApplyEffect(schema.fields, Env(inputs.env), s2);
        if Parses(schema.fields, Env(inputs.env)) {
          var s3 := Apply(schema.fields, Env(inputs.env), s2).value;
          ApplyEffect(schema.fields, Flags(inputs.values), s3);
          if Parses(schema.fields, Flags(inputs.values)) {
            var s4 := Apply(schema.fields, Flags(inputs.values), s3).value;
            PhasesEffect(schema, inputs, s1, s2, s3, s4);
            FirstMissingNone(schema.fields, s4.present);
          }
        }
      }
    }
  }

  /** The file's entry for a field is the one under its name or its JSON name. */
  lemma FileEntryIs(schema: Schema, inputs: Inputs, f: Field)
    requires DistinctFields(schema.fields) && NamesApart(schema.fields) && f in schema.fields
    requires GoodInputs(schema, inputs) && inputs.file.Some?
    ensures forall k <- inputs.file.value :: k == f.name || k == f.jsonName ==>
              FileEntry(schema, inputs, f) == Some(inputs.file.value[k])
    ensures f.name !in inputs.file.value && f.jsonName !in inputs.file.value ==> FileEntry(schema, inputs, f) == None
  {
    var raw, names := inputs.file.value, NamesOf(schema.fields);
    forall k <- raw
      ensures Canonical(k, names) == f.jsonName <==> k == f.name || k == f.jsonName
    {
      SpellingsOf(schema.fields, f, k);
    }
    assert f.jsonName in Overlay(raw, names) ==> Spelled(f.jsonName, raw.Keys, names);
  }

  // ---- which error is reported -----------------------------------------------------------------------------

  lemma {:induction false} FirstMissingIs(fields: seq<Field>, present: set<string>, name: string)
    ensures FirstMissing(fields, present) == Some(name)
            <==> exists n :: 0 <= n < |fields| && fields[n].required && fields[n].name == name && name !in present
                             && forall k :: 0 <= k < n && fields[k].required ==> fields[k].name in present
  {
    if fields != [] {
      var m := |fields| - 1;
      FirstMissingIs(fields[..m], present, name);
      FirstMissingNone(fields[..m], present);
      if n :| 0 <= n < |fields| && fields[n].required && fields[n].name == name && name !in present
              && forall k :: 0 <= k < n && fields[k].required ==> fields[k].name in present {
        assert n < m ==> fields[..m][n] == fields[n];
        assert forall f <- fields[..m] :: exists k :: 0 <= k < m && fields[k] == f;
      }
    }
  }

  /** Field `n` is the first required one that nothing supplies. */
  ghost predicate FirstUnsupplied(schema: Schema, inputs: Inputs, n: nat)
    requires GoodInputs(schema, inputs)
  {
    && n < |schema.fields| && schema.fields[n].required && !Supplied(schema, inputs, schema.fields[n])
    && forall k :: 0 <= k < n && schema.fields[k].required ==> Supplied(schema, inputs, schema.fields[k])
  }

  /** Why loading fails: the first phase that fails, and in it the first field. */
  ghost predicate Fails(schema: Schema, inputs: Inputs, e: LoadError) {
    var fields := schema.fields;
    if !Parses(fields, Defaults) then exists n: nat :: FirstBad(fields, Defaults, n, e)
    else if inputs.file.Some? && !GoodFile(schema, inputs.file.value) then e == BadFile
    else if !Parses(fields, Env(inputs.env)) then exists n: nat :: FirstBad(fields, Env(inputs.env), n, e)
    else if !Parses(fields, Flags(inputs.values)) then exists n: nat :: FirstBad(fields, Flags(inputs.values), n, e)
    else exists n: nat :: FirstUnsupplied(schema, inputs, n) && e == Missing(fields[n].name)
  }

  /** The error that loading reports. */
  lemma LoadErrors(schema: Schema, inputs: Inputs, e: LoadError)
    requires DistinctFields(schema.fields) && Faithful(schema.fields)
    ensures LoadOne(schema, inputs) == Err(e) <==> Fails(schema, inputs, e)
  {
    ApplyFails(schema.fields, Defaults, INITIAL, e);
    if Parses(schema.fields, Defaults) {
      var s1 := Apply(schema.fields, Defaults, INITIAL).value;
      if inputs.file.Some? {
        MergeFileEffect(schema, inputs.file.value, s1);
      }
      if ApplyFile(schema, inputs.file, s1).Ok? {
        LaterErrors(schema, inputs, e, s1, ApplyFile(schema, inputs.file, s1).value);
      }
    }
  }

  lemma LaterErrors(schema: Schema, inputs: Inputs, e: LoadError, s1: State, s2: State)
    requires DistinctFields(schema.fields) && Faithful(schema.fields)
    requires Apply(schema.fields, Defaults, INITIAL) == Ok(s1) && ApplyFile(schema, inputs.file, s1) == Ok(s2)
    requires Parses(schema.fields, Defaults) && (inputs.file.Some? ==> GoodFile(schema, inputs.file.value))
    ensures LoadOne(schema, inputs) == Err(e) <==> Fails(schema, inputs, e)
  {
    ApplyFails(schema.fields, Env(inputs.env), s2, e);
    if Parses(schema.fields, Env(inputs.env)) {
      var s3 := Apply(schema.fields, Env(inputs.env), s2).value;
      ApplyFails(schema.fields, Flags(inputs.values), s3, e);
      if Parses(schema.fields, Flags(inputs.values)) {
        var s4 := Apply(schema.fields, Flags(inputs.values), s3).value;
        PhasesEffect(schema, inputs, s1, s2, s3, s4);
        MissingErrors(schema, inputs, e, s4);
      }
    }
  }

  lemma MissingErrors(schema: Schema, inputs: Inputs, e: LoadError, s: State)
    requires GoodInputs(schema, inputs) && Final(schema, inputs, s)
    ensures (exists name :: FirstMissing(schema.fields, s.present) == Some(name) && e == Missing(name))
            <==> exists n: nat :: FirstUnsupplied(schema, inputs, n) && e == Missing(schema.fields[n].name)
  {
    var fields := schema.fields;
    forall name
      ensures FirstMissing(fields, s.present) == Some(name)
              <==> exists n: nat :: FirstUnsupplied(schema, inputs, n) && fields[n].name == name
    {
      FirstMissingIs(fields, s.present, name);
      UnsuppliedIsMissing(schema, inputs, s, name);
    }
  }

  lemma UnsuppliedIsMissing(schema: Schema, inputs: Inputs, s: State, name: string)
    requires GoodInputs(schema, inputs) && Final(schema, inputs, s)
    ensures (exists n: nat :: FirstUnsupplied(schema, inputs, n) && schema.fields[n].name == name)
            <==> exists n :: 0 <= n < |schema.fields| && schema.fields[n].required && schema.fields[n].name == name
                             && name !in s.present
                             && forall k :: 0 <= k < n && schema.fields[k].required ==>
                                  schema.fields[k].name in s.present
  {
    var fields := schema.fields;
    assert forall k :: 0 <= k < |fields| && fields[k].required ==>
        (fields[k].name in s.present <==> Supplied(schema, inputs, fields[k]));
    if n :| 0 <= n < |fields| && fields[n].required && fields[n].name == name && name !in s.present
            && forall k :: 0 <= k < n && fields[k].required ==> fields[k].name in s.present {
      assert FirstUnsupplied(schema, inputs, n);
    }
  }
}
