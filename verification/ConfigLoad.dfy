/** Loading one or several configs from argv, file and environment (`config/load.go`): config messages updated in
    place, phase by phase, proved to load each config as if it were alone with its own share of the values. */
module ConfigLoad {
  import opened Options
  import opened JsonOverlay
  import opened ConfigFields
  import B = Bootstrap

  // ---- a config message and its generated functions -----------------------------------------------------

  class ConfigMessage {
    const schema: Schema
    var values: map<string, Value>
    var present: set<string>

    constructor (schema: Schema)
      ensures this.schema == schema && Contents() == INITIAL
    {
      this.schema := schema;
      values, present := map[], {};
    }

    ghost function Contents(): State
      reads this
    {
      State(values, present)
    }

    /** `applyRuntimeConfigDefaults`, `applyRuntimeConfigEnvWith` and `applyRuntimeConfigBootstrap`. */
    method ApplyFrom(source: Source) returns (err: Option<LoadError>)
      modifies this
      ensures match Apply(schema.fields, source, old(Contents()))
              case Ok(s) => err == None && Contents() == s
              case Err(e) => err == Some(e)
    {
      var fields := schema.fields;
      for i := 0 to |fields|
        invariant Apply(fields[..i], source, old(Contents())) == Ok(Contents())
      {
        var f := fields[i];
        assert fields[..i + 1][..i] == fields[..i];
        var raw := RawOf(source, f);
        if raw.Some? {
          var v := f.codec.parse(raw.value);
          if v.None? {
            ApplyErrs(fields, i + 1, source, old(Contents()));
            return Some(BadValue(source, f.name));
          }
          values := values[f.name := v.value];
          if f.required {
            present := present + {f.name};
          }
        }
      }
      assert fields[..|fields|] == fields;
      return None;
    }

    /** `loadRuntimeConfigFile`, on the top-level object of the file. */
    method ApplyFile(raw: map<string, Json>) returns (err: Option<LoadError>)
      modifies this
      ensures match MergeFile(schema, raw, old(Contents()))
              case Ok(s) => err == None && Contents() == s
              case Err(e) => err == Some(e)
    {
      var names := NamesOf(schema.fields);
      var parsed := ParseOverlay(raw, names);
      if parsed.Err? {
        return Some(BadFile);
      }
      var overlay := parsed.value.overlay;
      var merged := MergeOverlay(CurrentJson(schema.fields, State(values, present)), overlay, schema.decoders);
      if merged.Err? {
        return Some(BadFile);
      }
      var decoded := Unmarshal(schema.fields, merged.value);
      if decoded.None? {
        return Some(BadFile);
      }
      values := decoded.value;
      present := present + RequiredIn(schema.fields, parsed.value.present);
      return None;
    }

    /** `validateRuntimeConfigRequired`. */
    method ValidateRequired() returns (err: Option<LoadError>)
      ensures match FirstMissing(schema.fields, present)
              case None => err == None
              case Some(name) => err == Some(Missing(name))
    {
      var fields := schema.fields;
      for i := 0 to |fields|
        invariant FirstMissing(fields[..i], present) == None
      {
        assert fields[..i + 1][..i] == fields[..i];
        if fields[i].required && fields[i].name !in present {
          FirstMissingSticks(fields, i + 1, present);
          return Some(Missing(fields[i].name));
        }
      }
      assert fields[..|fields|] == fields;
      return None;
    }
  }

  lemma {:induction false} ApplyErrs(fields: seq<Field>, n: nat, source: Source, s: State)
    requires n <= |fields| && Apply(fields[..n], source, s).Err?
    ensures Apply(fields, source, s) == Apply(fields[..n], source, s)
    decreases |fields| - n
  {
    if n < |fields| {
      assert fields[..n + 1][..n] == fields[..n];
      ApplyErrs(fields, n + 1, source, s);
    } else {
      assert fields[..n] == fields;
    }
  }

  lemma {:induction false} FirstMissingSticks(fields: seq<Field>, n: nat, present: set<string>)
    requires n <= |fields| && FirstMissing(fields[..n], present).Some?
    ensures FirstMissing(fields, present) == FirstMissing(fields[..n], present)
    decreases |fields| - n
  {
    if n < |fields| {
      assert fields[..n + 1][..n] == fields[..n];
      FirstMissingSticks(fields, n + 1, present);
    } else {
      assert fields[..n] == fields;
    }
  }

  // ---- detectConflicts ---------------------------------------------------------------------------------------

  function EnvNames(fields: seq<Field>): set<string> {
    if fields == [] then {}
    else
      var last := fields[|fields| - 1];
      EnvNames(fields[..|fields| - 1]) + if last.env.Some? then {last.env.value} else {}
  }

  function FlagNames(fields: seq<Field>): seq<string> {
    if fields == [] then []
    else
      var last := fields[|fields| - 1];
      FlagNames(fields[..|fields| - 1]) + if last.flag.Some? then [last.flag.value] else []
  }

  function AllEnv(schemas: seq<Schema>): set<string> {
    if schemas == [] then {} else AllEnv(schemas[..|schemas| - 1]) + EnvNames(schemas[|schemas| - 1].fields)
  }

  function AllFlags(schemas: seq<Schema>): seq<string> {
    if schemas == [] then [] else AllFlags(schemas[..|schemas| - 1]) + FlagNames(schemas[|schemas| - 1].fields)
  }

  predicate NoRepeat(s: seq<string>) { forall i, j :: 0 <= i < j < |s| ==> s[i] != s[j] }

  function Elements(s: seq<string>): set<string> { set x | x in s }

  /** The last config shares nothing with those before it, nor they among themselves. */
  predicate Clean(schemas: seq<Schema>) {
    schemas != [] ==>
      var front, fields := schemas[..|schemas| - 1], schemas[|schemas| - 1].fields;
      && Clean(front) && EnvNames(fields) !! AllEnv(front)
      && NoRepeat(FlagNames(fields)) && Elements(FlagNames(fields)) !! Elements(AllFlags(front))
  }

  ghost predicate EnvApart(schemas: seq<Schema>) {
    forall i, j :: 0 <= i < j < |schemas| ==> EnvNames(schemas[i].fields) !! EnvNames(schemas[j].fields)
  }

  /** No environment variable belongs to fields of two configs, and no flag to two fields; a single config is not
      checked. */
  ghost predicate NoConflicts(schemas: seq<Schema>) {
    |schemas| <= 1 ||
    (&& (forall i, j :: 0 <= i < j < |schemas| ==> NothingShared(schemas[i].fields, schemas[j].fields))
     && (forall i :: 0 <= i < |schemas| ==> FlagsOnce(schemas[i].fields)))
  }

  ghost predicate NothingShared(a: seq<Field>, b: seq<Field>) {
    forall f, g :: f in a && g in b ==> (f.env.Some? ==> f.env != g.env) && (f.flag.Some? ==> f.flag != g.flag)
  }

  ghost predicate FlagsOnce(fields: seq<Field>) {
    forall a, b :: 0 <= a < b < |fields| && fields[a].flag.Some? ==> fields[a].flag != fields[b].flag
  }

  lemma {:induction false} NamesAre(fields: seq<Field>, name: string)
    ensures name in EnvNames(fields) <==> exists f :: f in fields && f.env == Some(name)
    ensures name in FlagNames(fields) <==> exists f :: f in fields && f.flag == Some(name)
  {
    if fields != [] {
      NamesAre(fields[..|fields| - 1], name);
      assert fields == fields[..|fields| - 1] + [fields[|fields| - 1]];
    }
  }

  lemma NoRepeatConcat(a: seq<string>, b: seq<string>)
    ensures NoRepeat(a + b) <==> NoRepeat(a) && NoRepeat(b) && Elements(a) !! Elements(b)
  {
    var s := a + b;
    assert forall i :: 0 <= i < |a| ==> s[i] == a[i];
    assert forall i :: 0 <= i < |b| ==> s[|a| + i] == b[i];
    if NoRepeat(s) {
      forall x <- Elements(a)
        ensures x !in Elements(b)
      {
        var i :| 0 <= i < |a| && a[i] == x;
        assert s[i] == x;
      }
    }
    if NoRepeat(a) && NoRepeat(b) && Elements(a) !! Elements(b) {
      forall i, j | 0 <= i < j < |s|
        ensures s[i] != s[j]
      {
        assert i < |a| <= j ==> s[i] in Elements(a) && s[j] in Elements(b);
        assert |a| <= i ==> s[i] == b[i - |a|] && s[j] == b[j - |a|];
      }
    }
  }

  lemma {:induction false} FlagsOnceIs(fields: seq<Field>)
    ensures NoRepeat(FlagNames(fields)) <==> FlagsOnce(fields)
  {
    if fields != [] {
      var front, last := fields[..|fields| - 1], fields[|fields| - 1];
      FlagsOnceIs(front);
      assert forall k :: 0 <= k < |front| ==> fields[k] == front[k];
      assert FlagsOnce(fields)
        <==> FlagsOnce(front) && (last.flag.Some? ==> forall k :: 0 <= k < |front| ==> front[k].flag != last.flag);
      if last.flag.Some? {
        NoRepeatConcat(FlagNames(front), [last.flag.value]);
        var name := last.flag.value;
        NamesAre(front, name);
        assert NoRepeat([name]) && Elements([name]) == {name};
        assert name in FlagNames(front) <==> exists k :: 0 <= k < |front| && front[k].flag == last.flag;
      } else {
        assert FlagNames(front) + [] == FlagNames(front);
      }
    }
  }

  lemma SharedNames(a: seq<Field>, b: seq<Field>)
    ensures NothingShared(a, b)
            <==> EnvNames(a) !! EnvNames(b) && Elements(FlagNames(a)) !! Elements(FlagNames(b))
  {
    forall name
      ensures name in EnvNames(a) <==> exists f :: f in a && f.env == Some(name)
      ensures name in EnvNames(b) <==> exists f :: f in b && f.env == Some(name)
      ensures name in FlagNames(a) <==> exists f :: f in a && f.flag == Some(name)
      ensures name in FlagNames(b) <==> exists f :: f in b && f.flag == Some(name)
    {
      NamesAre(a, name);
      NamesAre(b, name);
    }
    if EnvNames(a) !! EnvNames(b) && Elements(FlagNames(a)) !! Elements(FlagNames(b)) {
      forall f, g | f in a && g in b
        ensures (f.env.Some? ==> f.env != g.env) && (f.flag.Some? ==> f.flag != g.flag)
      {
        assert f.env.Some? ==> f.env.value in EnvNames(a);
        assert f.flag.Some? ==> f.flag.value in Elements(FlagNames(a));
      }
    }
  }

  lemma {:induction false} AllFlagsAre(schemas: seq<Schema>, name: string)
    ensures name in AllFlags(schemas) <==> exists i :: 0 <= i < |schemas| && name in FlagNames(schemas[i].fields)
  {
    if schemas != [] {
      var front, last := schemas[..|schemas| - 1], schemas[|schemas| - 1];
      AllFlagsAre(front, name);
      assert schemas == front + [last];
      if i :| 0 <= i < |front| && name in FlagNames(front[i].fields) {
        assert name in FlagNames(schemas[i].fields);
      }
      if i :| 0 <= i < |schemas| && name in FlagNames(schemas[i].fields) {
        assert i < |front| ==> name in FlagNames(front[i].fields);
      }
    }
  }

  ghost predicate FlagsApart(schemas: seq<Schema>) {
    forall i, j :: 0 <= i < j < |schemas| ==>
      Elements(FlagNames(schemas[i].fields)) !! Elements(FlagNames(schemas[j].fields))
  }

  ghost predicate EachOnce(schemas: seq<Schema>) {
    forall i :: 0 <= i < |schemas| ==> NoRepeat(FlagNames(schemas[i].fields))
  }

  lemma {:induction false} AllFlagsOnce(schemas: seq<Schema>)
    ensures NoRepeat(AllFlags(schemas)) <==> EachOnce(schemas) && FlagsApart(schemas)
  {
    if schemas != [] {
      var front, last := schemas[..|schemas| - 1], schemas[|schemas| - 1];
      assert schemas == front + [last];
      AllFlagsOnce(front);
      NoRepeatConcat(AllFlags(front), FlagNames(last.fields));
      FlagsApartStep(front, last);
    }
  }

  lemma FlagsApartStep(front: seq<Schema>, last: Schema)
    ensures EachOnce(front + [last]) <==> EachOnce(front) && NoRepeat(FlagNames(last.fields))
    ensures FlagsApart(front + [last])
            <==> FlagsApart(front) && Elements(AllFlags(front)) !! Elements(FlagNames(last.fields))
  {
    var schemas := front + [last];
    FrontFlags(front, last.fields);
    assert forall k :: 0 <= k < |front| ==> schemas[k] == front[k];
    assert schemas[|front|] == last;
  }

  lemma FrontFlags(front: seq<Schema>, fields: seq<Field>)
    ensures Elements(AllFlags(front)) !! Elements(FlagNames(fields))
            <==> forall i :: 0 <= i < |front| ==> Elements(FlagNames(front[i].fields)) !! Elements(FlagNames(fields))
  {
    forall name
      ensures name in AllFlags(front) <==> exists i :: 0 <= i < |front| && name in FlagNames(front[i].fields)
    {
      AllFlagsAre(front, name);
    }
  }

  lemma ConflictsAre(schemas: seq<Schema>)
    ensures NoConflicts(schemas) <==> |schemas| <= 1 || (EnvApart(schemas) && NoRepeat(AllFlags(schemas)))
  {
    AllFlagsOnce(schemas);
    forall i | 0 <= i < |schemas|
      ensures NoRepeat(FlagNames(schemas[i].fields)) <==> FlagsOnce(schemas[i].fields)
    {
      FlagsOnceIs(schemas[i].fields);
    }
    forall i, j | 0 <= i < j < |schemas|
      ensures NothingShared(schemas[i].fields, schemas[j].fields)
              <==> && EnvNames(schemas[i].fields) !! EnvNames(schemas[j].fields)
                   && Elements(FlagNames(schemas[i].fields)) !! Elements(FlagNames(schemas[j].fields))
    {
      SharedNames(schemas[i].fields, schemas[j].fields);
    }
  }

  method DetectConflicts(schemas: seq<Schema>) returns (conflict: bool)
    ensures conflict <==> !NoConflicts(schemas)
  {
    ConflictsAre(schemas);
    if |schemas| <= 1 {
      return false;
    }
    CleanIs(schemas);
    var envSeen, flagSeen := {}, {};
    for i := 0 to |schemas|
      invariant Clean(schemas[..i]) && envSeen == AllEnv(schemas[..i]) && flagSeen == Elements(AllFlags(schemas[..i]))
    {
      CleanNext(schemas, i);
      conflict, envSeen, flagSeen := CheckSpec(schemas[i].fields, envSeen, flagSeen);
      if conflict {
        return;
      }
    }
    assert schemas[..|schemas|] == schemas;
    return false;
  }

  lemma CleanNext(schemas: seq<Schema>, i: nat)
    requires i < |schemas| && Clean(schemas[..i])
    ensures var fields := schemas[i].fields;
            && AllEnv(schemas[..i + 1]) == AllEnv(schemas[..i]) + EnvNames(fields)
            && Elements(AllFlags(schemas[..i + 1])) == Elements(AllFlags(schemas[..i])) + Elements(FlagNames(fields))
            && (Clean(schemas[..i + 1])
                <==> && EnvNames(fields) !! AllEnv(schemas[..i]) && NoRepeat(FlagNames(fields))
                     && Elements(FlagNames(fields)) !! Elements(AllFlags(schemas[..i])))
    ensures !Clean(schemas[..i + 1]) ==> !Clean(schemas)
  {
    assert schemas[..i + 1][..i] == schemas[..i];
    ElementsConcat(AllFlags(schemas[..i]), FlagNames(schemas[i].fields));
    if !Clean(schemas[..i + 1]) {
      NotCleanSticks(schemas, i + 1);
    }
  }

  /** One round of the loop; the environment names of a spec are a map's keys, in any order. */
  method CheckSpec(fields: seq<Field>, envSeen: set<string>, flagSeen: set<string>)
    returns (conflict: bool, envs: set<string>, flags: set<string>)
    ensures conflict <==> !(EnvNames(fields) !! envSeen && NoRepeat(FlagNames(fields))
                            && Elements(FlagNames(fields)) !! flagSeen)
    ensures !conflict ==> envs == envSeen + EnvNames(fields) && flags == flagSeen + Elements(FlagNames(fields))
  {
    envs, flags := envSeen, flagSeen;
    var names := EnvNames(fields);
    var todo := names;
    while todo != {}
      invariant todo <= names && envs == envSeen + (names - todo) && (names - todo) !! envSeen
      decreases todo
    {
      var name :| name in todo;
      Visited(names, todo, name);
      todo := todo - {name};
      if name in envs {
        return true, envs, flags;
      }
      envs := envs + {name};
    }
    var declared := FlagNames(fields);
    for j := 0 to |declared|
      invariant flags == flagSeen + Elements(declared[..j])
      invariant NoRepeat(declared[..j]) && Elements(declared[..j]) !! flagSeen
    {
      assert declared[..j + 1] == declared[..j] + [declared[j]];
      ElementsConcat(declared[..j], [declared[j]]);
      if declared[j] in flags {
        assert declared[j] in Elements(declared);
        return true, envs, flags;
      }
      flags := flags + {declared[j]};
    }
    assert declared[..|declared|] == declared;
    return false, envs, flags;
  }

  lemma ElementsConcat(a: seq<string>, b: seq<string>)
    ensures Elements(a + b) == Elements(a) + Elements(b)
  {
  }

  lemma {:induction false} NotCleanSticks(schemas: seq<Schema>, n: nat)
    requires n <= |schemas| && !Clean(schemas[..n])
    ensures !Clean(schemas)
    decreases |schemas| - n
  {
    if n < |schemas| {
      assert schemas[..n + 1][..n] == schemas[..n];
      NotCleanSticks(schemas, n + 1);
    } else {
      assert schemas[..n] == schemas;
    }
  }

  lemma {:induction false} AllEnvIs(schemas: seq<Schema>)
    ensures forall e :: e in AllEnv(schemas) <==> exists i :: 0 <= i < |schemas| && e in EnvNames(schemas[i].fields)
  {
    if schemas != [] {
      var front := schemas[..|schemas| - 1];
      AllEnvIs(front);
      assert forall i :: 0 <= i < |front| ==> schemas[i] == front[i];
    }
  }

  lemma {:induction false} CleanIs(schemas: seq<Schema>)
    ensures Clean(schemas) <==> EnvApart(schemas) && NoRepeat(AllFlags(schemas))
  {
    if schemas != [] {
      var front, last := schemas[..|schemas| - 1], schemas[|schemas| - 1];
      CleanIs(front);
      NoRepeatConcat(AllFlags(front), FlagNames(last.fields));
      EnvApartStep(front, last);
      assert schemas == front + [last];
    }
  }

  lemma EnvApartStep(front: seq<Schema>, last: Schema)
    ensures EnvApart(front + [last]) <==> EnvApart(front) && EnvNames(last.fields) !! AllEnv(front)
  {
    var schemas := front + [last];
    AllEnvIs(front);
    assert forall i :: 0 <= i < |front| ==> schemas[i] == front[i];
    assert schemas[|front|] == last;
    if EnvApart(schemas) {
      forall e <- AllEnv(front)
        ensures e !in EnvNames(last.fields)
      {
        var i :| 0 <= i < |front| && e in EnvNames(front[i].fields);
        assert EnvNames(schemas[i].fields) !! EnvNames(schemas[|front|].fields);
      }
      forall i, j | 0 <= i < j < |front|
        ensures EnvNames(front[i].fields) !! EnvNames(front[j].fields)
      {
        assert EnvNames(schemas[i].fields) !! EnvNames(schemas[j].fields);
      }
    }
  }

  // ---- loadInto, as a function ---------------------------------------------------------------------------------

  /** One source over all configs, up to the first error. */
  function ApplyAll(schemas: seq<Schema>, source: Source, states: seq<State>): (r: Result<seq<State>, LoadError>)
    requires |states| == |schemas|
    ensures r.Ok? ==> |r.value| == |schemas|
  {
    if schemas == [] then Ok([])
    else
      var n := |schemas| - 1;
      match ApplyAll(schemas[..n], source, states[..n])
      case Err(e) => Err(e)
      case Ok(done) =>
        match Apply(schemas[n].fields, source, states[n])
        case Err(e) => Err(e)
        case Ok(s) => Ok(done + [s])
  }

  function ValidateAll(schemas: seq<Schema>, states: seq<State>): Option<LoadError>
    requires |states| == |schemas|
  {
    if schemas == [] then None
    else
      var n := |schemas| - 1;
      match ValidateAll(schemas[..n], states[..n])
      case Some(e) => Some(e)
      case None =>
        match FirstMissing(schemas[n].fields, states[n].present)
        case Some(name) => Some(Missing(name))
        case None => None
  }

  /** What reading a file and parsing it as JSON makes of a path: the top-level object, if there is one. */
  type Files = string -> Option<map<string, Json>>

  /** `applyConfigFile`. */
  ghost function FilePhase(schemas: seq<Schema>, path: string, files: Files, states: seq<State>)
    : (r: Result<seq<State>, LoadError>)
    requires |states| == |schemas| > 0
    ensures r.Ok? ==> |r.value| == |schemas|
  {
    if path == "" then Ok(states)
    else if |schemas| > 1 then Err(CompositeConfig)
    else if files(path).None? then Err(BadFile)
    else
      match ApplyFile(schemas[0], files(path), states[0])
      case Err(e) => Err(e)
      case Ok(s) => Ok([s])
  }

  function BootstrapSpecs(schemas: seq<Schema>): seq<Option<string>> {
    var flags := AllFlags(schemas);
    seq(|flags|, i requires 0 <= i < |flags| => Some(flags[i]))
  }

  function Initial(schemas: seq<Schema>): seq<State> { seq(|schemas|, i requires 0 <= i < |schemas| => INITIAL) }

  datatype Loaded = Loaded(states: seq<State>, rest: seq<string>)

  /** The environment, the bootstrap values and the file, as they reach the phases after argv has been parsed. */
  ghost function LaterPhases(schemas: seq<Schema>, args: B.Parsed, env: map<string, string>, files: Files,
                             states: seq<State>)
    : Result<Loaded, LoadError>
    requires |states| == |schemas| > 0
  {
    match FilePhase(schemas, args.configPath, files, states)
    case Err(e) => Err(e)
    case Ok(states) =>
      match ApplyAll(schemas, Env(env), states)
      case Err(e) => Err(e)
      case Ok(states) =>
        match ApplyAll(schemas, Flags(args.values), states)
        case Err(e) => Err(e)
        case Ok(states) =>
          match ValidateAll(schemas, states)
          case Some(e) => Err(e)
          case None => Ok(Loaded(states, args.rest))
  }

  ghost function LoadAll(schemas: seq<Schema>, argv: seq<string>, env: map<string, string>, files: Files)
    : Result<Loaded, LoadError>
    requires |schemas| > 0
  {
    if !NoConflicts(schemas) then Err(Conflict)
    else
      match ApplyAll(schemas, Defaults, Initial(schemas))
      case Err(e) => Err(e)
      case Ok(states) =>
        match B.Parse(argv, BootstrapSpecs(schemas))
        case Err(_) => Err(BadArgs)
        case Ok(args) => LaterPhases(schemas, args, env, files, states)
  }

  // ---- loadInto, in place ------------------------------------------------------------------------------------------

  ghost function Schemas(specs: seq<ConfigMessage>): seq<Schema> {
    seq(|specs|, i requires 0 <= i < |specs| => specs[i].schema)
  }

  ghost function ContentsOf(specs: seq<ConfigMessage>): seq<State>
    reads specs
  {
    seq(|specs|, i requires 0 <= i < |specs| reads specs => specs[i].Contents())
  }

  ghost predicate Distinct(specs: seq<ConfigMessage>) {
    forall i, j :: 0 <= i < j < |specs| ==> specs[i] != specs[j]
  }

  lemma {:induction false} ApplyAllErrs(schemas: seq<Schema>, n: nat, source: Source, states: seq<State>)
    requires n <= |schemas| == |states| && ApplyAll(schemas[..n], source, states[..n]).Err?
    ensures ApplyAll(schemas, source, states) == ApplyAll(schemas[..n], source, states[..n])
    decreases |schemas| - n
  {
    if n < |schemas| {
      assert schemas[..n + 1][..n] == schemas[..n] && states[..n + 1][..n] == states[..n];
      ApplyAllErrs(schemas, n + 1, source, states);
    } else {
      assert schemas[..n] == schemas && states[..n] == states;
    }
  }

  /** `applyAllDefaults`, `applyAllEnv` and `applyAllBootstrap`. */
  method ApplyAllFrom(specs: seq<ConfigMessage>, source: Source) returns (err: Option<LoadError>)
    requires Distinct(specs)
    modifies specs
    ensures match ApplyAll(Schemas(specs), source, old(ContentsOf(specs)))
            case Ok(states) => err == None && ContentsOf(specs) == states
            case Err(e) => err == Some(e)
  {
    ghost var states := ContentsOf(specs);
    ghost var done;
    err, done := ApplyEach(specs, source, Schemas(specs), states);
    if err.None? {
      assert ContentsOf(specs) == done;
    }
  }

  method ApplyEach(specs: seq<ConfigMessage>, source: Source, ghost schemas: seq<Schema>, ghost states: seq<State>)
    returns (err: Option<LoadError>, ghost done: seq<State>)
    requires Distinct(specs) && schemas == Schemas(specs) && |states| == |specs| && HalfDone(specs, [], states)
    modifies specs
    ensures err.None? ==>
              ApplyAll(schemas, source, states) == Ok(done) && |done| == |specs| && HalfDone(specs, done, states)
    ensures err.Some? ==> ApplyAll(schemas, source, states) == Err(err.value)
  {
    done := [];
    for i := 0 to |specs|
      invariant ApplyAll(schemas[..i], source, states[..i]) == Ok(done) && |done| == i
      invariant HalfDone(specs, done, states)
    {
      assert schemas[i] == specs[i].schema;
      ApplyAllNext(schemas, i, source, states, done);
      err := ApplyTo(specs, i, source, done, states);
      if err.Some? {
        return;
      }
      done := done + [Apply(specs[i].schema.fields, source, states[i]).value];
    }
    assert schemas[..|specs|] == schemas && states[..|specs|] == states;
    err := None;
  }

  /** The first configs have their new state, the others the old one. */
  ghost predicate HalfDone(specs: seq<ConfigMessage>, done: seq<State>, states: seq<State>)
    requires |done| <= |specs| == |states|
    reads specs
  {
    forall j :: 0 <= j < |specs| ==> specs[j].Contents() == if j < |done| then done[j] else states[j]
  }

  method ApplyTo(specs: seq<ConfigMessage>, i: nat, source: Source, ghost done: seq<State>, ghost states: seq<State>)
    returns (err: Option<LoadError>)
    requires Distinct(specs) && i < |specs| == |states| && |done| == i && HalfDone(specs, done, states)
    modifies specs[i]
    ensures match Apply(specs[i].schema.fields, source, states[i])
            case Ok(s) => err == None && specs[i].Contents() == s && HalfDone(specs, done + [s], states)
            case Err(e) => err == Some(e)
  {
    var spec := specs[i];
    assert spec.Contents() == states[i];
    err := spec.ApplyFrom(source);
    assert forall j :: 0 <= j < |specs| && j != i ==> specs[j] != spec;
  }

  lemma ApplyAllNext(schemas: seq<Schema>, i: nat, source: Source, states: seq<State>, done: seq<State>)
    requires i < |schemas| == |states| && ApplyAll(schemas[..i], source, states[..i]) == Ok(done)
    ensures match Apply(schemas[i].fields, source, states[i])
            case Ok(s) => ApplyAll(schemas[..i + 1], source, states[..i + 1]) == Ok(done + [s])
            case Err(e) => ApplyAll(schemas, source, states) == Err(e)
  {
    assert schemas[..i + 1][..i] == schemas[..i] && states[..i + 1][..i] == states[..i];
    if Apply(schemas[i].fields, source, states[i]).Err? {
      ApplyAllErrs(schemas, i + 1, source, states);
    }
  }

  lemma {:induction false} ValidateAllSticks(schemas: seq<Schema>, n: nat, states: seq<State>)
    requires n <= |schemas| == |states| && ValidateAll(schemas[..n], states[..n]).Some?
    ensures ValidateAll(schemas, states) == ValidateAll(schemas[..n], states[..n])
    decreases |schemas| - n
  {
    if n < |schemas| {
      assert schemas[..n + 1][..n] == schemas[..n] && states[..n + 1][..n] == states[..n];
      ValidateAllSticks(schemas, n + 1, states);
    } else {
      assert schemas[..n] == schemas && states[..n] == states;
    }
  }

  /** `validateAllRequired`. */
  method ValidateAllRequired(specs: seq<ConfigMessage>) returns (err: Option<LoadError>)
    ensures err == ValidateAll(Schemas(specs), ContentsOf(specs))
  {
    ghost var schemas, states := Schemas(specs), ContentsOf(specs);
    for i := 0 to |specs|
      invariant ValidateAll(schemas[..i], states[..i]) == None
    {
      assert schemas[..i + 1][..i] == schemas[..i] && states[..i + 1][..i] == states[..i];
      err := specs[i].ValidateRequired();
      if err.Some? {
        ValidateAllSticks(schemas, i + 1, states);
        return;
      }
    }
    assert schemas[..|specs|] == schemas && states[..|specs|] == states;
    return None;
  }

  /** `applyConfigFile`. */
  method ApplyConfigFile(specs: seq<ConfigMessage>, path: string, files: Files) returns (err: Option<LoadError>)
    requires |specs| > 0
    modifies specs
    ensures match FilePhase(Schemas(specs), path, files, old(ContentsOf(specs)))
            case Ok(states) => err == None && ContentsOf(specs) == states
            case Err(e) => err == Some(e)
  {
    if path == "" {
      return None;
    }
    if |specs| > 1 {
      return Some(CompositeConfig);
    }
    var file := files(path);
    if file.None? {
      return Some(BadFile);
    }
    err := specs[0].ApplyFile(file.value);
    assert err.None? ==> ContentsOf(specs) == [specs[0].Contents()];
  }

  /** `loadInto`, on freshly created configs. */
  method LoadInto(specs: seq<ConfigMessage>, schemas: seq<Schema>, argv: seq<string>, env: map<string, string>,
                  files: Files)
    returns (r: Result<seq<string>, LoadError>)
    requires |specs| > 0 && Distinct(specs) && schemas == Schemas(specs) && ContentsOf(specs) == Initial(schemas)
    modifies specs
    ensures match r
            case Ok(rest) => LoadAll(schemas, argv, env, files) == Ok(Loaded(ContentsOf(specs), rest))
            case Err(e) => LoadAll(schemas, argv, env, files) == Err(e)
  {
    var conflict := DetectConflicts(schemas);
    if conflict {
      return Err(Conflict);
    }
    var err := ApplyAllFrom(specs, Defaults);
    if err.Some? {
      return Err(err.value);
    }
    var parsed := B.ParseBootstrapArgs(argv, BootstrapSpecs(schemas));
    if parsed.Err? {
      return Err(BadArgs);
    }
    var path, values, rest := parsed.value.configPath, parsed.value.values, parsed.value.rest;
    err := ApplyConfigFile(specs, path, files);
    if err.Some? {
      return Err(err.value);
    }
    err := ApplyAllFrom(specs, Env(env));
    if err.Some? {
      return Err(err.value);
    }
    err := ApplyAllFrom(specs, Flags(values));
    if err.Some? {
      return Err(err.value);
    }
    err := ValidateAllRequired(specs);
    if err.Some? {
      return Err(err.value);
    }
    return Ok(rest);
  }

  // ---- each config alone, with its own share ----------------------------------------------------

  function Share(vars: map<string, string>, keys: set<string>): map<string, string> {
    map k | k in vars && k in keys :: vars[k]
  }

  function FileAt(path: string, files: Files): Option<map<string, Json>> {
    if path == "" then None else files(path)
  }

  /** What reaches one config of several: its own variables and its own flags. */
  function InputsOf(schema: Schema, args: B.Parsed, env: map<string, string>, files: Files): Inputs {
    Inputs(FileAt(args.configPath, files),
           Share(env, EnvNames(schema.fields)),
           Share(args.values, Elements(FlagNames(schema.fields))))
  }

  lemma {:induction false} ApplySame(fields: seq<Field>, source: Source, other: Source, s: State)
    requires forall f <- fields ::
               RawOf(source, f) == RawOf(other, f) && BadValue(source, f.name) == BadValue(other, f.name)
    ensures Apply(fields, source, s) == Apply(fields, other, s)
  {
    if fields != [] {
      ApplySame(fields[..|fields| - 1], source, other, s);
    }
  }

  lemma {:induction false} OwnNames(fields: seq<Field>)
    ensures forall f <- fields :: f.env.Some? ==> f.env.value in EnvNames(fields)
    ensures forall f <- fields :: f.flag.Some? ==> f.flag.value in FlagNames(fields)
  {
    if fields != [] {
      OwnNames(fields[..|fields| - 1]);
      assert fields == fields[..|fields| - 1] + [fields[|fields| - 1]];
    }
  }

  lemma OwnShareSuffices(schema: Schema, vars: map<string, string>, s: State)
    ensures Apply(schema.fields, Env(Share(vars, EnvNames(schema.fields))), s) == Apply(schema.fields, Env(vars), s)
    ensures Apply(schema.fields, Flags(Share(vars, Elements(FlagNames(schema.fields)))), s)
            == Apply(schema.fields, Flags(vars), s)
  {
    OwnNames(schema.fields);
    ApplySame(schema.fields, Env(Share(vars, EnvNames(schema.fields))), Env(vars), s);
    ApplySame(schema.fields, Flags(Share(vars, Elements(FlagNames(schema.fields)))), Flags(vars), s);
  }

  lemma {:induction false} ApplyAllEach(schemas: seq<Schema>, source: Source, states: seq<State>)
    requires |states| == |schemas|
    ensures ApplyAll(schemas, source, states).Ok?
            <==> forall i :: 0 <= i < |schemas| ==> Apply(schemas[i].fields, source, states[i]).Ok?
    ensures ApplyAll(schemas, source, states).Ok? ==>
              forall i :: 0 <= i < |schemas| ==>
                Apply(schemas[i].fields, source, states[i]) == Ok(ApplyAll(schemas, source, states).value[i])
  {
    if schemas != [] {
      var n := |schemas| - 1;
      ApplyAllEach(schemas[..n], source, states[..n]);
      forall i | 0 <= i < n
        ensures Apply(schemas[i].fields, source, states[i]) == Apply(schemas[..n][i].fields, source, states[..n][i])
      {
      }
    }
  }

  lemma {:induction false} ValidateAllEach(schemas: seq<Schema>, states: seq<State>)
    requires |states| == |schemas|
    ensures ValidateAll(schemas, states).None?
            <==> forall i :: 0 <= i < |schemas| ==> FirstMissing(schemas[i].fields, states[i].present).None?
  {
    if schemas != [] {
      var n := |schemas| - 1;
      ValidateAllEach(schemas[..n], states[..n]);
      forall i | 0 <= i < n
        ensures FirstMissing(schemas[i].fields, states[i].present)
                == FirstMissing(schemas[..n][i].fields, states[..n][i].present)
      {
      }
    }
  }

  /** The file can be used: none is asked for, or there is a single config and the file can be read. */
  predicate FileUsable(schemas: seq<Schema>, path: string, files: Files) {
    path == "" || (|schemas| == 1 && files(path).Some?)
  }

  /** What the file phase does, config by config. */
  ghost predicate FileApplied(schemas: seq<Schema>, file: Option<map<string, Json>>, states: seq<State>,
                              after: seq<State>)
    requires |states| == |schemas| == |after|
  {
    forall i :: 0 <= i < |schemas| ==> ApplyFile(schemas[i], file, states[i]) == Ok(after[i])
  }

  lemma FilePhaseEach(schemas: seq<Schema>, path: string, files: Files, states: seq<State>)
    requires |states| == |schemas| > 0
    ensures FilePhase(schemas, path, files, states).Ok?
            ==> FileUsable(schemas, path, files)
                && FileApplied(schemas, FileAt(path, files), states, FilePhase(schemas, path, files, states).value)
  {
  }

  lemma FileAppliedIsPhase(schemas: seq<Schema>, path: string, files: Files, states: seq<State>, after: seq<State>)
    requires |states| == |schemas| == |after| && |schemas| > 0
    requires FileUsable(schemas, path, files) && FileApplied(schemas, FileAt(path, files), states, after)
    ensures FilePhase(schemas, path, files, states) == Ok(after)
  {
    assert ApplyFile(schemas[0], FileAt(path, files), states[0]) == Ok(after[0]);
    if path == "" {
      assert states == after;
    } else {
      assert [after[0]] == after;
    }
  }

  ghost predicate LoadsAlone(schemas: seq<Schema>, args: B.Parsed, env: map<string, string>, files: Files,
                             states: seq<State>)
  {
    |states| == |schemas| &&
    forall i :: 0 <= i < |schemas| ==> LoadOne(schemas[i], InputsOf(schemas[i], args, env, files)) == Ok(states[i])
  }

  /** One config's run through the phases, stage by stage. */
  ghost predicate Stages(schema: Schema, args: B.Parsed, env: map<string, string>, files: Files, s1: State, s2: State,
                         s3: State, s4: State)
  {
    && Apply(schema.fields, Defaults, INITIAL) == Ok(s1)
    && ApplyFile(schema, FileAt(args.configPath, files), s1) == Ok(s2)
    && Apply(schema.fields, Env(env), s2) == Ok(s3)
    && Apply(schema.fields, Flags(args.values), s3) == Ok(s4)
    && FirstMissing(schema.fields, s4.present) == None
  }

  lemma StagesLoad(schema: Schema, args: B.Parsed, env: map<string, string>, files: Files, s4: State)
    ensures LoadOne(schema, InputsOf(schema, args, env, files)) == Ok(s4)
            <==> exists s1, s2, s3 :: Stages(schema, args, env, files, s1, s2, s3, s4)
  {
    var inputs := InputsOf(schema, args, env, files);
    forall s
      ensures Apply(schema.fields, Env(inputs.env), s) == Apply(schema.fields, Env(env), s)
      ensures Apply(schema.fields, Flags(inputs.values), s) == Apply(schema.fields, Flags(args.values), s)
    {
      OwnShareSuffices(schema, env, s);
      OwnShareSuffices(schema, args.values, s);
    }
    if LoadOne(schema, inputs) == Ok(s4) {
      var s1 := Apply(schema.fields, Defaults, INITIAL).value;
      var s2 := ApplyFile(schema, inputs.file, s1).value;
      var s3 := Apply(schema.fields, Env(env), s2).value;
      assert Stages(schema, args, env, files, s1, s2, s3, s4);
    }
  }

  lemma PhasesLoadAlone(schemas: seq<Schema>, args: B.Parsed, env: map<string, string>, files: Files, s1: seq<State>,
                        loaded: Loaded)
    requires |schemas| > 0 && ApplyAll(schemas, Defaults, Initial(schemas)) == Ok(s1)
    requires LaterPhases(schemas, args, env, files, s1) == Ok(loaded)
    ensures FileUsable(schemas, args.configPath, files) && loaded.rest == args.rest
    ensures LoadsAlone(schemas, args, env, files, loaded.states)
  {
    var s2 := FilePhase(schemas, args.configPath, files, s1).value;
    var s3 := ApplyAll(schemas, Env(env), s2).value;
    var s4 := ApplyAll(schemas, Flags(args.values), s3).value;
    ApplyAllEach(schemas, Defaults, Initial(schemas));
    FilePhaseEach(schemas, args.configPath, files, s1);
    ApplyAllEach(schemas, Env(env), s2);
    ApplyAllEach(schemas, Flags(args.values), s3);
    ValidateAllEach(schemas, s4);
    forall i | 0 <= i < |schemas|
      ensures LoadOne(schemas[i], InputsOf(schemas[i], args, env, files)) == Ok(s4[i])
    {
      assert Stages(schemas[i], args, env, files, s1[i], s2[i], s3[i], s4[i]);
      StagesLoad(schemas[i], args, env, files, s4[i]);
    }
  }

  /** The states of all configs after each phase, when every config loads by itself. */
  lemma StagesOfAll(schemas: seq<Schema>, args: B.Parsed, env: map<string, string>, files: Files, states: seq<State>)
    returns (s1: seq<State>, s2: seq<State>, s3: seq<State>)
    requires LoadsAlone(schemas, args, env, files, states)
    ensures |s1| == |s2| == |s3| == |schemas|
    ensures forall i :: 0 <= i < |schemas| ==> Stages(schemas[i], args, env, files, s1[i], s2[i], s3[i], states[i])
  {
    s1, s2, s3 := [], [], [];
    for i := 0 to |schemas|
      invariant |s1| == |s2| == |s3| == i
      invariant forall j :: 0 <= j < i ==> Stages(schemas[j], args, env, files, s1[j], s2[j], s3[j], states[j])
    {
      StagesLoad(schemas[i], args, env, files, states[i]);
      var t1, t2, t3 :| Stages(schemas[i], args, env, files, t1, t2, t3, states[i]);
      s1, s2, s3 := s1 + [t1], s2 + [t2], s3 + [t3];
    }
  }

  lemma ApplyAllIs(schemas: seq<Schema>, source: Source, states: seq<State>, after: seq<State>)
    requires |states| == |schemas| == |after|
    requires forall i :: 0 <= i < |schemas| ==> Apply(schemas[i].fields, source, states[i]) == Ok(after[i])
    ensures ApplyAll(schemas, source, states) == Ok(after)
  {
    ApplyAllEach(schemas, source, states);
    assert ApplyAll(schemas, source, states).value == after;
  }

  lemma LoadAloneRunsPhases(schemas: seq<Schema>, args: B.Parsed, env: map<string, string>, files: Files,
                            states: seq<State>)
    requires |schemas| > 0 && FileUsable(schemas, args.configPath, files)
             && LoadsAlone(schemas, args, env, files, states)
    ensures ApplyAll(schemas, Defaults, Initial(schemas)).Ok?
    ensures LaterPhases(schemas, args, env, files, ApplyAll(schemas, Defaults, Initial(schemas)).value)
            == Ok(Loaded(states, args.rest))
  {
    var s1, s2, s3 := StagesOfAll(schemas, args, env, files, states);
    ApplyAllIs(schemas, Defaults, Initial(schemas), s1);
    FileAppliedIsPhase(schemas, args.configPath, files, s1, s2);
    ApplyAllIs(schemas, Env(env), s2, s3);
    ApplyAllIs(schemas, Flags(args.values), s3, states);
    ValidateAllEach(schemas, states);
  }

  /** Composite loading is loading each config alone: for any configs, loading all together succeeds with given states
      if and only if no names conflict, argv parses, the file can be used, and every config by itself loads its state
      from its own share of the environment and of the flags. */
  lemma CompositeIsEachAlone(schemas: seq<Schema>, argv: seq<string>, env: map<string, string>, files: Files,
                             loaded: Loaded)
    requires |schemas| > 0
    ensures LoadAll(schemas, argv, env, files) == Ok(loaded)
            <==> && NoConflicts(schemas) && B.Parse(argv, BootstrapSpecs(schemas)).Ok?
                 && var args := B.Parse(argv, BootstrapSpecs(schemas)).value;
                    && FileUsable(schemas, args.configPath, files) && loaded.rest == args.rest
                    && LoadsAlone(schemas, args, env, files, loaded.states)
  {
    if NoConflicts(schemas) && B.Parse(argv, BootstrapSpecs(schemas)).Ok? {
      var args := B.Parse(argv, BootstrapSpecs(schemas)).value;
      if LoadAll(schemas, argv, env, files) == Ok(loaded) {
        PhasesLoadAlone(schemas, args, env, files, ApplyAll(schemas, Defaults, Initial(schemas)).value, loaded);
      }
      if FileUsable(schemas, args.configPath, files) && loaded.rest == args.rest
        && LoadsAlone(schemas, args, env, files, loaded.states) {
        LoadAloneRunsPhases(schemas, args, env, files, loaded.states);
      }
    }
  }

  // ---- the shares of accepted configs -----------------------------------------------------------

  /** For accepted configs the shares are disjoint, and every flag that was given belongs to one of them: no value is
      used twice, and none is dropped. */
  lemma SharesPartition(schemas: seq<Schema>, argv: seq<string>, args: B.Parsed)
    requires |schemas| > 1 && NoConflicts(schemas) && B.Parse(argv, BootstrapSpecs(schemas)) == Ok(args)
    ensures forall i, j :: 0 <= i < j < |schemas| ==>
              && EnvNames(schemas[i].fields) !! EnvNames(schemas[j].fields)
              && Elements(FlagNames(schemas[i].fields)) !! Elements(FlagNames(schemas[j].fields))
    ensures forall name <- args.values :: exists i ::
              0 <= i < |schemas| && name in Share(args.values, Elements(FlagNames(schemas[i].fields)))
  {
    ConflictsAre(schemas);
    AllFlagsOnce(schemas);
    forall name <- args.values
      ensures exists i :: 0 <= i < |schemas| && name in Share(args.values, Elements(FlagNames(schemas[i].fields)))
    {
      GivenIsDeclared(argv, BootstrapSpecs(schemas), args, name);
      AllFlagsAre(schemas, name);
      var i :| 0 <= i < |schemas| && name in FlagNames(schemas[i].fields);
      assert name in Share(args.values, Elements(FlagNames(schemas[i].fields)));
    }
  }

  lemma GivenIsDeclared(argv: seq<string>, specs: seq<Option<string>>, args: B.Parsed, name: string)
    requires B.Parse(argv, specs) == Ok(args) && name in args.values
    ensures Some(name) in specs
  {
    var allowed := B.Names(specs);
    B.SpecsAreValid(specs);
    assert B.ValidNames(allowed);
    B.LeadingIsGrammatical(argv, allowed, args);
    var items :| (forall item <- items :: B.WellFormed(item, allowed)) && B.Good(items) && B.Means(items, args)
                 && argv == B.RenderAll(items) + args.rest && B.NoFlagFirst(args.rest, allowed);
    assert B.Given(items, name, args.values[name]);
    var item: B.Item :| item in items && item.name == name && item.value == args.values[name];
    assert B.WellFormed(item, allowed);
  }

  // ---- what a field of a loaded config holds -------------------------------------------------------------------

  lemma OwnInputs(schema: Schema, args: B.Parsed, env: map<string, string>, files: Files, f: Field)
    requires f in schema.fields
    ensures var inputs := InputsOf(schema, args, env, files);
            && (HasFlag(inputs, f) <==> f.flag.Some? && f.flag.value in args.values)
            && (HasEnv(inputs, f) <==> f.env.Some? && f.env.value != "" && f.env.value in env)
            && (HasFlag(inputs, f) ==> inputs.values[f.flag.value] == args.values[f.flag.value])
            && (HasEnv(inputs, f) ==> inputs.env[f.env.value] == env[f.env.value])
  {
    OwnNames(schema.fields);
  }

  /** After loading any number of configs together, a field whose flag was given holds that value, parsed; otherwise one
      whose environment variable is set holds that; otherwise its file entry, default or zero counts. */
  lemma LoadedValues(schemas: seq<Schema>, argv: seq<string>, env: map<string, string>, files: Files, loaded: Loaded,
                     i: nat, f: Field)
    requires |schemas| > 0 && LoadAll(schemas, argv, env, files) == Ok(loaded)
    requires i < |schemas| && DistinctFields(schemas[i].fields) && Faithful(schemas[i].fields) && f in schemas[i].fields
    ensures |loaded.states| == |schemas| && B.Parse(argv, BootstrapSpecs(schemas)).Ok?
    ensures var args := B.Parse(argv, BootstrapSpecs(schemas)).value; var v := ValueOf(loaded.states[i], f);
            if f.flag.Some? && f.flag.value in args.values then f.codec.parse(args.values[f.flag.value]) == Some(v)
            else if f.env.Some? && f.env.value != "" && f.env.value in env then
              f.codec.parse(env[f.env.value]) == Some(v)
            else
              var inputs := InputsOf(schemas[i], args, env, files);
              && GoodInputs(schemas[i], inputs) && inputs.file == FileAt(args.configPath, files)
              && v == match FileEntry(schemas[i], inputs, f)
                      case Some(entry) => EntryValue(schemas[i], entry, f).value
                      case None => if f.default.Some? then f.codec.parse(f.default.value).value else f.zero
  {
    CompositeIsEachAlone(schemas, argv, env, files, loaded);
    var args := B.Parse(argv, BootstrapSpecs(schemas)).value;
    var inputs := InputsOf(schemas[i], args, env, files);
    Precedence(schemas[i], inputs);
    OwnInputs(schemas[i], args, env, files, f);
    ParsedLayers(schemas[i], inputs, f);
  }

  lemma ParsedLayers(schema: Schema, inputs: Inputs, f: Field)
    requires GoodInputs(schema, inputs) && f in schema.fields
    ensures HasFlag(inputs, f) ==> f.codec.parse(inputs.values[f.flag.value]).Some?
    ensures HasEnv(inputs, f) ==> f.codec.parse(inputs.env[f.env.value]).Some?
    ensures f.default.Some? ==> f.codec.parse(f.default.value).Some?
    ensures FileEntry(schema, inputs, f).Some? ==> EntryValue(schema, FileEntry(schema, inputs, f).value, f).Some?
  {
    assert HasFlag(inputs, f) ==> Says(Flags(inputs.values), f, inputs.values[f.flag.value]);
    assert HasEnv(inputs, f) ==> Says(Env(inputs.env), f, inputs.env[f.env.value]);
    assert f.default.Some? ==> Says(Defaults, f, f.default.value);
  }

  /** The flags that are allowed in argv are those that some field declares. */
  lemma DeclaredFlags(schemas: seq<Schema>, name: string)
    ensures name in B.Names(BootstrapSpecs(schemas))
            <==> exists j, g :: 0 <= j < |schemas| && g in schemas[j].fields && g.flag == Some(name)
  {
    AllFlagsAre(schemas, name);
    forall j | 0 <= j < |schemas|
      ensures name in FlagNames(schemas[j].fields) <==> exists g :: g in schemas[j].fields && g.flag == Some(name)
    {
      NamesAre(schemas[j].fields, name);
    }
    var flags, specs := AllFlags(schemas), BootstrapSpecs(schemas);
    assert forall k :: 0 <= k < |flags| ==> specs[k] == Some(flags[k]);
    assert name in flags ==> exists k :: 0 <= k < |flags| && flags[k] == name;
  }

  /** From argv to the field: a flag given at the front of argv, in either form, decides its field. */
  lemma GivenFlagDecides(schemas: seq<Schema>, declared: set<string>, items: seq<B.Item>, rest: seq<string>,
                         env: map<string, string>, files: Files, loaded: Loaded, i: nat, f: Field, item: B.Item)
    requires |schemas| > 0 && LoadAll(schemas, B.RenderAll(items) + rest, env, files) == Ok(loaded)
    requires forall name :: name in declared
                            <==> exists j, g :: 0 <= j < |schemas| && g in schemas[j].fields && g.flag == Some(name)
    requires i < |schemas| && DistinctFields(schemas[i].fields) && Faithful(schemas[i].fields) && f in schemas[i].fields
    requires item in items && item.name != "config" && f.flag == Some(item.name)
    requires (forall it <- items :: B.WellFormed(it, declared)) && B.NoFlagFirst(rest, declared)
    ensures |loaded.states| == |schemas| && f.codec.parse(item.value) == Some(ValueOf(loaded.states[i], f))
    ensures loaded.rest == rest
  {
    var argv, specs := B.RenderAll(items) + rest, BootstrapSpecs(schemas);
    assert declared == B.Names(specs) by {
      forall name
        ensures name in declared <==> name in B.Names(specs)
      {
        DeclaredFlags(schemas, name);
      }
    }
    CompositeIsEachAlone(schemas, argv, env, files, loaded);
    LoadedValues(schemas, argv, env, files, loaded, i, f);
    B.SpecsAreValid(specs);
    B.ReadBack(items, rest, declared);
    B.EvaluateMeans(items);
  }

  // ---- which error is reported ------------------------------------------------------------------------------------

  ghost predicate AllParse(schemas: seq<Schema>, source: Source) {
    forall i :: 0 <= i < |schemas| ==> Parses(schemas[i].fields, source)
  }

  /** Config `i` is the first with a value from the source that does not parse, and `e` names the first such field. */
  ghost predicate FirstSpecBad(schemas: seq<Schema>, source: Source, i: nat, e: LoadError) {
    && i < |schemas| && AllParse(schemas[..i], source)
    && exists n: nat :: FirstBad(schemas[i].fields, source, n, e)
  }

  lemma {:induction false} ApplyAllFails(schemas: seq<Schema>, source: Source, states: seq<State>, e: LoadError)
    requires |states| == |schemas|
    ensures ApplyAll(schemas, source, states) == Err(e) <==> exists i: nat :: FirstSpecBad(schemas, source, i, e)
    ensures ApplyAll(schemas, source, states).Ok? <==> AllParse(schemas, source)
  {
    if schemas != [] {
      var m := |schemas| - 1;
      ApplyAllFails(schemas[..m], source, states[..m], e);
      ApplyFails(schemas[m].fields, source, states[m], e);
      LastSpecBad(schemas, source, e);
      assert AllParse(schemas, source) <==> AllParse(schemas[..m], source) && Parses(schemas[m].fields, source) by {
        assert forall i :: 0 <= i < m ==> schemas[..m][i] == schemas[i];
      }
    }
  }

  lemma {:induction false} LastSpecBad(schemas: seq<Schema>, source: Source, e: LoadError)
    requires schemas != []
    ensures var m := |schemas| - 1;
            (exists i: nat :: FirstSpecBad(schemas, source, i, e))
            <==> || (exists i: nat :: FirstSpecBad(schemas[..m], source, i, e))
                 || (AllParse(schemas[..m], source) && exists n: nat :: FirstBad(schemas[m].fields, source, n, e))
  {
    var m := |schemas| - 1;
    forall i: nat | i < m
      ensures FirstSpecBad(schemas, source, i, e) <==> FirstSpecBad(schemas[..m], source, i, e)
    {
      assert schemas[..m][..i] == schemas[..i];
    }
    assert FirstSpecBad(schemas, source, m, e)
      <==> AllParse(schemas[..m], source) && exists n: nat :: FirstBad(schemas[m].fields, source, n, e);
  }

  /** Every required field is supplied. */
  ghost predicate Complete(schema: Schema, inputs: Inputs) {
    GoodInputs(schema, inputs) && forall f <- schema.fields :: f.required ==> Supplied(schema, inputs, f)
  }

  /** `e` names the first required field that nothing supplies. */
  ghost predicate Lacks(schema: Schema, inputs: Inputs, e: LoadError) {
    && GoodInputs(schema, inputs)
    && exists n: nat :: FirstUnsupplied(schema, inputs, n) && e == Missing(schema.fields[n].name)
  }

  /** Config `i` is the first that lacks a required field. */
  ghost predicate FirstLacking(schemas: seq<Schema>, args: B.Parsed, env: map<string, string>, files: Files, i: nat,
                               e: LoadError)
  {
    && i < |schemas| && Lacks(schemas[i], InputsOf(schemas[i], args, env, files), e)
    && forall j :: 0 <= j < i ==> Complete(schemas[j], InputsOf(schemas[j], args, env, files))
  }

  /** Config `i` is the first whose state has a required field without a value. */
  ghost predicate FirstInvalid(schemas: seq<Schema>, states: seq<State>, i: nat, e: LoadError)
    requires |states| == |schemas|
  {
    && i < |schemas|
    && (exists name :: FirstMissing(schemas[i].fields, states[i].present) == Some(name) && e == Missing(name))
    && forall j :: 0 <= j < i ==> FirstMissing(schemas[j].fields, states[j].present) == None
  }

  lemma {:induction false} ValidateAllFails(schemas: seq<Schema>, states: seq<State>, e: LoadError)
    requires |states| == |schemas|
    ensures ValidateAll(schemas, states) == Some(e) <==> exists i: nat :: FirstInvalid(schemas, states, i, e)
  {
    if schemas != [] {
      var m := |schemas| - 1;
      ValidateAllFails(schemas[..m], states[..m], e);
      ValidateAllEach(schemas[..m], states[..m]);
      assert forall j :: 0 <= j < m ==> schemas[..m][j] == schemas[j] && states[..m][j] == states[j];
      forall i: nat | i < m
        ensures FirstInvalid(schemas, states, i, e) <==> FirstInvalid(schemas[..m], states[..m], i, e)
      {
      }
      if ValidateAll(schemas, states) == Some(e) && ValidateAll(schemas[..m], states[..m]) == None {
        assert FirstInvalid(schemas, states, m, e);
      }
    }
  }

  ghost predicate FileGood(schemas: seq<Schema>, path: string, files: Files)
    requires |schemas| > 0
  {
    path == "" || (files(path).Some? && GoodFile(schemas[0], files(path).value))
  }

  ghost predicate WellDeclared(schemas: seq<Schema>) {
    forall i :: 0 <= i < |schemas| ==> DistinctFields(schemas[i].fields) && Faithful(schemas[i].fields)
  }

  /** Why loading fails once argv is parsed: the first phase that fails, in it the first config, and in that the first
      field. */
  ghost predicate LaterFails(schemas: seq<Schema>, args: B.Parsed, env: map<string, string>, files: Files, e: LoadError)
    requires |schemas| > 0
  {
    if args.configPath != "" && |schemas| > 1 then e == CompositeConfig
    else if !FileGood(schemas, args.configPath, files) then e == BadFile
    else if !AllParse(schemas, Env(env)) then exists i: nat :: FirstSpecBad(schemas, Env(env), i, e)
    else if !AllParse(schemas, Flags(args.values)) then exists i: nat :: FirstSpecBad(schemas, Flags(args.values), i, e)
    else exists i: nat :: FirstLacking(schemas, args, env, files, i, e)
  }

  ghost predicate AllFail(schemas: seq<Schema>, argv: seq<string>, env: map<string, string>, files: Files, e: LoadError)
    requires |schemas| > 0
  {
    if !NoConflicts(schemas) then e == Conflict
    else if !AllParse(schemas, Defaults) then exists i: nat :: FirstSpecBad(schemas, Defaults, i, e)
    else
      match B.Parse(argv, BootstrapSpecs(schemas))
      case Err(_) => e == BadArgs
      case Ok(args) => LaterFails(schemas, args, env, files, e)
  }

  lemma {:induction false} FilePhaseFails(schemas: seq<Schema>, path: string, files: Files, states: seq<State>)
    requires |states| == |schemas| > 0 && WellDeclared(schemas)
    ensures match FilePhase(schemas, path, files, states)
            case Err(e) =>
              if path != "" && |schemas| > 1 then e == CompositeConfig
              else e == BadFile && !FileGood(schemas, path, files)
            case Ok(_) => (path == "" || |schemas| == 1) && FileGood(schemas, path, files)
  {
    if path != "" && |schemas| == 1 && files(path).Some? {
      MergeFileEffect(schemas[0], files(path).value, states[0]);
    }
  }

  lemma {:induction false} ParsesOwnShare(schema: Schema, args: B.Parsed, env: map<string, string>, files: Files)
    requires Parses(schema.fields, Defaults) && Parses(schema.fields, Env(env))
             && Parses(schema.fields, Flags(args.values))
    requires args.configPath != "" ==> files(args.configPath).Some? && GoodFile(schema, files(args.configPath).value)
    ensures GoodInputs(schema, InputsOf(schema, args, env, files))
  {
    var inputs := InputsOf(schema, args, env, files);
    forall f, raw | f in schema.fields && Says(Env(inputs.env), f, raw)
      ensures f.codec.parse(raw).Some?
    {
      assert Says(Env(env), f, raw);
    }
    forall f, raw | f in schema.fields && Says(Flags(inputs.values), f, raw)
      ensures f.codec.parse(raw).Some?
    {
      assert Says(Flags(args.values), f, raw);
    }
  }

  /** One config's way through the phases up to the required check. */
  ghost predicate PhasesOf(schema: Schema, args: B.Parsed, env: map<string, string>, files: Files, s1: State, s2: State,
                           s3: State, s4: State)
  {
    && GoodInputs(schema, InputsOf(schema, args, env, files))
    && Apply(schema.fields, Defaults, INITIAL) == Ok(s1)
    && ApplyFile(schema, FileAt(args.configPath, files), s1) == Ok(s2)
    && Apply(schema.fields, Env(env), s2) == Ok(s3) && Apply(schema.fields, Flags(args.values), s3) == Ok(s4)
  }

  /** What one config ends up with, before the required check, is what its own share calls for. */
  lemma {:induction false} EndsFinal(schema: Schema, args: B.Parsed, env: map<string, string>, files: Files, s1: State,
                                     s2: State, s3: State, s4: State)
    requires DistinctFields(schema.fields) && Faithful(schema.fields)
    requires PhasesOf(schema, args, env, files, s1, s2, s3, s4)
    ensures FirstMissing(schema.fields, s4.present) == None <==> Complete(schema, InputsOf(schema, args, env, files))
    ensures forall e :: (exists name :: FirstMissing(schema.fields, s4.present) == Some(name) && e == Missing(name))
                        <==> Lacks(schema, InputsOf(schema, args, env, files), e)
  {
    var inputs := InputsOf(schema, args, env, files);
    OwnShareSuffices(schema, env, s2);
    OwnShareSuffices(schema, args.values, s3);
    PhasesEffect(schema, inputs, s1, s2, s3, s4);
    FirstMissingNone(schema.fields, s4.present);
    forall e
      ensures (exists name :: FirstMissing(schema.fields, s4.present) == Some(name) && e == Missing(name))
              <==> Lacks(schema, inputs, e)
    {
      MissingErrors(schema, inputs, e, s4);
    }
  }

  lemma {:induction false} PhasesOfAll(schemas: seq<Schema>, args: B.Parsed, env: map<string, string>, files: Files,
                                       s1: seq<State>, s2: seq<State>, s3: seq<State>, s4: seq<State>)
    requires |schemas| == |s1| == |s2| == |s3| == |s4| && |schemas| > 0
    requires ApplyAll(schemas, Defaults, Initial(schemas)) == Ok(s1) && AllParse(schemas, Defaults)
    requires FilePhase(schemas, args.configPath, files, s1) == Ok(s2) && FileGood(schemas, args.configPath, files)
    requires ApplyAll(schemas, Env(env), s2) == Ok(s3) && AllParse(schemas, Env(env))
    requires ApplyAll(schemas, Flags(args.values), s3) == Ok(s4) && AllParse(schemas, Flags(args.values))
    ensures forall i :: 0 <= i < |schemas| ==> PhasesOf(schemas[i], args, env, files, s1[i], s2[i], s3[i], s4[i])
  {
    ApplyAllEach(schemas, Defaults, Initial(schemas));
    FilePhaseEach(schemas, args.configPath, files, s1);
    ApplyAllEach(schemas, Env(env), s2);
    ApplyAllEach(schemas, Flags(args.values), s3);
    forall i | 0 <= i < |schemas|
      ensures GoodInputs(schemas[i], InputsOf(schemas[i], args, env, files))
    {
      ParsesOwnShare(schemas[i], args, env, files);
    }
  }

  lemma {:induction false} RequiredFails(schemas: seq<Schema>, args: B.Parsed, env: map<string, string>, files: Files,
                                         s1: seq<State>, s2: seq<State>, s3: seq<State>, s4: seq<State>, e: LoadError)
    requires |schemas| == |s1| == |s2| == |s3| == |s4| && WellDeclared(schemas)
    requires forall i :: 0 <= i < |schemas| ==> PhasesOf(schemas[i], args, env, files, s1[i], s2[i], s3[i], s4[i])
    ensures ValidateAll(schemas, s4) == Some(e) <==> exists i: nat :: FirstLacking(schemas, args, env, files, i, e)
  {
    forall i | 0 <= i < |schemas|
      ensures var inputs := InputsOf(schemas[i], args, env, files);
              && (FirstMissing(schemas[i].fields, s4[i].present) == None <==> Complete(schemas[i], inputs))
              && ((exists name :: FirstMissing(schemas[i].fields, s4[i].present) == Some(name) && e == Missing(name))
                  <==> Lacks(schemas[i], inputs, e))
    {
      EndsFinal(schemas[i], args, env, files, s1[i], s2[i], s3[i], s4[i]);
    }
    ValidateAllFails(schemas, s4, e);
    LackingIsInvalid(schemas, args, env, files, s4, e);
  }

  lemma {:induction false} LackingIsInvalid(schemas: seq<Schema>, args: B.Parsed, env: map<string, string>,
                                            files: Files, s4: seq<State>, e: LoadError)
    requires |schemas| == |s4|
    requires forall i :: 0 <= i < |schemas| ==>
               (FirstMissing(schemas[i].fields, s4[i].present) == None
                <==> Complete(schemas[i], InputsOf(schemas[i], args, env, files)))
    requires forall i :: 0 <= i < |schemas| ==>
               ((exists name :: FirstMissing(schemas[i].fields, s4[i].present) == Some(name) && e == Missing(name))
                <==> Lacks(schemas[i], InputsOf(schemas[i], args, env, files), e))
    ensures (exists i: nat :: FirstInvalid(schemas, s4, i, e))
            <==> exists i: nat :: FirstLacking(schemas, args, env, files, i, e)
  {
    forall i: nat
      ensures FirstInvalid(schemas, s4, i, e) <==> FirstLacking(schemas, args, env, files, i, e)
    {
    }
  }

  lemma {:induction false} ErrorsAfterFile(schemas: seq<Schema>, args: B.Parsed, env: map<string, string>, files: Files,
                                           s1: seq<State>, s2: seq<State>, e: LoadError)
    requires |schemas| == |s1| == |s2| && |schemas| > 0 && WellDeclared(schemas)
    requires ApplyAll(schemas, Defaults, Initial(schemas)) == Ok(s1) && AllParse(schemas, Defaults)
    requires FilePhase(schemas, args.configPath, files, s1) == Ok(s2) && FileGood(schemas, args.configPath, files)
    requires args.configPath == "" || |schemas| == 1
    ensures LaterPhases(schemas, args, env, files, s1) == Err(e) <==> LaterFails(schemas, args, env, files, e)
  {
    ApplyAllFails(schemas, Env(env), s2, e);
    if AllParse(schemas, Env(env)) {
      var s3 := ApplyAll(schemas, Env(env), s2).value;
      ApplyAllFails(schemas, Flags(args.values), s3, e);
      if AllParse(schemas, Flags(args.values)) {
        var s4 := ApplyAll(schemas, Flags(args.values), s3).value;
        PhasesOfAll(schemas, args, env, files, s1, s2, s3, s4);
        RequiredFails(schemas, args, env, files, s1, s2, s3, s4, e);
      }
    }
  }

  lemma {:induction false} LaterErrorsOfAll(schemas: seq<Schema>, args: B.Parsed, env: map<string, string>,
                                            files: Files, s1: seq<State>, e: LoadError)
    requires |schemas| == |s1| > 0 && WellDeclared(schemas)
    requires ApplyAll(schemas, Defaults, Initial(schemas)) == Ok(s1) && AllParse(schemas, Defaults)
    ensures LaterPhases(schemas, args, env, files, s1) == Err(e) <==> LaterFails(schemas, args, env, files, e)
  {
    FilePhaseFails(schemas, args.configPath, files, s1);
    if FilePhase(schemas, args.configPath, files, s1).Ok? {
      ErrorsAfterFile(schemas, args, env, files, s1, FilePhase(schemas, args.configPath, files, s1).value, e);
    }
  }

  /** The error that loading any number of configs together reports. */
  lemma {:induction false} AllLoadErrors(schemas: seq<Schema>, argv: seq<string>, env: map<string, string>,
                                         files: Files, e: LoadError)
    requires |schemas| > 0 && WellDeclared(schemas)
    ensures LoadAll(schemas, argv, env, files) == Err(e) <==> AllFail(schemas, argv, env, files, e)
  {
    ApplyAllFails(schemas, Defaults, Initial(schemas), e);
    if NoConflicts(schemas) && AllParse(schemas, Defaults) && B.Parse(argv, BootstrapSpecs(schemas)).Ok? {
      var args := B.Parse(argv, BootstrapSpecs(schemas)).value;
      LaterErrorsOfAll(schemas, args, env, files, ApplyAll(schemas, Defaults, Initial(schemas)).value, e);
    }
  }
}
