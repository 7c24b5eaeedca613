/** The overlay of a JSON config file: top-level keys are brought to their canonical names, decoded, and laid over the
    current values (`config/file.go`). Go ranges over maps in any order, so the loops pick their keys arbitrarily. */
module JsonOverlay {
  import opened Options

  /** A raw JSON value; `Null` is the literal `null`, with or without surrounding space. */
  datatype Json = Null | Raw(text: string)

  /** The canonical JSON name of every spelling of a field. */
  type FieldNames = map<string, string>

  function Canonical(field: string, names: FieldNames): string {
    if field in names then names[field] else field
  }

  predicate NoDuplicates(keys: set<string>, names: FieldNames) {
    forall j, k :: j in keys && k in keys && j != k ==> Canonical(j, names) != Canonical(k, names)
  }

  /** `overlay` holds the values of the keys of `raw` under their canonical names, and nothing else. */
  ghost predicate IsOverlay(overlay: map<string, Json>, raw: map<string, Json>, keys: set<string>, names: FieldNames)
    requires keys <= raw.Keys
  {
    && (forall k <- keys :: Canonical(k, names) in overlay && overlay[Canonical(k, names)] == raw[k])
    && (forall c <- overlay :: Spelled(c, keys, names))
  }

  predicate Spelled(c: string, keys: set<string>, names: FieldNames) { exists k <- keys :: Canonical(k, names) == c }

  function NonNull(overlay: map<string, Json>): set<string> {
    set c | c in overlay && overlay[c] != Null
  }

  lemma OverlayUnique(a: map<string, Json>, b: map<string, Json>, raw: map<string, Json>, names: FieldNames)
    requires IsOverlay(a, raw, raw.Keys, names) && IsOverlay(b, raw, raw.Keys, names)
    ensures a == b
  {
    forall c | c in a || c in b
      ensures c in a && c in b && a[c] == b[c]
    {
      assert Spelled(c, raw.Keys, names);
    }
  }

  ghost function SpellingOf(c: string, keys: set<string>, names: FieldNames): (k: string)
    requires Spelled(c, keys, names)
    ensures k in keys && Canonical(k, names) == c
  {
    var k :| k in keys && Canonical(k, names) == c;
    k
  }

  /** The overlay as a function of the file: there is only one, so the order in which keys are visited does not show. */
  ghost function Overlay(raw: map<string, Json>, names: FieldNames): (overlay: map<string, Json>)
    requires NoDuplicates(raw.Keys, names)
    ensures IsOverlay(overlay, raw, raw.Keys, names)
  {
    var spelled := set k | k in raw :: Canonical(k, names);
    map c | c in spelled :: raw[SpellingOf(c, raw.Keys, names)]
  }

  datatype Duplicate = Duplicate(field: string, first: string, second: string)

  datatype Parsed = Parsed(overlay: map<string, Json>, present: set<string>)

  /** The loop state after `keys` have been visited. */
  ghost predicate Midway(p: Parsed, seen: map<string, string>, raw: map<string, Json>, keys: set<string>,
                         names: FieldNames)
    requires keys <= raw.Keys
  {
    && IsOverlay(p.overlay, raw, keys, names) && p.present == NonNull(p.overlay) && NoDuplicates(keys, names)
    && seen.Keys == p.overlay.Keys && (forall c <- seen :: seen[c] in keys && Canonical(seen[c], names) == c)
  }

  /** `parseJSONOverlay`: fails if and only if two keys share a canonical name, and names two such keys; the keys are
      visited in any order, and the result does not depend on it. */
  method ParseOverlay(raw: map<string, Json>, names: FieldNames) returns (r: Result<Parsed, Duplicate>)
    ensures r.Ok? <==> NoDuplicates(raw.Keys, names)
    ensures r.Ok? ==> r.value.overlay == Overlay(raw, names) && r.value.present == NonNull(r.value.overlay)
    ensures r.Err? ==> && r.error.first in raw && r.error.second in raw && r.error.first != r.error.second
                       && Canonical(r.error.first, names) == Canonical(r.error.second, names) == r.error.field
  {
    var overlay, present, seen := map[], {}, map[];
    var todo := raw.Keys;
    ghost var done: set<string> := {};
    while todo != {}
      invariant todo <= raw.Keys && done == raw.Keys - todo
      invariant Midway(Parsed(overlay, present), seen, raw, done, names)
      decreases todo
    {
      var field :| field in todo;
      Visited(raw.Keys, todo, field);
      todo := todo - {field};
      var canonical := Canonical(field, names);
      MidwayStep(Parsed(overlay, present), seen, raw, done, field, names);
      if canonical in seen {
        return Err(Duplicate(canonical, seen[canonical], field));
      }
      seen := seen[canonical := field];
      overlay := overlay[canonical := raw[field]];
      done := done + {field};
      if raw[field] != Null {
        present := present + {canonical};
      }
    }
    OverlayUnique(overlay, Overlay(raw, names), raw, names);
    return Ok(Parsed(overlay, present));
  }

  lemma MidwayStep(p: Parsed, seen: map<string, string>, raw: map<string, Json>, keys: set<string>, k: string,
                   names: FieldNames)
    requires keys <= raw.Keys && k in raw && k !in keys && Midway(p, seen, raw, keys, names)
    ensures var c := Canonical(k, names);
            if c in seen then
              seen[c] in raw && seen[c] != k && Canonical(seen[c], names) == c && !NoDuplicates(raw.Keys, names)
            else
              var present := if raw[k] != Null then p.present + {c} else p.present;
              Midway(Parsed(p.overlay[c := raw[k]], present), seen[c := k], raw, keys + {k}, names)
  {
    if Canonical(k, names) !in seen {
      OverlayStep(p.overlay, raw, keys, k, names);
    }
  }

  lemma Visited(keys: set<string>, todo: set<string>, k: string)
    requires k in todo && todo <= keys
    ensures keys - (todo - {k}) == (keys - todo) + {k} 
  {
  }

  lemma OverlayStep(overlay: map<string, Json>, raw: map<string, Json>, keys: set<string>, k: string, names: FieldNames)
    requires keys <= raw.Keys && k in raw && IsOverlay(overlay, raw, keys, names) && Canonical(k, names) !in overlay
    requires NoDuplicates(keys, names)
    ensures IsOverlay(overlay[Canonical(k, names) := raw[k]], raw, keys + {k}, names) && NoDuplicates(keys + {k}, names)
    ensures NonNull(overlay[Canonical(k, names) := raw[k]])
            == if raw[k] != Null then NonNull(overlay) + {Canonical(k, names)} else NonNull(overlay)
  {
    forall c <- overlay
      ensures Spelled(c, keys + {k}, names)
    {
      var j :| j in keys && Canonical(j, names) == c;
      assert j in keys + {k};
    }
  }

  // ---- decoding and merging -----------------------------------------------------------------------------

  /** How raw values become JSON values: a parser for some fields, plain JSON decoding for the others. */
  datatype Decoders = Decoders(parsers: map<string, string -> Option<Json>>, plain: string -> Option<Json>)

  /** `decodeJSONOverlayValue`. */
  function DecodeValue(field: string, value: Json, decoders: Decoders): Option<Json> {
    match value
    case Null => Some(Null)
    case Raw(text) => if field in decoders.parsers then decoders.parsers[field](text) else decoders.plain(text)
  }

  predicate Decodable(overlay: map<string, Json>, keys: set<string>, decoders: Decoders)
    requires keys <= overlay.Keys
  {
    forall c <- keys :: DecodeValue(c, overlay[c], decoders).Some?
  }

  /** The base with the decoded values of `keys` laid over it. */
  function Merged(base: map<string, Json>, overlay: map<string, Json>, keys: set<string>, decoders: Decoders)
    : (merged: map<string, Json>)
    requires keys <= overlay.Keys && Decodable(overlay, keys, decoders)
  {
    map c | c in base.Keys + keys :: if c in keys then DecodeValue(c, overlay[c], decoders).value else base[c]
  }

  /** The overlay loop of `mergeJSONFile`: it fails if and only if some value does not decode. */
  method MergeOverlay(base: map<string, Json>, overlay: map<string, Json>, decoders: Decoders)
    returns (r: Result<map<string, Json>, string>)
    ensures r.Ok? <==> Decodable(overlay, overlay.Keys, decoders)
    ensures r.Ok? ==> r.value == Merged(base, overlay, overlay.Keys, decoders)
    ensures r.Err? ==> r.error in overlay && DecodeValue(r.error, overlay[r.error], decoders) == None
  {
    var merged := base;
    var todo := overlay.Keys;
    ghost var done: set<string> := {};
    while todo != {}
      invariant todo <= overlay.Keys && done == overlay.Keys - todo
      invariant Decodable(overlay, done, decoders) && merged == Merged(base, overlay, done, decoders)
      decreases todo
    {
      var k :| k in todo;
      Visited(overlay.Keys, todo, k);
      todo := todo - {k};
      var v := DecodeValue(k, overlay[k], decoders);
      if v.None? {
        return Err(k);
      }
      MergeStep(base, overlay, done, k, decoders);
      merged := merged[k := v.value];
      done := done + {k};
    }
    return Ok(merged);
  }

  lemma MergeStep(base: map<string, Json>, overlay: map<string, Json>, keys: set<string>, k: string, decoders: Decoders)
    requires keys <= overlay.Keys && Decodable(overlay, keys, decoders)
    requires k in overlay && DecodeValue(k, overlay[k], decoders).Some?
    ensures Merged(base, overlay, keys + {k}, decoders)
            == Merged(base, overlay, keys, decoders)[k := DecodeValue(k, overlay[k], decoders).value]
  {
    var after := Merged(base, overlay, keys + {k}, decoders);
    var before := Merged(base, overlay, keys, decoders);
    assert after.Keys == before.Keys + {k};
  }
}
