/** Parsing of the bootstrap flags at the front of argv (`config/bootstrap.go`), proved against a grammar of rendered
    flags. */
module Bootstrap {
  import opened Options

  /** `ReservedConfigFlag`. */
  const CONFIG := "config"
  const DASHES := "--"

  datatype ArgError =
    | NilSpec
    | EmptyName
    | DashedName(name: string)
    | EqualsInName(name: string)
    | MissingValue(name: string)
    | Repeated(name: string)

  // ---- validateBootstrapFlag and buildAllowedBootstrapFlags ------------------------------------------

  function ValidateFlag(name: string): Option<ArgError> {
    if name == "" then Some(EmptyName)
    else if DASHES <= name then Some(DashedName(name))
    else if '=' in name then Some(EqualsInName(name))
    else None
  }

  /** The first thing wrong with the specs; `None` stands for a nil pointer. */
  function SpecError(specs: seq<Option<string>>): Option<ArgError> {
    if specs == [] then None
    else if specs[0].None? then Some(NilSpec)
    else if ValidateFlag(specs[0].value).Some? then ValidateFlag(specs[0].value)
    else SpecError(specs[1..])
  }

  predicate ValidName(name: string) { name != "" && !("--" <= name) && '=' !in name }

  method BuildAllowed(specs: seq<Option<string>>) returns (r: Result<set<string>, ArgError>)
    ensures r.Err? <==> SpecError(specs).Some?
    ensures r.Err? ==> Some(r.error) == SpecError(specs)
    ensures r.Ok? ==> forall name :: name in r.value <==> Some(name) in specs
    ensures r.Ok? ==> forall name <- r.value :: ValidName(name)
  {
    var allowed := {};
    for i := 0 to |specs|
      invariant SpecError(specs[i..]) == SpecError(specs)
      invariant forall name :: name in allowed <==> Some(name) in specs[..i]
      invariant forall name <- allowed :: ValidName(name)
    {
      assert specs[i..][0] == specs[i] && specs[i..][1..] == specs[i + 1..];
      assert specs[..i + 1] == specs[..i] + [specs[i]];
      if specs[i].None? {
        return Err(NilSpec);
      }
      var invalid := ValidateFlag(specs[i].value);
      if invalid.Some? {
        return Err(invalid.value);
      }
      allowed := allowed + {specs[i].value};
    }
    assert specs[..|specs|] == specs && specs[|specs|..] == [];
    return Ok(allowed);
  }

  // ---- splitBootstrapArg --------------------------------------------------------------------------------

  function IndexOf(s: string, c: char): (r: Option<nat>)
    ensures r.Some? ==> r.value < |s| && s[r.value] == c && c !in s[..r.value]
    ensures r.None? ==> c !in s
  {
    if s == "" then None
    else if s[0] == c then Some(0)
    else
      match IndexOf(s[1..], c)
      case None => None
      case Some(k) =>
        assert s[..k + 1] == [s[0]] + s[1..][..k];
        Some(k + 1)
  }

  datatype ArgSplit = Unrecognized | Missing(name: string) | Recognized(name: string, value: string, consumed: nat)

  predicate LooksLikeFlag(arg: string) { DASHES <= arg }

  predicate Known(name: string, allowed: set<string>) { name == CONFIG || name in allowed }

  function SplitArg(argv: seq<string>, i: nat, allowed: set<string>): ArgSplit
    requires i < |argv|
  {
    var arg := argv[i];
    if !(DASHES <= arg) || arg == DASHES then Unrecognized
    else
      var body := arg[|DASHES|..];
      var equals := IndexOf(body, '=');
      var name := if equals.Some? then body[..equals.value] else body;
      if !Known(name, allowed) then Unrecognized
      else if equals.Some? then Recognized(name, body[equals.value + 1..], 0)
      else if i + 1 >= |argv| || LooksLikeFlag(argv[i + 1]) then Missing(name)
      else Recognized(name, argv[i + 1], 1)
  }

  // ---- applyBootstrapValue and ParseBootstrapArgs --------------------------------------------------------

  /** `BootstrapResult` as a value. */
  datatype Parsed = Parsed(configPath: string, values: map<string, string>, rest: seq<string>)

  const NOTHING := Parsed("", map[], [])

  function ApplyOne(p: Parsed, name: string, value: string): Result<Parsed, ArgError> {
    if name == CONFIG then
      if p.configPath != "" then Err(Repeated(CONFIG)) else Ok(p.(configPath := value))
    else if name in p.values then Err(Repeated(name))
    else Ok(p.(values := p.values[name := value]))
  }

  function TakeSplit(p: Parsed, split: ArgSplit, remaining: seq<string>): Result<Parsed, ArgError> {
    match split
    case Missing(name) => Err(MissingValue(name))
    case Unrecognized => Ok(p.(rest := remaining))
    case Recognized(name, value, _) => ApplyOne(p, name, value)
  }

  class BootstrapResult {
    var configPath: string
    var values: map<string, string>
    var rest: seq<string>

    constructor ()
      ensures Contents() == NOTHING
    {
      configPath, values, rest := "", map[], [];
    }

    ghost function Contents(): Parsed
      reads this
    {
      Parsed(configPath, values, rest)
    }

    /** `applyBootstrapValue`. */
    method Apply(name: string, value: string) returns (err: Option<ArgError>)
      modifies this
      ensures match ApplyOne(old(Contents()), name, value)
              case Ok(p) => err == None && Contents() == p
              case Err(e) => err == Some(e) && Contents() == old(Contents())
    {
      if name == CONFIG {
        if configPath != "" {
          return Some(Repeated(CONFIG));
        }
        configPath := value;
        return None;
      }
      if name in values {
        return Some(Repeated(name));
      }
      values := values[name := value];
      return None;
    }

    /** The body of the parsing loop, for one token: what is left of argv goes to the rest if the token is no flag. */
    method ApplySplit(split: ArgSplit, remaining: seq<string>) returns (err: Option<ArgError>)
      modifies this
      ensures match TakeSplit(old(Contents()), split, remaining)
              case Ok(p) => err == None && Contents() == p
              case Err(e) => err == Some(e)
    {
      if split.Missing? {
        return Some(MissingValue(split.name));
      }
      if split.Unrecognized? {
        rest := remaining;
        return None;
      }
      err := Apply(split.name, split.value);
    }
  }

  method ParseBootstrapArgs(argv: seq<string>, specs: seq<Option<string>>)
    returns (r: Result<BootstrapResult, ArgError>)
    ensures r.Ok? ==> fresh(r.value)
    ensures match r
            case Err(e) => Parse(argv, specs) == Err(e)
            case Ok(result) => Parse(argv, specs) == Ok(result.Contents())
  {
    var built := BuildAllowed(specs);
    if built.Err? {
      return Err(built.error);
    }
    AllowedIsUnique(specs, built.value);
    r := ParseLeading(argv, built.value);
  }

  /** The loop of `ParseBootstrapArgs`. */
  method ParseLeading(argv: seq<string>, allowed: set<string>) returns (r: Result<BootstrapResult, ArgError>)
    ensures r.Ok? ==> fresh(r.value)
    ensures match r
            case Err(e) => ParseAllowed(argv, allowed) == Err(e)
            case Ok(result) => ParseAllowed(argv, allowed) == Ok(result.Contents())
  {
    var result := new BootstrapResult();
    ghost var n := 0;
    var i := 0;
    while i < |argv|
      invariant fresh(result) && Midway(argv, allowed, i, n, result.Contents())
      decreases |argv| - i
    {
      MidwayStep(argv, allowed, i, n, result.Contents());
      var split := SplitArg(argv, i, allowed);
      var err := result.ApplySplit(split, argv[i..]);
      if err.Some? {
        return Err(err.value);
      }
      if split.Unrecognized? {
        return Ok(result);
      }
      n := n + 1;
      i := i + split.consumed + 1;
    }
    MidwayEnd(argv, allowed, i, n, result.Contents());
    return Ok(result);
  }

  /** The first `n` items, up to `argv[i]`, give `p`. */
  ghost predicate Midway(argv: seq<string>, allowed: set<string>, i: nat, n: nat, p: Parsed) {
    var items := Items(argv, 0, allowed);
    && i <= |argv| && n <= |items| && items[n..] == Items(argv, i, allowed)
       && Stop(argv, i, allowed) == Stop(argv, 0, allowed)
    && p.rest == [] && Evaluate(items[..n]) == Ok(p)
  }

  /** What a token means for the outcome: an error ends the parsing, and so does a token that is no flag. */
  ghost predicate StepOutcome(argv: seq<string>, allowed: set<string>, i: nat, n: nat, next: Result<Parsed, ArgError>,
                              split: ArgSplit)
    requires i < |argv|
  {
    if next.Err? || split.Unrecognized? then ParseAllowed(argv, allowed) == next
    else !split.Missing? && Midway(argv, allowed, i + split.consumed + 1, n + 1, next.value)
  }

  lemma MidwayStep(argv: seq<string>, allowed: set<string>, i: nat, n: nat, p: Parsed)
    requires Midway(argv, allowed, i, n, p) && i < |argv|
    ensures var split := SplitArg(argv, i, allowed);
            StepOutcome(argv, allowed, i, n, TakeSplit(p, split, argv[i..]), split)
  {
    var items := Items(argv, 0, allowed);
    ItemsStep(argv, i, allowed, items, n);
    if SplitArg(argv, i, allowed).Recognized? {
      PrefixValue(items, n);
      PrefixError(items, n + 1);
    }
  }

  lemma MidwayEnd(argv: seq<string>, allowed: set<string>, i: nat, n: nat, p: Parsed)
    requires Midway(argv, allowed, i, n, p) && i >= |argv|
    ensures ParseAllowed(argv, allowed) == Ok(p)
  {
    var items := Items(argv, 0, allowed);
    assert items[..n] == items;
    assert argv[i..] == [];
  }

  // ---- what is parsed, item by item -----------------------------------------------------------------------

  /** One flag with its value, as `--name=value` or as `--name value`. */
  datatype Item = Item(name: string, value: string, inline: bool)

  function ItemAt(argv: seq<string>, i: nat, allowed: set<string>): Item
    requires i < |argv| && SplitArg(argv, i, allowed).Recognized?
  {
    var s := SplitArg(argv, i, allowed);
    Item(s.name, s.value, s.consumed == 0)
  }

  function Width(item: Item): nat { if item.inline then 1 else 2 }

  /** The flags at the front of `argv[i..]`. */
  function Items(argv: seq<string>, i: nat, allowed: set<string>): seq<Item>
    requires i <= |argv|
    decreases |argv| - i
  {
    if i < |argv| && SplitArg(argv, i, allowed).Recognized? then
      var item := ItemAt(argv, i, allowed);
      [item] + Items(argv, i + Width(item), allowed)
    else []
  }

  /** Where they end. */
  function Stop(argv: seq<string>, i: nat, allowed: set<string>): (stop: nat)
    requires i <= |argv|
    ensures i <= stop <= |argv| && (stop < |argv| ==> !SplitArg(argv, stop, allowed).Recognized?)
    decreases |argv| - i
  {
    if i < |argv| && SplitArg(argv, i, allowed).Recognized? then
      Stop(argv, i + Width(ItemAt(argv, i, allowed)), allowed)
    else i
  }

  function Evaluate(items: seq<Item>): Result<Parsed, ArgError> {
    if items == [] then Ok(NOTHING)
    else
      var last := items[|items| - 1];
      match Evaluate(items[..|items| - 1])
      case Err(e) => Err(e)
      case Ok(p) => ApplyOne(p, last.name, last.value)
  }

  function ParseAllowed(argv: seq<string>, allowed: set<string>): Result<Parsed, ArgError> {
    match Evaluate(Items(argv, 0, allowed))
    case Err(e) => Err(e)
    case Ok(p) =>
      var stop := Stop(argv, 0, allowed);
      if stop < |argv| && SplitArg(argv, stop, allowed).Missing? then
        Err(MissingValue(SplitArg(argv, stop, allowed).name))
      else Ok(p.(rest := argv[stop..]))
  }

  function Names(specs: seq<Option<string>>): (names: set<string>)
    ensures forall name :: name in names <==> Some(name) in specs
  {
    set s | s in specs && s.Some? :: s.value
  }

  function Parse(argv: seq<string>, specs: seq<Option<string>>): Result<Parsed, ArgError> {
    if SpecError(specs).Some? then Err(SpecError(specs).value) else ParseAllowed(argv, Names(specs))
  }

  lemma AllowedIsUnique(specs: seq<Option<string>>, allowed: set<string>)
    requires forall name :: name in allowed <==> Some(name) in specs
    ensures allowed == Names(specs)
  {
  }

  lemma {:induction false} ErrorsStick(items: seq<Item>, n: nat)
    requires n <= |items| && Evaluate(items[..n]).Err?
    ensures Evaluate(items) == Evaluate(items[..n])
    decreases |items| - n
  {
    if n < |items| {
      assert items[..n + 1][..n] == items[..n];
      ErrorsStick(items, n + 1);
    } else {
      assert items[..n] == items;
    }
  }

  lemma ItemsStep(argv: seq<string>, i: nat, allowed: set<string>, items: seq<Item>, n: nat)
    requires i < |argv| && n <= |items| && items[n..] == Items(argv, i, allowed)
    ensures var s := SplitArg(argv, i, allowed);
            if s.Recognized? then
              && n < |items| && items[n] == Item(s.name, s.value, s.consumed == 0) && s.consumed <= 1
                 && i + s.consumed < |argv|
              && items[n + 1..] == Items(argv, i + s.consumed + 1, allowed)
              && Stop(argv, i, allowed) == Stop(argv, i + s.consumed + 1, allowed)
            else items[..n] == items && Stop(argv, i, allowed) == i
  {
    if SplitArg(argv, i, allowed).Recognized? {
      ItemsHead(argv, i, allowed);
      assert items[n] == items[n..][0] && items[n + 1..] == items[n..][1..];
    } else {
      assert |items| == n;
    }
  }

  lemma ItemsHead(argv: seq<string>, i: nat, allowed: set<string>)
    requires i < |argv| && SplitArg(argv, i, allowed).Recognized?
    ensures var s := SplitArg(argv, i, allowed);
            && s.consumed <= 1 && i + s.consumed < |argv|
            && Items(argv, i, allowed)
               == [Item(s.name, s.value, s.consumed == 0)] + Items(argv, i + s.consumed + 1, allowed)
            && Stop(argv, i, allowed) == Stop(argv, i + s.consumed + 1, allowed)
  {
  }

  lemma EvaluateSnoc(front: seq<Item>, item: Item)
    ensures Evaluate(front + [item])
            == if Evaluate(front).Err? then Evaluate(front) else ApplyOne(Evaluate(front).value, item.name, item.value)
  {
    var items := front + [item];
    assert items[..|items| - 1] == front && items[|items| - 1] == item;
  }

  lemma PrefixValue(items: seq<Item>, n: nat)
    requires n < |items|
    ensures Evaluate(items[..n]).Ok? ==>
            Evaluate(items[..n + 1]) == ApplyOne(Evaluate(items[..n]).value, items[n].name, items[n].value)
  {
    EvaluateSnoc(items[..n], items[n]);
    assert items[..n + 1] == items[..n] + [items[n]];
  }

  lemma PrefixError(items: seq<Item>, n: nat)
    requires n <= |items|
    ensures Evaluate(items[..n]).Err? ==> Evaluate(items) == Evaluate(items[..n])
  {
    if Evaluate(items[..n]).Err? {
      ErrorsStick(items, n);
    }
  }

  // ---- the grammar ----------------------------------------------------------------------------------------

  function RenderItem(item: Item): seq<string> {
    if item.inline then ["--" + item.name + "=" + item.value] else ["--" + item.name, item.value]
  }

  function RenderAll(items: seq<Item>): seq<string> {
    if items == [] then [] else RenderItem(items[0]) + RenderAll(items[1..])
  }

  /** A known flag; a value in its own token does not look like a flag. */
  predicate WellFormed(item: Item, allowed: set<string>) {
    (item.name == "config" || item.name in allowed) && (item.inline || !("--" <= item.value))
  }

  predicate ValidNames(allowed: set<string>) { forall name <- allowed :: ValidName(name) }

  ghost predicate FlagToken(arg: string, allowed: set<string>) {
    exists name :: (name == "config" || name in allowed) && (arg == "--" + name || "--" + name + "=" <= arg)
  }

  lemma IndexOfFirst(s: string, c: char, k: nat)
    requires k < |s| && s[k] == c && c !in s[..k]
    ensures IndexOf(s, c) == Some(k)
  {
    var r := IndexOf(s, c).value;
    assert forall j :: 0 <= j < k ==> s[..k][j] == s[j];
    assert forall j :: 0 <= j < r ==> s[..r][j] == s[j];
  }

  lemma KnownIsValid(name: string, allowed: set<string>)
    requires ValidNames(allowed) && Known(name, allowed)
    ensures name != "" && '=' !in name
  {
  }

  /** What a token says, by its form. */
  lemma SplitInline(argv: seq<string>, i: nat, allowed: set<string>, name: string, value: string)
    requires ValidNames(allowed) && Known(name, allowed) && i < |argv| && argv[i] == DASHES + name + "=" + value
    ensures SplitArg(argv, i, allowed) == Recognized(name, value, 0)
  {
    KnownIsValid(name, allowed);
    var body := argv[i][|DASHES|..];
    assert body == name + "=" + value;
    assert body[..|name|] == name;
    IndexOfFirst(body, '=', |name|);
    assert body[|name| + 1..] == value;
  }

  lemma SplitBare(argv: seq<string>, i: nat, allowed: set<string>, name: string)
    requires ValidNames(allowed) && Known(name, allowed) && i < |argv| && argv[i] == DASHES + name
    ensures SplitArg(argv, i, allowed)
            == if i + 1 >= |argv| || LooksLikeFlag(argv[i + 1]) then Missing(name) else Recognized(name, argv[i + 1], 1)
  {
    KnownIsValid(name, allowed);
    assert argv[i][|DASHES|..] == name;
  }

  lemma SplitItem(argv: seq<string>, i: nat, allowed: set<string>, item: Item)
    requires ValidNames(allowed) && WellFormed(item, allowed) && i < |argv| && RenderItem(item) <= argv[i..]
    ensures SplitArg(argv, i, allowed).Recognized? && ItemAt(argv, i, allowed) == item
  {
    assert argv[i] == argv[i..][0];
    if item.inline {
      SplitInline(argv, i, allowed, item.name, item.value);
    } else {
      assert argv[i + 1] == argv[i..][1];
      SplitBare(argv, i, allowed, item.name);
    }
  }

  lemma BodyOf(arg: string)
    requires DASHES <= arg
    ensures var body := arg[|DASHES|..];
            match IndexOf(body, '=')
            case None => arg == DASHES + body
            case Some(k) => arg == DASHES + body[..k] + "=" + body[k + 1..]
  {
    var body := arg[|DASHES|..];
    assert arg == DASHES + body;
    if IndexOf(body, '=').Some? {
      var k := IndexOf(body, '=').value;
      assert body == body[..k] + "=" + body[k + 1..];
    }
  }

  lemma ItemRenders(argv: seq<string>, i: nat, allowed: set<string>)
    requires i < |argv| && SplitArg(argv, i, allowed).Recognized?
    ensures var item := ItemAt(argv, i, allowed);
            && WellFormed(item, allowed) && i + Width(item) <= |argv|
            && argv[i..] == RenderItem(item) + argv[i + Width(item)..]
  {
    BodyOf(argv[i]);
  }

  lemma UnrecognizedIsNoFlag(argv: seq<string>, i: nat, allowed: set<string>)
    requires ValidNames(allowed) && i < |argv|
    ensures SplitArg(argv, i, allowed).Unrecognized? <==> !FlagToken(argv[i], allowed)
  {
    var arg := argv[i];
    if name :| Known(name, allowed) && (arg == DASHES + name || DASHES + name + "=" <= arg) {
      if arg == DASHES + name {
        SplitBare(argv, i, allowed, name);
      } else {
        var value := arg[|DASHES + name + "="|..];
        assert arg == DASHES + name + "=" + value;
        SplitInline(argv, i, allowed, name, value);
      }
    }
    if !SplitArg(argv, i, allowed).Unrecognized? {
      BodyOf(arg);
      var body := arg[|DASHES|..];
      var name := if IndexOf(body, '=').Some? then body[..IndexOf(body, '=').value] else body;
      assert Known(name, allowed) && (arg == DASHES + name || DASHES + name + "=" <= arg);
    }
  }

  /** The items rendered again, and the tokens after them, are argv. */
  lemma {:induction false} ItemsRender(argv: seq<string>, i: nat, allowed: set<string>)
    requires i <= |argv|
    ensures argv[i..] == RenderAll(Items(argv, i, allowed)) + argv[Stop(argv, i, allowed)..]
    ensures forall item <- Items(argv, i, allowed) :: WellFormed(item, allowed)
    decreases |argv| - i
  {
    if i < |argv| && SplitArg(argv, i, allowed).Recognized? {
      var item := ItemAt(argv, i, allowed);
      var next := i + Width(item);
      assert WellFormed(item, allowed) && next <= |argv| && argv[i..] == RenderItem(item) + argv[next..] by {
        ItemRenders(argv, i, allowed);
      }
      ItemsRender(argv, next, allowed);
      assert Items(argv, i, allowed) == [item] + Items(argv, next, allowed);
      assert Stop(argv, i, allowed) == Stop(argv, next, allowed);
      RenderCons(item, Items(argv, next, allowed));
      Associative(RenderItem(item), RenderAll(Items(argv, next, allowed)), argv[Stop(argv, next, allowed)..]);
    } else {
      assert RenderAll([]) + argv[i..] == argv[i..];
    }
  }

  lemma RenderCons(item: Item, items: seq<Item>)
    ensures RenderAll([item] + items) == RenderItem(item) + RenderAll(items)
  {
    assert ([item] + items)[1..] == items;
  }

  ghost predicate NoFlagFirst(rest: seq<string>, allowed: set<string>) {
    rest == [] || !FlagToken(rest[0], allowed)
  }

  lemma ItemsCons(front: seq<string>, item: Item, tail: seq<string>, allowed: set<string>)
    requires ValidNames(allowed) && WellFormed(item, allowed)
    ensures var argv, next := front + RenderItem(item) + tail, |front + RenderItem(item)|;
            && Items(argv, |front|, allowed) == [item] + Items(argv, next, allowed)
            && Stop(argv, |front|, allowed) == Stop(argv, next, allowed)
  {
    var argv := front + RenderItem(item) + tail;
    assert argv[|front|..] == RenderItem(item) + tail;
    SplitItem(argv, |front|, allowed, item);
  }

  /** A known flag that lacks its value. */
  ghost predicate LacksValue(rest: seq<string>, allowed: set<string>, name: string) {
    && (name == "config" || name in allowed)
    && rest != [] && rest[0] == "--" + name && (|rest| == 1 || "--" <= rest[1])
  }

  /** Reading stops before `rest`. */
  ghost predicate StopsAt(rest: seq<string>, allowed: set<string>) {
    NoFlagFirst(rest, allowed) || exists name :: LacksValue(rest, allowed, name)
  }

  lemma SplitLacking(front: seq<string>, rest: seq<string>, allowed: set<string>, name: string)
    requires ValidNames(allowed) && LacksValue(rest, allowed, name)
    ensures SplitArg(front + rest, |front|, allowed) == Missing(name)
  {
    SplitBare(front + rest, |front|, allowed, name);
  }

  lemma NoItems(front: seq<string>, rest: seq<string>, allowed: set<string>)
    requires ValidNames(allowed) && StopsAt(rest, allowed)
    ensures Items(front + rest, |front|, allowed) == [] && Stop(front + rest, |front|, allowed) == |front|
  {
    if NoFlagFirst(rest, allowed) {
      if rest != [] {
        UnrecognizedIsNoFlag(front + rest, |front|, allowed);
      }
    } else {
      var name :| LacksValue(rest, allowed, name);
      SplitLacking(front, rest, allowed, name);
    }
  }

  lemma RenderFront(front: seq<string>, items: seq<Item>, rest: seq<string>)
    requires items != []
    ensures front + RenderAll(items) == front + RenderItem(items[0]) + RenderAll(items[1..])
    ensures front + RenderAll(items) + rest == front + RenderItem(items[0]) + (RenderAll(items[1..]) + rest)
  {
    Associative(front, RenderItem(items[0]), RenderAll(items[1..]));
    Associative(front + RenderItem(items[0]), RenderAll(items[1..]), rest);
  }

  /** Rendered items are read back, and reading stops where they end. */
  lemma {:induction false} RenderedItems(front: seq<string>, items: seq<Item>, rest: seq<string>, allowed: set<string>)
    requires ValidNames(allowed) && StopsAt(rest, allowed)
    requires forall item <- items :: WellFormed(item, allowed)
    ensures var argv := front + RenderAll(items) + rest;
            Items(argv, |front|, allowed) == items && Stop(argv, |front|, allowed) == |front + RenderAll(items)|
    decreases |items|
  {
    if items == [] {
      assert front + RenderAll(items) == front;
      NoItems(front, rest, allowed);
    } else {
      var item, tail := items[0], items[1..];
      RenderFront(front, items, rest);
      RenderedItems(front + RenderItem(item), tail, rest, allowed);
      ItemsCons(front, item, RenderAll(tail) + rest, allowed);
      assert front + RenderItem(item) + RenderAll(tail) + rest == front + RenderItem(item) + (RenderAll(tail) + rest);
    }
  }

  // ---- what the outcome means -----------------------------------------------------------------------------

  /** No flag is repeated, except that `--config` with an empty value does not count as an occurrence. */
  predicate Good(items: seq<Item>) {
    forall i, j :: 0 <= i < j < |items| && items[i].name == items[j].name ==>
      items[i].name == "config" && items[i].value == ""
  }

  predicate Given(items: seq<Item>, name: string, value: string) {
    exists item <- items :: item.name == name && item.value == value
  }

  /** `values` has exactly the flags other than `--config`, each with its value. */
  ghost predicate MeansValues(items: seq<Item>, values: map<string, string>) {
    && (forall item <- items :: item.name != "config" ==> item.name in values && values[item.name] == item.value)
    && (forall name <- values :: name != "config" && Given(items, name, values[name]))
  }

  ghost predicate MeansConfig(items: seq<Item>, configPath: string) {
    if configPath != "" then Given(items, "config", configPath)
    else forall item <- items :: item.name == "config" ==> item.value == ""
  }

  ghost predicate Means(items: seq<Item>, p: Parsed) {
    MeansValues(items, p.values) && MeansConfig(items, p.configPath)
  }

  /** `item` repeats a flag that `items` already give. */
  predicate Repeats(items: seq<Item>, item: Item) {
    exists it <- items :: it.name == item.name && !(it.name == "config" && it.value == "")
  }

  lemma GoodStep(front: seq<Item>, item: Item)
    ensures Good(front + [item]) <==> Good(front) && !Repeats(front, item)
  {
    var items := front + [item];
    assert forall i :: 0 <= i < |front| ==> items[i] == front[i];
    if Good(items) {
      forall it <- front
        ensures !(it.name == item.name && !(it.name == CONFIG && it.value == ""))
      {
        var i :| 0 <= i < |front| && front[i] == it;
        assert items[i] == it && items[|front|] == item;
      }
    }
    if Good(front) && !Repeats(front, item) {
      forall i, j | 0 <= i < j < |items| && items[i].name == items[j].name
        ensures items[i].name == CONFIG && items[i].value == ""
      {
        assert front[i] in front;
      }
    }
  }

  lemma MeansStep(front: seq<Item>, item: Item, p: Parsed)
    requires Means(front, p)
    ensures if Repeats(front, item) then ApplyOne(p, item.name, item.value) == Err(Repeated(item.name))
            else
              && ApplyOne(p, item.name, item.value).Ok?
              && Means(front + [item], ApplyOne(p, item.name, item.value).value)
  {
    assert forall it :: it in front + [item] <==> it in front || it == item;
    if !Repeats(front, item) {
      var q := ApplyOne(p, item.name, item.value).value;
      assert forall name, value :: Given(front, name, value) ==> Given(front + [item], name, value);
      assert Given(front + [item], item.name, item.value);
    }
  }

  /** The outcome of applying the items: what they mean if they are good, or else the first repetition. */
  lemma {:induction false} EvaluateMeans(items: seq<Item>)
    ensures Good(items) ==>
              && Evaluate(items).Ok? && Means(items, Evaluate(items).value) && Evaluate(items).value.rest == []
    ensures !Good(items) ==> exists n :: 0 <= n < |items| && Good(items[..n]) && Repeats(items[..n], items[n])
                                         && Evaluate(items) == Err(Repeated(items[n].name))
  {
    if items != [] {
      var m := |items| - 1;
      assert items == items[..m] + [items[m]];
      EvaluateMeans(items[..m]);
      GoodStep(items[..m], items[m]);
      if Good(items[..m]) {
        MeansStep(items[..m], items[m], Evaluate(items[..m]).value);
      } else {
        var n :| 0 <= n < m && Good(items[..m][..n]) && Repeats(items[..m][..n], items[..m][n])
                 && Evaluate(items[..m]) == Err(Repeated(items[..m][n].name));
        assert items[..m][..n] == items[..n];
      }
    }
  }

  lemma MeansUnique(items: seq<Item>, p: Parsed, q: Parsed)
    requires Good(items) && Means(items, p) && Means(items, q)
    ensures p.values == q.values && p.configPath == q.configPath
  {
    forall name | name in p.values || name in q.values
      ensures name in p.values && name in q.values && p.values[name] == q.values[name]
    {
    }
    if p.configPath != "" && q.configPath != "" {
      var i :| 0 <= i < |items| && items[i].name == CONFIG && items[i].value == p.configPath;
      var j :| 0 <= j < |items| && items[j].name == CONFIG && items[j].value == q.configPath;
      assert i < j || j < i || i == j;
    }
  }

  lemma ItemsOfArgv(argv: seq<string>, allowed: set<string>)
    ensures argv == RenderAll(Items(argv, 0, allowed)) + argv[Stop(argv, 0, allowed)..]
    ensures forall item <- Items(argv, 0, allowed) :: WellFormed(item, allowed)
  {
    ItemsRender(argv, 0, allowed);
    assert argv[0..] == argv;
  }

  lemma ParsedItems(argv: seq<string>, allowed: set<string>, p: Parsed) returns (items: seq<Item>)
    requires ValidNames(allowed) && ParseAllowed(argv, allowed) == Ok(p)
    ensures (forall item <- items :: WellFormed(item, allowed)) && Good(items) && Means(items, p)
    ensures argv == RenderAll(items) + p.rest && NoFlagFirst(p.rest, allowed)
  {
    items := Items(argv, 0, allowed);
    var stop := Stop(argv, 0, allowed);
    EvaluateMeans(items);
    ItemsOfArgv(argv, allowed);
    if stop < |argv| {
      UnrecognizedIsNoFlag(argv, stop, allowed);
    }
  }

  /** Parsing succeeds with `p` if and only if argv is rendered known flags, none repeated, followed by the rest,
      which does not start with a known flag; and `p` holds exactly their values. So what is consumed, followed by the
      rest, is argv. */
  lemma LeadingIsGrammatical(argv: seq<string>, allowed: set<string>, p: Parsed)
    requires ValidNames(allowed)
    ensures ParseAllowed(argv, allowed) == Ok(p)
            <==> exists items :: (forall item <- items :: WellFormed(item, allowed)) && Good(items) && Means(items, p)
                                 && argv == RenderAll(items) + p.rest && NoFlagFirst(p.rest, allowed)
  {
    if ParseAllowed(argv, allowed) == Ok(p) {
      var items := ParsedItems(argv, allowed, p);
    }
    if items :| (forall item <- items :: WellFormed(item, allowed)) && Good(items) && Means(items, p)
                && argv == RenderAll(items) + p.rest && NoFlagFirst(p.rest, allowed) {
      RoundTrip(items, p.rest, allowed, p);
    }
  }

  /** Good flags in any order and either form, followed by a rest that does not start with a known flag, parse to
      exactly their values, whatever those contain, and that rest. */
  lemma RoundTrip(items: seq<Item>, rest: seq<string>, allowed: set<string>, p: Parsed)
    requires ValidNames(allowed) && NoFlagFirst(rest, allowed)
    requires (forall item <- items :: WellFormed(item, allowed)) && Good(items) && Means(items, p) && p.rest == rest
    ensures ParseAllowed(RenderAll(items) + rest, allowed) == Ok(p)
  {
    ReadBack(items, rest, allowed);
    EvaluateMeans(items);
    MeansUnique(items, p, Evaluate(items).value);
  }

  lemma ReadBack(items: seq<Item>, rest: seq<string>, allowed: set<string>)
    requires ValidNames(allowed) && NoFlagFirst(rest, allowed)
    requires forall item <- items :: WellFormed(item, allowed)
    ensures var argv := RenderAll(items) + rest;
            var stop := Stop(argv, 0, allowed);
            && Items(argv, 0, allowed) == items && argv[stop..] == rest
            && (stop < |argv| ==> SplitArg(argv, stop, allowed).Unrecognized?)
  {
    var head := RenderAll(items);
    RenderedItems([], items, rest, allowed);
    EmptyFront(head);
    RestUnrecognized(head, rest, allowed);
  }

  lemma EmptyFront<T>(s: seq<T>)
    ensures [] + s == s
  {
  }

  lemma RestUnrecognized(head: seq<string>, rest: seq<string>, allowed: set<string>)
    requires ValidNames(allowed) && NoFlagFirst(rest, allowed)
    ensures (head + rest)[|head|..] == rest
    ensures rest != [] ==> SplitArg(head + rest, |head|, allowed).Unrecognized?
  {
    if rest != [] {
      UnrecognizedIsNoFlag(head + rest, |head|, allowed);
    }
  }

  lemma MissingTail(argv: seq<string>, i: nat, allowed: set<string>)
    requires i < |argv| && SplitArg(argv, i, allowed).Missing?
    ensures LacksValue(argv[i..], allowed, SplitArg(argv, i, allowed).name)
  {
    BodyOf(argv[i]);
    assert i + 1 < |argv| ==> argv[i..][1] == argv[i + 1];
  }

  lemma MissingItems(argv: seq<string>, allowed: set<string>, name: string)
    returns (items: seq<Item>, rest: seq<string>)
    requires ParseAllowed(argv, allowed) == Err(MissingValue(name))
    ensures (forall item <- items :: WellFormed(item, allowed)) && Good(items)
    ensures argv == RenderAll(items) + rest && LacksValue(rest, allowed, name)
  {
    var stop := Stop(argv, 0, allowed);
    items, rest := Items(argv, 0, allowed), argv[stop..];
    EvaluateMeans(items);
    ItemsOfArgv(argv, allowed);
    MissingTail(argv, stop, allowed);
  }

  /** A value is reported missing if and only if good flags are followed by a known flag that ends argv or precedes
      another flag. */
  lemma MissingIsGrammatical(argv: seq<string>, allowed: set<string>, name: string)
    requires ValidNames(allowed)
    ensures ParseAllowed(argv, allowed) == Err(MissingValue(name))
            <==> exists items, rest :: (forall item <- items :: WellFormed(item, allowed)) && Good(items)
                                       && argv == RenderAll(items) + rest && LacksValue(rest, allowed, name)
  {
    if ParseAllowed(argv, allowed) == Err(MissingValue(name)) {
      var items, rest := MissingItems(argv, allowed, name);
    }
    if items, rest :| (forall item <- items :: WellFormed(item, allowed)) && Good(items)
                      && argv == RenderAll(items) + rest && LacksValue(rest, allowed, name) {
      MissingReported(items, rest, allowed, name);
    }
  }

  lemma MissingReported(items: seq<Item>, rest: seq<string>, allowed: set<string>, name: string)
    requires ValidNames(allowed) && LacksValue(rest, allowed, name)
    requires (forall item <- items :: WellFormed(item, allowed)) && Good(items)
    ensures ParseAllowed(RenderAll(items) + rest, allowed) == Err(MissingValue(name))
  {
    var head := RenderAll(items);
    RenderedItems([], items, rest, allowed);
    EmptyFront(head);
    SplitLacking(head, rest, allowed, name);
    EvaluateMeans(items);
  }

  /** An empty `--config=` may be followed by another: the repetition is not reported. */
  lemma EmptyConfigIsNotCounted(path: string, allowed: set<string>)
    requires ValidNames(allowed)
    ensures ParseAllowed(["--config=", "--config=" + path], allowed) == Ok(Parsed(path, map[], []))
  {
    var first, second := Item("config", "", true), Item("config", path, true);
    var argv := ["--config=", "--config=" + path];
    RenderCons(first, [second]);
    RenderCons(second, []);
    assert [first] + [second] == [first, second] && [second] + [] == [second];
    assert "--" + "config" + "=" == "--config=" && "--config=" + "" == "--config=";
    assert RenderAll([first, second]) + [] == argv;
    assert path != "" ==> Given([first, second], "config", path);
    RoundTrip([first, second], [], allowed, Parsed(path, map[], []));
  }

  /** The names accepted from the specs are the valid ones. */
  lemma {:induction false} SpecsAreValid(specs: seq<Option<string>>)
    ensures SpecError(specs).None? <==> (forall s <- specs :: s.Some? && ValidName(s.value))
  {
    if specs != [] {
      SpecsAreValid(specs[1..]);
      assert specs == [specs[0]] + specs[1..];
      assert specs[0] in specs;
      assert forall s <- specs[1..] :: s in specs;
      assert forall s <- specs :: s == specs[0] || s in specs[1..];
    }
  }

  /** What is wrong with a spec; of several reasons the first in this order counts. */
  predicate SpecIs(spec: Option<string>, e: ArgError) {
    match e
    case NilSpec => spec == None
    case EmptyName => spec == Some("")
    case DashedName(name) => spec == Some(name) && "--" <= name
    case EqualsInName(name) => spec == Some(name) && !("--" <= name) && '=' in name
    case _ => false
  }

  /** The error reported is that of the first spec that is not valid. */
  lemma {:induction false} FirstSpecIsReported(specs: seq<Option<string>>, e: ArgError)
    ensures SpecError(specs) == Some(e)
            <==> exists n :: 0 <= n < |specs| && SpecIs(specs[n], e)
                             && forall m :: 0 <= m < n ==> specs[m].Some? && ValidName(specs[m].value)
  {
    if specs != [] {
      FirstSpecIsReported(specs[1..], e);
      if SpecError(specs) == Some(e) {
        if specs[0].Some? && ValidName(specs[0].value) {
          var n :| 0 <= n < |specs[1..]| && SpecIs(specs[1..][n], e)
                   && forall m :: 0 <= m < n ==> specs[1..][m].Some? && ValidName(specs[1..][m].value);
          assert SpecIs(specs[n + 1], e);
        } else {
          assert SpecIs(specs[0], e);
        }
      }
      if n :| 0 <= n < |specs| && SpecIs(specs[n], e)
              && forall m :: 0 <= m < n ==> specs[m].Some? && ValidName(specs[m].value) {
        if n > 0 {
          assert SpecIs(specs[1..][n - 1], e);
          assert specs[0].Some? && ValidName(specs[0].value);
        }
      }
    }
  }

  /** `ParseBootstrapArgs` as a whole: it succeeds with `p` if and only if every spec is valid and argv is rendered
      flags, the reserved one or declared by some spec, none repeated, followed by the rest. */
  lemma ParsingIsGrammatical(argv: seq<string>, specs: seq<Option<string>>, p: Parsed)
    ensures Parse(argv, specs) == Ok(p)
            <==> && (forall s <- specs :: s.Some? && ValidName(s.value))
                 && exists items: seq<Item> ::
                      && (forall item <- items :: item.name == "config" || Some(item.name) in specs)
                      && (forall item <- items :: item.inline || !("--" <= item.value))
                      && Good(items) && Means(items, p)
                      && argv == RenderAll(items) + p.rest && NoFlagFirst(p.rest, Names(specs))
  {
    SpecsAreValid(specs);
    if SpecError(specs).None? {
      LeadingIsGrammatical(argv, Names(specs), p);
    }
  }
}
