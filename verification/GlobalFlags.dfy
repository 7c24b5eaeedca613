/** Extraction of `--json` and `--output` from argv before the command tree sees it (`transport/cli/runner.go`).

    The loop is proved against a grammar: argv is read as a sequence of lexemes, and the outcome is decided by the
    lexemes alone. */
module GlobalFlags {
  import opened Options

  datatype Key = Json | Output

  datatype OutputFormat = TextOutput | JsonOutput

  datatype FlagError = NeedsValue(key: Key) | Repeated(key: Key) | BadOutput(value: string)

  /** The remaining arguments and the extracted flags; a flag is `Some` once seen. */
  datatype Parsed = Parsed(remaining: seq<string>, json: Option<string>, output: Option<OutputFormat>)

  const NOTHING := Parsed([], None, None)

  // ---- splitGlobalFlag and preParseGlobalFlags ------------------------------------------------------

  datatype Split = NotFlag | Flag(key: Key, value: string, consumed: nat)

  /** One round of the loop in `splitGlobalFlag`. */
  function SplitFor(key: Key, args: seq<string>, i: nat): Split
    requires i < |args|
  {
    var prefix := if key == Json then "--json" else "--output";
    if args[i] == prefix then
      if i + 1 < |args| then Flag(key, args[i + 1], 1) else Flag(key, "", 0)
    else if prefix + "=" <= args[i] then Flag(key, args[i][|prefix| + 1..], 0)
    else NotFlag
  }

  function SplitGlobalFlag(args: seq<string>, i: nat): Split
    requires i < |args|
  {
    if SplitFor(Json, args, i).Flag? then SplitFor(Json, args, i) else SplitFor(Output, args, i)
  }

  function ParseFormat(value: string): Option<OutputFormat> {
    if value == "text" then Some(TextOutput) else if value == "json" then Some(JsonOutput) else None
  }

  /** `setOnce` and `setOutputFormat`, after the check that the value is not empty. */
  function SetFlag(p: Parsed, key: Key, value: string): Result<Parsed, FlagError> {
    if value == "" then Err(NeedsValue(key))
    else
      match key
      case Json => if p.json.Some? then Err(Repeated(key)) else Ok(p.(json := Some(value)))
      case Output =>
        if p.output.Some? then Err(Repeated(key))
        else if ParseFormat(value).None? then Err(BadOutput(value))
        else Ok(p.(output := ParseFormat(value)))
  }

  method PreParseGlobalFlags(args: seq<string>) returns (r: Result<Parsed, FlagError>)
    ensures r == Evaluate(Lex(args, 0))
  {
    var p := NOTHING;
    var i := 0;
    ghost var n: nat := 0;
    ghost var ls := Lex(args, 0);
    while i < |args|
      invariant i <= |args| && n <= |ls| && ls[n..] == Lex(args, i)
      invariant Evaluate(ls[..n]) == Ok(p)
      decreases |args| - i
    {
      EvaluateStep(args, i, ls, n);
      LexOneMeans(args, i, p);
      var split := SplitGlobalFlag(args, i);
      if split.NotFlag? {
        p := p.(remaining := p.remaining + [args[i]]);
      } else {
        var next := SetFlag(p, split.key, split.value);
        if next.Err? {
          return next;
        }
        p := next.value;
        i := i + split.consumed;
      }
      n := n + 1;
      i := i + 1;
    }
    assert ls[..n] == ls;
    return Ok(p);
  }

  // ---- the grammar ----------------------------------------------------------------------------------

  function NameOf(key: Key): string {
    match key
    case Json => "--json"
    case Output => "--output"
  }

  predicate HasValue(key: Key, arg: string) { NameOf(key) + "=" <= arg }

  datatype Lexeme =
    | Plain(arg: string)
    | Inline(key: Key, value: string)
    | Spaced(key: Key, value: string)
    | Bare(key: Key)

  function RenderOne(l: Lexeme): seq<string> {
    match l
    case Plain(arg) => [arg]
    case Inline(key, value) => [NameOf(key) + "=" + value]
    case Spaced(key, value) => [NameOf(key), value]
    case Bare(key) => [NameOf(key)]
  }

  function Render(ls: seq<Lexeme>): seq<string> {
    if ls == [] then [] else RenderOne(ls[0]) + Render(ls[1..])
  }

  predicate IsFlag(arg: string) {
    exists key :: arg == NameOf(key) || HasValue(key, arg)
  }

  /** Plain arguments do not look like flags, and only the last lexeme may lack its value. */
  predicate WellLexed(ls: seq<Lexeme>) {
    && (forall l <- ls :: l.Plain? ==> !IsFlag(l.arg))
    && (forall i :: 0 <= i < |ls| - 1 ==> !ls[i].Bare?)
  }

  function LexOne(args: seq<string>, i: nat): Lexeme
    requires i < |args|
  {
    match SplitGlobalFlag(args, i)
    case NotFlag => Plain(args[i])
    case Flag(key, value, consumed) =>
      if args[i] != NameOf(key) then Inline(key, value) else if consumed == 1 then Spaced(key, value) else Bare(key)
  }

  /** The lexemes of `args[i..]`. */
  function Lex(args: seq<string>, i: nat): seq<Lexeme>
    requires i <= |args|
    decreases |args| - i
  {
    if i == |args| then []
    else
      var l := LexOne(args, i);
      [l] + Lex(args, i + if l.Spaced? then 2 else 1)
  }

  function ValueOf(l: Lexeme): string
    requires !l.Plain?
  {
    if l.Bare? then "" else l.value
  }

  function EvaluateOne(p: Parsed, l: Lexeme): Result<Parsed, FlagError> {
    if l.Plain? then Ok(p.(remaining := p.remaining + [l.arg])) else SetFlag(p, l.key, ValueOf(l))
  }

  /** Left to right, up to the first error. */
  function Evaluate(ls: seq<Lexeme>): Result<Parsed, FlagError> {
    if ls == [] then Ok(NOTHING)
    else
      var l := ls[|ls| - 1];
      match Evaluate(ls[..|ls| - 1])
      case Err(e) => Err(e)
      case Ok(p) => EvaluateOne(p, l)
  }

  lemma LexOneShape(args: seq<string>, i: nat)
    requires i < |args|
    ensures var s, l := SplitGlobalFlag(args, i), LexOne(args, i);
            if s.NotFlag? then l == Plain(args[i])
            else !l.Plain? && l.key == s.key && ValueOf(l) == s.value && s.consumed == if l.Spaced? then 1 else 0
    ensures LexOne(args, i).Spaced? ==> i + 2 <= |args|
  {
  }

  /** What one token says is what its lexeme says. */
  lemma LexOneMeans(args: seq<string>, i: nat, p: Parsed)
    requires i < |args|
    ensures var s, l := SplitGlobalFlag(args, i), LexOne(args, i);
            && EvaluateOne(p, l) == (if s.NotFlag? then Ok(p.(remaining := p.remaining + [args[i]]))
                                     else SetFlag(p, s.key, s.value))
            && (s.NotFlag? ==> !l.Spaced?)
            && (s.Flag? ==> s.consumed == if l.Spaced? then 1 else 0)
            && (l.Spaced? ==> i + 2 <= |args|)
  {
    LexOneShape(args, i);
  }

  lemma EvaluateStep(args: seq<string>, i: nat, ls: seq<Lexeme>, n: nat)
    requires i < |args| && n <= |ls| && ls[n..] == Lex(args, i)
    ensures n < |ls| && ls[n] == LexOne(args, i)
    ensures ls[n + 1..] == Lex(args, i + if LexOne(args, i).Spaced? then 2 else 1)
    ensures Evaluate(ls[..n]).Ok? ==> Evaluate(ls[..n + 1]) == EvaluateOne(Evaluate(ls[..n]).value, ls[n])
    ensures Evaluate(ls[..n + 1]).Err? ==> Evaluate(ls) == Evaluate(ls[..n + 1])
  {
    assert ls[n] == ls[n..][0] && ls[n + 1..] == ls[n..][1..];
    assert ls[..n + 1][..n] == ls[..n];
    if Evaluate(ls[..n + 1]).Err? {
      assert ls == ls[..n + 1] + ls[n + 1..];
      ErrorsStick(ls[..n + 1], ls[n + 1..]);
    }
  }

  /** Nothing that follows an offence is looked at. */
  lemma {:induction false} ErrorsStick(front: seq<Lexeme>, rest: seq<Lexeme>)
    requires Evaluate(front).Err?
    ensures Evaluate(front + rest) == Evaluate(front)
    decreases |rest|
  {
    if rest == [] {
      assert front + rest == front;
    } else {
      var longer := front + [rest[0]];
      assert longer[..|front|] == front;
      assert front + rest == longer + rest[1..];
      ErrorsStick(longer, rest[1..]);
    }
  }

  // ---- lexing and rendering are inverse ------------------------------------------------------------

  lemma RenderCons(l: Lexeme, ls: seq<Lexeme>)
    ensures Render([l] + ls) == RenderOne(l) + Render(ls)
  {
    assert ([l] + ls)[1..] == ls;
  }

  function Next(args: seq<string>, i: nat): nat
    requires i < |args|
  {
    i + if LexOne(args, i).Spaced? then 2 else 1
  }

  lemma LexOneRenders(args: seq<string>, i: nat)
    requires i < |args|
    ensures Next(args, i) <= |args| && args[i..] == RenderOne(LexOne(args, i)) + args[Next(args, i)..]
    ensures LexOne(args, i).Bare? ==> Next(args, i) == |args|
    ensures LexOne(args, i).Plain? ==> !IsFlag(LexOne(args, i).arg)
  {
    var l := LexOne(args, i);
    if l.Inline? {
      assert args[i] == NameOf(l.key) + "=" + l.value;
    }
    if l.Plain? {
      assert SplitFor(Json, args, i).NotFlag? && SplitFor(Output, args, i).NotFlag?;
    }
  }

  lemma WellLexedCons(l: Lexeme, ls: seq<Lexeme>)
    requires WellLexed(ls) && (l.Plain? ==> !IsFlag(l.arg)) && (l.Bare? ==> ls == [])
    ensures WellLexed([l] + ls)
  {
    forall m | m in [l] + ls
      ensures m == l || m in ls
    {
    }
  }

  lemma {:induction false} LexesWell(args: seq<string>, i: nat)
    requires i <= |args|
    ensures WellLexed(Lex(args, i))
    decreases |args| - i
  {
    if i < |args| {
      LexesWell(args, Next(args, i));
      LexOneWell(args, i);
      WellLexedCons(LexOne(args, i), Lex(args, Next(args, i)));
    }
  }

  lemma LexOneWell(args: seq<string>, i: nat)
    requires i < |args|
    ensures Next(args, i) <= |args|
    ensures LexOne(args, i).Plain? ==> !IsFlag(LexOne(args, i).arg)
    ensures LexOne(args, i).Bare? ==> Lex(args, Next(args, i)) == []
  {
    LexOneRenders(args, i);
  }

  /** Nothing of argv is lost or reordered by lexing. */
  lemma {:induction false} RenderLex(args: seq<string>, i: nat)
    requires i <= |args|
    ensures Render(Lex(args, i)) == args[i..]
    decreases |args| - i
  {
    if i < |args| {
      LexOneRenders(args, i);
      RenderLex(args, Next(args, i));
      RenderCons(LexOne(args, i), Lex(args, Next(args, i)));
    }
  }

  lemma NamesDiffer(key: Key, other: Key, arg: string)
    requires key != other && (arg == NameOf(key) || HasValue(key, arg))
    ensures arg != NameOf(other) && !HasValue(other, arg)
  {
    assert NameOf(Json)[2] == 'j' && NameOf(Output)[2] == 'o';
    assert arg[2] == NameOf(key)[2];
  }

  lemma NoValueInName(key: Key)
    ensures !HasValue(key, NameOf(key))
  {
  }

  lemma LexOneOfRendered(args: seq<string>, i: nat, l: Lexeme)
    requires i < |args| && RenderOne(l) <= args[i..]
    requires l.Plain? ==> !IsFlag(l.arg)
    requires l.Bare? ==> i + 1 == |args|
    ensures LexOne(args, i) == l
  {
    assert args[i] == args[i..][0] == RenderOne(l)[0];
    if l.Plain? {
      assert forall key :: args[i] != NameOf(key) && !HasValue(key, args[i]);
    } else {
      var other := if l.key == Json then Output else Json;
      NoValueInName(l.key);
      NamesDiffer(l.key, other, args[i]);
      assert SplitFor(other, args, i).NotFlag?;
      if l.Inline? {
        assert |args[i]| > |NameOf(l.key)|;
        assert args[i][|NameOf(l.key)| + 1..] == l.value;
      } else if l.Spaced? {
        assert args[i + 1] == args[i..][1] == l.value;
      }
    }
  }

  lemma LexCons(front: seq<string>, l: Lexeme, tail: seq<string>)
    requires l.Plain? ==> !IsFlag(l.arg)
    requires l.Bare? ==> tail == []
    ensures var args := front + RenderOne(l) + tail;
            Lex(args, |front|) == [l] + Lex(args, |front + RenderOne(l)|)
  {
    var args := front + RenderOne(l) + tail;
    assert args[|front|..] == RenderOne(l) + tail;
    LexOneOfRendered(args, |front|, l);
  }

  lemma RenderFront(front: seq<string>, ls: seq<Lexeme>)
    requires ls != []
    ensures front + Render(ls) == front + RenderOne(ls[0]) + Render(ls[1..])
  {
  }

  lemma WellLexedHead(ls: seq<Lexeme>)
    requires WellLexed(ls) && ls != []
    ensures WellLexed(ls[1..])
    ensures ls[0].Plain? ==> !IsFlag(ls[0].arg)
    ensures ls[0].Bare? ==> Render(ls[1..]) == []
  {
  }

  /** argv is read in only one way. */
  lemma {:induction false} LexRender(front: seq<string>, ls: seq<Lexeme>)
    requires WellLexed(ls)
    ensures Lex(front + Render(ls), |front|) == ls
    decreases |ls|
  {
    if ls == [] {
      assert front + Render(ls) == front;
    } else {
      WellLexedHead(ls);
      LexRender(front + RenderOne(ls[0]), ls[1..]);
      LexCons(front, ls[0], Render(ls[1..]));
      RenderFront(front, ls);
    }
  }

  // ---- what the outcome means -----------------------------------------------------------------------

  function PlainArgs(ls: seq<Lexeme>): seq<string> {
    if ls == [] then []
    else
      var l := ls[|ls| - 1];
      PlainArgs(ls[..|ls| - 1]) + if l.Plain? then [l.arg] else []
  }

  predicate Sets(l: Lexeme, key: Key) { !l.Plain? && l.key == key }

  predicate AcceptsValue(key: Key, value: string) {
    value != "" && (key == Output ==> value == "text" || value == "json")
  }

  /** Every flag has an acceptable value, and none is given twice. */
  predicate Good(ls: seq<Lexeme>) {
    && (forall l <- ls :: l.Plain? || AcceptsValue(l.key, ValueOf(l)))
    && (forall i, j :: 0 <= i < j < |ls| && !ls[i].Plain? && !ls[j].Plain? ==> ls[i].key != ls[j].key)
  }

  predicate Given(ls: seq<Lexeme>, key: Key) { exists l <- ls :: Sets(l, key) }

  predicate GivenAs(ls: seq<Lexeme>, key: Key, value: string) { exists l <- ls :: Sets(l, key) && ValueOf(l) == value }

  /** What the lexeme after `ls` does wrong. */
  function Offence(ls: seq<Lexeme>, l: Lexeme): Option<FlagError> {
    if l.Plain? then None
    else if ValueOf(l) == "" then Some(NeedsValue(l.key))
    else if Given(ls, l.key) then Some(Repeated(l.key))
    else if AcceptsValue(l.key, ValueOf(l)) then None
    else Some(BadOutput(ValueOf(l)))
  }

  ghost predicate MeansJson(ls: seq<Lexeme>, json: Option<string>) {
    if json.Some? then GivenAs(ls, Json, json.value) else !Given(ls, Json)
  }

  ghost predicate MeansOutput(ls: seq<Lexeme>, output: Option<OutputFormat>) {
    match output
    case Some(TextOutput) => GivenAs(ls, Output, "text")
    case Some(JsonOutput) => GivenAs(ls, Output, "json")
    case None => !Given(ls, Output)
  }

  /** `p` is what `ls` asks for: its plain arguments in order, and each flag with the value some lexeme gives it. */
  ghost predicate Means(ls: seq<Lexeme>, p: Parsed) {
    p.remaining == PlainArgs(ls) && MeansJson(ls, p.json) && MeansOutput(ls, p.output)
  }

  lemma GivenStep(front: seq<Lexeme>, l: Lexeme)
    ensures forall key :: Given(front + [l], key) <==> Given(front, key) || Sets(l, key)
    ensures forall key, value :: GivenAs(front + [l], key, value)
                                 <==> GivenAs(front, key, value) || (Sets(l, key) && ValueOf(l) == value)
  {
    assert forall m :: m in front + [l] <==> m in front || m == l;
  }

  lemma GivenAsGiven(ls: seq<Lexeme>)
    ensures forall key, value :: GivenAs(ls, key, value) ==> Given(ls, key)
  {
  }

  predicate StepsTo(front: seq<Lexeme>, l: Lexeme, r: Result<Parsed, FlagError>) {
    match Offence(front, l)
    case Some(e) => r == Err(e)
    case None => r.Ok?
  }

  lemma MeansPlain(front: seq<Lexeme>, l: Lexeme, p: Parsed)
    requires Means(front, p) && l.Plain?
    ensures Means(front + [l], p.(remaining := p.remaining + [l.arg]))
  {
    GivenStep(front, l);
    assert (front + [l])[..|front|] == front;
  }

  lemma MeansFlag(front: seq<Lexeme>, l: Lexeme, p: Parsed)
    requires Means(front, p) && !l.Plain?
    ensures StepsTo(front, l, SetFlag(p, l.key, ValueOf(l)))
  {
    GivenAsGiven(front);
  }

  /** A flag leaves what the lexemes mean for the other key alone. */
  lemma OtherKeyKept(front: seq<Lexeme>, l: Lexeme, p: Parsed)
    requires Means(front, p) && !l.Plain?
    ensures l.key != Json ==> MeansJson(front + [l], p.json)
    ensures l.key != Output ==> MeansOutput(front + [l], p.output)
  {
    GivenStep(front, l);
  }

  lemma OutputSet(front: seq<Lexeme>, l: Lexeme)
    requires Sets(l, Output) && ParseFormat(ValueOf(l)).Some?
    ensures MeansOutput(front + [l], ParseFormat(ValueOf(l)))
  {
    GivenStep(front, l);
    assert GivenAs(front + [l], Output, ValueOf(l));
  }

  lemma JsonSet(front: seq<Lexeme>, l: Lexeme)
    requires Sets(l, Json)
    ensures MeansJson(front + [l], Some(ValueOf(l)))
  {
    GivenStep(front, l);
    assert GivenAs(front + [l], Json, ValueOf(l));
  }

  lemma MeansSet(front: seq<Lexeme>, l: Lexeme, p: Parsed)
    requires Means(front, p) && !l.Plain? && SetFlag(p, l.key, ValueOf(l)).Ok?
    ensures Means(front + [l], SetFlag(p, l.key, ValueOf(l)).value)
  {
    OtherKeyKept(front, l, p);
    assert (front + [l])[..|front|] == front;
    if l.key == Json {
      JsonSet(front, l);
    } else {
      OutputSet(front, l);
    }
  }

  lemma MeansStep(front: seq<Lexeme>, l: Lexeme, p: Parsed)
    requires Means(front, p)
    ensures StepsTo(front, l, EvaluateOne(p, l))
    ensures EvaluateOne(p, l).Ok? ==> Means(front + [l], EvaluateOne(p, l).value)
  {
    if l.Plain? {
      MeansPlain(front, l, p);
    } else {
      MeansFlag(front, l, p);
      if EvaluateOne(p, l).Ok? {
        MeansSet(front, l, p);
      }
    }
  }

  lemma GoodStep(front: seq<Lexeme>, l: Lexeme)
    ensures Good(front + [l]) <==> Good(front) && Offence(front, l) == None
  {
    var ls := front + [l];
    assert forall m :: m in ls <==> m in front || m == l;
    if Good(front) && Offence(front, l) == None {
      forall i, j | 0 <= i < j < |ls| && !ls[i].Plain? && !ls[j].Plain?
        ensures ls[i].key != ls[j].key
      {
        assert ls[i] == front[i] && front[i] in front;
        assert j < |front| ==> ls[j] == front[j];
      }
    }
    if Good(ls) {
      assert forall i :: 0 <= i < |front| ==> ls[i] == front[i];
      assert ls[|front|] == l;
    }
  }

  /** The outcome, in terms of the lexemes: success with what they mean if they are all good, or else the first
      offence. */
  lemma {:induction false} EvaluateMeans(ls: seq<Lexeme>)
    ensures Good(ls) ==> Evaluate(ls).Ok? && Means(ls, Evaluate(ls).value)
    ensures !Good(ls) ==>
              && Evaluate(ls).Err?
              && exists n :: 0 <= n < |ls| && Good(ls[..n]) && Offence(ls[..n], ls[n]) == Some(Evaluate(ls).error)
  {
    if ls != [] {
      var m := |ls| - 1;
      assert ls == ls[..m] + [ls[m]];
      EvaluateMeans(ls[..m]);
      GoodStep(ls[..m], ls[m]);
      if Good(ls[..m]) {
        MeansStep(ls[..m], ls[m], Evaluate(ls[..m]).value);
      } else {
        var n :| 0 <= n < m && Good(ls[..m][..n]) && Offence(ls[..m][..n], ls[..m][n]) == Some(Evaluate(ls[..m]).error);
        assert ls[..m][..n] == ls[..n];
      }
    }
  }

  lemma MeansUnique(ls: seq<Lexeme>, p: Parsed, q: Parsed)
    requires Good(ls) && Means(ls, p) && Means(ls, q)
    ensures p == q
  {
    GivenAsGiven(ls);
    forall l, m | l in ls && m in ls && !l.Plain? && !m.Plain? && l.key == m.key
      ensures l == m
    {
      var i :| 0 <= i < |ls| && ls[i] == l;
      var j :| 0 <= j < |ls| && ls[j] == m;
      assert i < j || j < i || i == j;
    }
  }

  lemma OutcomeOfRendered(ls: seq<Lexeme>, p: Parsed)
    requires WellLexed(ls)
    ensures Evaluate(Lex(Render(ls), 0)) == Ok(p) <==> Good(ls) && Means(ls, p)
  {
    LexRender([], ls);
    assert [] + Render(ls) == Render(ls);
    EvaluateMeans(ls);
    if Good(ls) && Means(ls, p) {
      MeansUnique(ls, p, Evaluate(ls).value);
    }
  }

  /** Extraction succeeds with `p` if and only if argv is an interleaving, in order, of the remaining arguments with
      at most one `--json` and one `--output` group of acceptable value. */
  lemma ExtractionIsGrammatical(args: seq<string>, p: Parsed)
    ensures Evaluate(Lex(args, 0)) == Ok(p)
            <==> exists ls :: WellLexed(ls) && Render(ls) == args && Good(ls) && Means(ls, p)
  {
    var ls := Lex(args, 0);
    LexesWell(args, 0);
    RenderLex(args, 0);
    assert args[0..] == args;
    EvaluateMeans(ls);
    if Evaluate(ls) == Ok(p) {
      assert Good(ls) && Means(ls, p);
    }
    if ms :| WellLexed(ms) && Render(ms) == args && Good(ms) && Means(ms, p) {
      OutcomeOfRendered(ms, p);
    }
  }

  // ---- running again, and moving flags ----------------------------------------------------------------

  function Plains(args: seq<string>): (ls: seq<Lexeme>)
    ensures |ls| == |args| && forall i :: 0 <= i < |args| ==> ls[i] == Plain(args[i])
  {
    seq(|args|, i requires 0 <= i < |args| => Plain(args[i]))
  }

  lemma {:induction false} PlainsRender(args: seq<string>)
    ensures Render(Plains(args)) == args
  {
    if args != [] {
      assert Plains(args) == [Plain(args[0])] + Plains(args[1..]);
      RenderCons(Plain(args[0]), Plains(args[1..]));
      PlainsRender(args[1..]);
    }
  }

  lemma {:induction false} PlainsArgs(args: seq<string>)
    ensures PlainArgs(Plains(args)) == args
  {
    if args != [] {
      var front := args[..|args| - 1];
      assert Plains(args)[..|args| - 1] == Plains(front);
      PlainsArgs(front);
      assert args == front + [args[|args| - 1]];
    }
  }

  predicate FlagFree(args: seq<string>) { forall a <- args :: !IsFlag(a) }

  lemma PlainsArePlain(args: seq<string>)
    requires FlagFree(args)
    ensures forall l <- Plains(args) :: l.Plain? && !IsFlag(l.arg)
  {
    forall l <- Plains(args)
      ensures l.Plain? && !IsFlag(l.arg)
    {
      var i :| 0 <= i < |args| && Plains(args)[i] == l;
      assert args[i] in args;
    }
  }

  lemma AllPlainMeans(ls: seq<Lexeme>)
    requires forall l <- ls :: l.Plain? && !IsFlag(l.arg)
    ensures WellLexed(ls) && Good(ls) && Means(ls, Parsed(PlainArgs(ls), None, None))
  {
    forall i | 0 <= i < |ls|
      ensures ls[i].Plain?
    {
      assert ls[i] in ls;
    }
  }

  lemma FlagFreeUnchanged(args: seq<string>)
    requires FlagFree(args)
    ensures Evaluate(Lex(args, 0)) == Ok(Parsed(args, None, None))
  {
    PlainsRender(args);
    PlainsArgs(args);
    PlainsArePlain(args);
    AllPlainMeans(Plains(args));
    OutcomeOfRendered(Plains(args), Parsed(args, None, None));
  }

  lemma {:induction false} PlainArgsFlagFree(ls: seq<Lexeme>)
    requires WellLexed(ls)
    ensures FlagFree(PlainArgs(ls))
  {
    if ls != [] {
      PlainArgsFlagFree(ls[..|ls| - 1]);
    }
  }

  /** Extracting again from what remains finds nothing and changes nothing. */
  lemma RerunIsIdentity(args: seq<string>, p: Parsed)
    requires Evaluate(Lex(args, 0)) == Ok(p)
    ensures Evaluate(Lex(p.remaining, 0)) == Ok(Parsed(p.remaining, None, None))
  {
    ExtractionIsGrammatical(args, p);
    var ls :| WellLexed(ls) && Render(ls) == args && Good(ls) && Means(ls, p);
    PlainArgsFlagFree(ls);
    FlagFreeUnchanged(p.remaining);
  }

  lemma {:induction false} RenderConcat(a: seq<Lexeme>, b: seq<Lexeme>)
    ensures Render(a + b) == Render(a) + Render(b)
  {
    if a == [] {
      assert a + b == b;
    } else {
      RenderConcat(a[1..], b);
      Associative([a[0]], a[1..], b);
      assert a == [a[0]] + a[1..];
      RenderCons(a[0], a[1..] + b);
      Associative(RenderOne(a[0]), Render(a[1..]), Render(b));
    }
  }

  lemma RenderInserted(a: seq<Lexeme>, f: Lexeme, b: seq<Lexeme>)
    ensures Render(a + [f] + b) == Render(a) + RenderOne(f) + Render(b)
  {
    RenderConcat(a + [f], b);
    RenderConcat(a, [f]);
    assert Render([f]) == RenderOne(f) by {
      RenderCons(f, []);
      assert [f] + [] == [f];
      assert RenderOne(f) + [] == RenderOne(f);
    }
  }

  lemma {:induction false} PlainArgsConcat(a: seq<Lexeme>, b: seq<Lexeme>)
    ensures PlainArgs(a + b) == PlainArgs(a) + PlainArgs(b)
  {
    if b == [] {
      assert a + b == a;
    } else {
      PlainArgsConcat(a, b[..|b| - 1]);
      assert (a + b)[..|a + b| - 1] == a + b[..|b| - 1];
    }
  }

  function WithFlag(p: Parsed, f: Lexeme): Parsed
    requires !f.Plain?
  {
    match f.key
    case Json => p.(json := Some(ValueOf(f)))
    case Output => p.(output := Some(if ValueOf(f) == "json" then JsonOutput else TextOutput))
  }

  lemma InsertedPlainArgs(a: seq<Lexeme>, f: Lexeme, b: seq<Lexeme>)
    requires !f.Plain?
    ensures PlainArgs(a + [f] + b) == PlainArgs(a + b)
  {
    PlainArgsConcat(a, b);
    PlainArgsConcat(a + [f], b);
    PlainArgsConcat(a, [f]);
    assert PlainArgs([f]) == [];
  }

  lemma InsertedGiven(a: seq<Lexeme>, f: Lexeme, b: seq<Lexeme>)
    requires !f.Plain?
    ensures forall key :: key != f.key ==> (Given(a + [f] + b, key) <==> Given(a + b, key))
    ensures forall key, value :: key != f.key ==> (GivenAs(a + [f] + b, key, value) <==> GivenAs(a + b, key, value))
    ensures GivenAs(a + [f] + b, f.key, ValueOf(f))
  {
    assert forall l :: l in a + [f] + b <==> l in a + b || l == f;
  }

  lemma InsertedMeans(a: seq<Lexeme>, f: Lexeme, b: seq<Lexeme>, p: Parsed)
    requires Good(a + b) && Means(a + b, p) && (f.Inline? || f.Spaced?) && AcceptsValue(f.key, ValueOf(f))
             && !Given(a + b, f.key)
    ensures Good(a + [f] + b) && Means(a + [f] + b, WithFlag(p, f))
  {
    InsertedGood(a, f, b);
    InsertedPlainArgs(a, f, b);
    InsertedGiven(a, f, b);
  }

  lemma InsertedGood(a: seq<Lexeme>, f: Lexeme, b: seq<Lexeme>)
    requires Good(a + b) && (f.Inline? || f.Spaced?) && AcceptsValue(f.key, ValueOf(f)) && !Given(a + b, f.key)
    ensures Good(a + [f] + b)
  {
    var ls, ms := a + b, a + [f] + b;
    assert forall l :: l in ms <==> l in ls || l == f;
    forall i, j | 0 <= i < j < |ms| && !ms[i].Plain? && !ms[j].Plain?
      ensures ms[i].key != ms[j].key
    {
      var i', j' := if i < |a| then i else i - 1, if j < |a| then j else j - 1;
      assert i != |a| ==> ms[i] == ls[i'] && ls[i'] in ls;
      assert j != |a| ==> ms[j] == ls[j'] && ls[j'] in ls;
    }
  }

  lemma InsertedWell(a: seq<Lexeme>, f: Lexeme, b: seq<Lexeme>)
    requires WellLexed(a + b) && Good(a + b) && (f.Inline? || f.Spaced?)
    ensures WellLexed(a + [f] + b)
  {
    var ls, ms := a + b, a + [f] + b;
    assert forall l :: l in ms <==> l in ls || l == f;
  }

  /** A flag not yet given may be inserted between any two lexemes, in either form: the outcome is the same with that
      flag set, wherever it stands. */
  lemma FlagAnywhere(a: seq<Lexeme>, f: Lexeme, b: seq<Lexeme>, p: Parsed)
    requires WellLexed(a + b) && Evaluate(Lex(Render(a + b), 0)) == Ok(p)
    requires (f.Inline? || f.Spaced?) && AcceptsValue(f.key, ValueOf(f)) && !Given(a + b, f.key)
    ensures Evaluate(Lex(Render(a) + RenderOne(f) + Render(b), 0)) == Ok(WithFlag(p, f))
  {
    OutcomeOfRendered(a + b, p);
    InsertedMeans(a, f, b, p);
    InsertedWell(a, f, b);
    RenderInserted(a, f, b);
    OutcomeOfRendered(a + [f] + b, WithFlag(p, f));
  }

  /** In particular, a flag inserted at any position of arguments without flags is extracted, and they remain. */
  lemma FlagAmongPlainArgs(args: seq<string>, i: nat, f: Lexeme)
    requires FlagFree(args) && i <= |args| && (f.Inline? || f.Spaced?) && AcceptsValue(f.key, ValueOf(f))
    ensures Evaluate(Lex(args[..i] + RenderOne(f) + args[i..], 0)) == Ok(WithFlag(Parsed(args, None, None), f))
  {
    var a, b := Plains(args[..i]), Plains(args[i..]);
    assert a + b == Plains(args);
    PlainsRender(args);
    PlainsRender(args[..i]);
    PlainsRender(args[i..]);
    FlagFreeUnchanged(args);
    PlainsArePlain(args);
    FlagAnywhere(a, f, b, Parsed(args, None, None));
  }
}
