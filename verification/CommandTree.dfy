/** The CLI command tree as a value: insertion and pruning (`internal/codegen/tree.go`) and dispatch
    (`transport/cli/runner.go`), with what they promise together. `CommandTreeNodes` does the same on nodes updated in
    place. */
module CommandTree {
  import opened Options

  /** A leaf command, known by the full name of its procedure. */
  datatype LeafInfo = LeafInfo(fullName: string)

  /** A node: a group has children (a non-nil map), a leaf has none. */
  datatype Tree = Group(children: map<string, Tree>) | Leaf(leaf: LeafInfo)

  datatype Command = Command(path: seq<string>, leaf: LeafInfo)

  const EMPTY: Tree := Group(map[])

  // ---- operations -----------------------------------------------------------------------------

  /** `insertLeaf`. `None`: the path leads through a leaf, and storing into its nil children map panics. */
  function Insert(t: Tree, path: seq<string>, leaf: LeafInfo): Option<Tree>
    decreases |path|
  {
    if path == [] then Some(Leaf(leaf))
    else if t.Leaf? then None
    else
      var child := if path[0] in t.children then t.children[path[0]] else EMPTY;
      match Insert(child, path[1..], leaf)
      case None => None
      case Some(c) => Some(Group(t.children[path[0] := c]))
  }

  function InsertAll(t: Tree, cs: seq<Command>): Option<Tree> {
    if cs == [] then Some(t)
    else
      match InsertAll(t, cs[..|cs| - 1])
      case None => None
      case Some(t') => Insert(t', cs[|cs| - 1].path, cs[|cs| - 1].leaf)
  }

  predicate Dead(t: Tree) { t == EMPTY }

  /** `pruneDeadGroups`: children first, then the groups that are or became empty. */
  function Prune(t: Tree): Tree {
    match t
    case Leaf(_) => t
    case Group(ch) => Group(map k | k in ch && !Dead(Prune(ch[k])) :: Prune(ch[k]))
  }

  /** `buildTree`, for the commands exposed to the CLI. */
  function Build(cs: seq<Command>): Option<Tree> {
    match InsertAll(EMPTY, cs)
    case None => None
    case Some(t) => Some(Prune(t))
  }

  datatype Outcome =
    | Ran(leaf: LeafInfo, args: seq<string>)
    | Help
    | NoCommand
    | UnknownArgument(name: string)
    | UnknownCommand(name: string)

  /** `traverse`, for nodes without a group FlagSet. */
  function Traverse(t: Tree, args: seq<string>): Outcome
    decreases |args|, 1
  {
    if args != [] then Dispatch(t, args)
    else match t
      case Group(_) => NoCommand
      case Leaf(leaf) => Ran(leaf, args)
  }

  /** `dispatch`. */
  function Dispatch(t: Tree, args: seq<string>): Outcome
    requires args != []
    decreases |args|, 0
  {
    var name := args[0];
    if name == "--help" || name == "-h" then Help
    else if t.Leaf? then UnknownArgument(name)
    else if name !in t.children then UnknownCommand(name)
    else
      var child := t.children[name];
      if child.Group? then Traverse(child, args[1..])
      else if |args| > 1 && (args[1] == "--help" || args[1] == "-h") then Help
      else Ran(child.leaf, args[1..])
  }

  // ---- the reference: which leaf is at which path -------------------------------------------------

  function LeafAt(t: Tree, path: seq<string>): Option<LeafInfo>
    decreases |path|
  {
    if path == [] then (if t.Leaf? then Some(t.leaf) else None)
    else if t.Group? && path[0] in t.children then LeafAt(t.children[path[0]], path[1..])
    else None
  }

  /** The commands neither repeat nor extend one another's paths. */
  predicate PrefixFree(cs: seq<Command>) {
    forall i, j :: 0 <= i < |cs| && 0 <= j < |cs| && i != j ==> !(cs[i].path <= cs[j].path)
  }

  predicate NonemptyPaths(cs: seq<Command>) {
    forall c <- cs :: c.path != []
  }

  /** Every group but the root leads to a leaf. */
  ghost predicate NoDeadGroups(t: Tree) {
    t.Group? ==> forall k <- t.children :: HasLeaf(t.children[k]) && NoDeadGroups(t.children[k])
  }

  ghost predicate HasLeaf(t: Tree) {
    exists path :: LeafAt(t, path).Some?
  }

  /** `t` has exactly the commands in `cs`. */
  ghost predicate Represents(t: Tree, cs: seq<Command>) {
    && (forall c <- cs :: LeafAt(t, c.path) == Some(c.leaf))
    && (forall path :: LeafAt(t, path).Some? ==> Command(path, LeafAt(t, path).value) in cs)
  }

  // ---- insertion --------------------------------------------------------------------------------

  /** Insertion puts the leaf at its path, drops what was above or below it, and leaves every other path alone;
      it fails exactly when a proper prefix of the path is a leaf. */
  lemma {:induction false} InsertLeafAt(t: Tree, path: seq<string>, leaf: LeafInfo, q: seq<string>)
    ensures Insert(t, path, leaf).Some? ==>
              LeafAt(Insert(t, path, leaf).value, q)
              == if q == path then Some(leaf) else if path <= q || q <= path then None else LeafAt(t, q)
    decreases |path|
  {
    if path == [] {
    } else if t.Group? {
      var child := if path[0] in t.children then t.children[path[0]] else EMPTY;
      if q != [] && q[0] == path[0] {
        InsertLeafAt(child, path[1..], leaf, q[1..]);
        assert q == path <==> q[1..] == path[1..];
        assert path <= q <==> path[1..] <= q[1..];
        assert q <= path <==> q[1..] <= path[1..];
        EmptyHasNoLeaf(q[1..]);
      }
    }
  }

  lemma EmptyHasNoLeaf(q: seq<string>)
    ensures LeafAt(EMPTY, q) == None
  {
  }

  lemma {:induction false} InsertFailsOnLeaf(t: Tree, path: seq<string>, leaf: LeafInfo)
    ensures Insert(t, path, leaf).None? <==> exists n: nat :: n < |path| && LeafAt(t, path[..n]).Some?
    decreases |path|
  {
    if path == [] {
    } else if t.Leaf? {
      assert LeafAt(t, path[..0]).Some?;
    } else {
      var child := if path[0] in t.children then t.children[path[0]] else EMPTY;
      InsertFailsOnLeaf(child, path[1..], leaf);
      if Insert(t, path, leaf).None? {
        var n: nat :| n < |path[1..]| && LeafAt(child, path[1..][..n]).Some?;
        EmptyHasNoLeaf(path[1..][..n]);
        assert path[..n + 1][1..] == path[1..][..n];
        assert LeafAt(t, path[..n + 1]).Some?;
      }
      if n: nat :| n < |path| && LeafAt(t, path[..n]).Some? {
        assert n > 0;
        assert path[..n][1..] == path[1..][..n - 1];
        assert LeafAt(child, path[1..][..n - 1]).Some?;
      }
    }
  }

  /** No leaf lies below another. */
  lemma {:induction false} LeavesArePrefixFree(t: Tree, p: seq<string>, q: seq<string>)
    requires LeafAt(t, p).Some? && LeafAt(t, q).Some? && p <= q
    ensures p == q
    decreases |p|
  {
    if p != [] {
      LeavesArePrefixFree(t.children[p[0]], p[1..], q[1..]);
    }
  }

  lemma {:induction false} InsertAllRepresents(cs: seq<Command>)
    requires PrefixFree(cs)
    ensures InsertAll(EMPTY, cs).Some? && Represents(InsertAll(EMPTY, cs).value, cs)
  {
    if cs == [] {
      forall path
        ensures LeafAt(EMPTY, path) == None
      {
        EmptyHasNoLeaf(path);
      }
    } else {
      var front, c := cs[..|cs| - 1], cs[|cs| - 1];
      assert cs == front + [c];
      FrontPrefixFree(front, c);
      InsertAllRepresents(front);
      InsertRepresents(InsertAll(EMPTY, front).value, front, c);
    }
  }

  lemma FrontPrefixFree(front: seq<Command>, c: Command)
    requires PrefixFree(front + [c])
    ensures PrefixFree(front)
  {
    assert forall i :: 0 <= i < |front| ==> (front + [c])[i] == front[i];
  }

  lemma InsertRepresents(t: Tree, cs: seq<Command>, c: Command)
    requires Represents(t, cs) && PrefixFree(cs + [c])
    ensures Insert(t, c.path, c.leaf).Some? && Represents(Insert(t, c.path, c.leaf).value, cs + [c])
  {
    var all := cs + [c];
    forall d | d in cs
      ensures !(d.path <= c.path) && !(c.path <= d.path)
    {
      var i :| 0 <= i < |cs| && cs[i] == d;
      assert all[i] == d && all[|cs|] == c;
    }
    InsertFailsOnLeaf(t, c.path, c.leaf);
    forall n: nat | n < |c.path|
      ensures LeafAt(t, c.path[..n]).None?
    {
      assert c.path[..n] <= c.path;
    }
    var t' := Insert(t, c.path, c.leaf).value;
    forall q
      ensures LeafAt(t', q)
              == if q == c.path then Some(c.leaf) else if c.path <= q || q <= c.path then None else LeafAt(t, q)
    {
      InsertLeafAt(t, c.path, c.leaf, q);
    }
  }

  /** Prefix-freeness is what `buildTree` needs: for commands with distinct procedures, every command ends up in the
      tree at its path, without a panic, if and only if no path repeats or extends another. */
  lemma BuildableIffPrefixFree(cs: seq<Command>)
    requires forall i, j :: 0 <= i < j < |cs| ==> cs[i].leaf != cs[j].leaf
    ensures PrefixFree(cs)
            <==> InsertAll(EMPTY, cs).Some?
                 && forall c <- cs :: LeafAt(InsertAll(EMPTY, cs).value, c.path) == Some(c.leaf)
  {
    if PrefixFree(cs) {
      InsertAllRepresents(cs);
    } else if InsertAll(EMPTY, cs).Some? {
      var t := InsertAll(EMPTY, cs).value;
      var i, j :| 0 <= i < |cs| && 0 <= j < |cs| && i != j && cs[i].path <= cs[j].path;
      if LeafAt(t, cs[i].path) == Some(cs[i].leaf) && LeafAt(t, cs[j].path).Some? {
        LeavesArePrefixFree(t, cs[i].path, cs[j].path);
        assert LeafAt(t, cs[j].path) != Some(cs[j].leaf);
      }
      assert cs[i] in cs && cs[j] in cs;
    }
  }

  /** The key under which `validateDuplicatePaths` records a path: its segments joined by spaces. */
  function Joined(path: seq<string>): string {
    if path == [] then "" else if |path| == 1 then path[0] else path[0] + " " + Joined(path[1..])
  }

  predicate PassesDuplicateCheck(cs: seq<Command>) {
    forall i, j :: 0 <= i < j < |cs| ==> Joined(cs[i].path) != Joined(cs[j].path)
  }

  predicate SpaceFree(path: seq<string>) { path != [] && forall seg <- path :: ' ' !in seg }

  lemma {:induction false} JoinedInjective(p: seq<string>, q: seq<string>)
    requires SpaceFree(p) && SpaceFree(q) && Joined(p) == Joined(q)
    ensures p == q
  {
    JoinedSpaces(p);
    JoinedSpaces(q);
    if |p| == 1 {
      assert p == [p[0]] && q == [q[0]];
    } else {
      FirstSpace(p[0], Joined(p[1..]));
      FirstSpace(q[0], Joined(q[1..]));
      assert p[0] == Joined(p)[..|p[0]|] && q[0] == Joined(q)[..|q[0]|];
      assert Joined(p[1..]) == Joined(p)[|p[0]| + 1..] && Joined(q[1..]) == Joined(q)[|q[0]| + 1..];
      JoinedInjective(p[1..], q[1..]);
      assert p == [p[0]] + p[1..] && q == [q[0]] + q[1..];
    }
  }

  lemma JoinedSpaces(path: seq<string>)
    requires SpaceFree(path)
    ensures ' ' in Joined(path) <==> |path| > 1
  {
    if |path| > 1 {
      FirstSpace(path[0], Joined(path[1..]));
    }
  }

  lemma FirstSpace(a: string, b: string)
    requires ' ' !in a
    ensures var s := a + " " + b; s[|a|] == ' ' && forall k :: 0 <= k < |a| ==> s[k] != ' '
  {
    assert forall k :: 0 <= k < |a| ==> (a + " " + b)[k] == a[k];
  }

  /** What the duplicate check does establish: for nonempty paths of segments without spaces, that they are distinct. */
  lemma DuplicateCheckMeans(cs: seq<Command>)
    requires forall c <- cs :: SpaceFree(c.path)
    ensures PassesDuplicateCheck(cs) <==> forall i, j :: 0 <= i < j < |cs| ==> cs[i].path != cs[j].path
  {
    forall i, j | 0 <= i < j < |cs| && Joined(cs[i].path) == Joined(cs[j].path)
      ensures cs[i].path == cs[j].path
    {
      assert cs[i] in cs && cs[j] in cs;
      JoinedInjective(cs[i].path, cs[j].path);
    }
    forall i, j | 0 <= i < j < |cs| && PassesDuplicateCheck(cs)
      ensures cs[i].path != cs[j].path
    {
      assert Joined(cs[i].path) != Joined(cs[j].path);
    }
  }

  /** The generator's duplicate check is weaker than what `buildTree` needs: of two commands it accepts, one insertion
      order panics and the other loses a command. */
  lemma DuplicateCheckIsNotEnough()
    ensures exists cs: seq<Command> :: PassesDuplicateCheck(cs) && NonemptyPaths(cs) && InsertAll(EMPTY, cs) == None
    ensures exists cs: seq<Command> :: PassesDuplicateCheck(cs) && NonemptyPaths(cs) && InsertAll(EMPTY, cs).Some?
                         && exists c: Command :: c in cs && LeafAt(InsertAll(EMPTY, cs).value, c.path) == None
  {
    var a, b := Command(["a"], LeafInfo("A")), Command(["a", "b"], LeafInfo("B"));
    assert Joined(a.path) == "a" && Joined(b.path) == "a" + " " + Joined(["b"]);
    assert |Joined(b.path)| == 3;
    LostOrPanic(a, b);
    assert PassesDuplicateCheck([a, b]) && NonemptyPaths([a, b]);
    assert PassesDuplicateCheck([b, a]) && NonemptyPaths([b, a]) && b in [b, a];
  }

  lemma LostOrPanic(a: Command, b: Command)
    requires a.path < b.path
    ensures InsertAll(EMPTY, [a, b]) == None
    ensures InsertAll(EMPTY, [b, a]).Some? && LeafAt(InsertAll(EMPTY, [b, a]).value, b.path) == None
  {
    InsertedAlone(a);
    InsertedAlone(b);
    InsertFailsOnLeaf(InsertAll(EMPTY, [a]).value, b.path, b.leaf);
    assert b.path[..|a.path|] == a.path;
    assert [a, b][..1] == [a] && [b, a][..1] == [b];
    var t := InsertAll(EMPTY, [b]).value;
    forall n: nat | n < |a.path|
      ensures LeafAt(t, a.path[..n]).None?
    {
      assert a.path[..n] < b.path;
      InsertLeafAt(EMPTY, b.path, b.leaf, a.path[..n]);
    }
    InsertFailsOnLeaf(t, a.path, a.leaf);
    InsertLeafAt(t, a.path, a.leaf, b.path);
  }

  lemma InsertedAlone(c: Command)
    ensures InsertAll(EMPTY, [c]) == Insert(EMPTY, c.path, c.leaf) && Insert(EMPTY, c.path, c.leaf).Some?
    ensures LeafAt(InsertAll(EMPTY, [c]).value, c.path) == Some(c.leaf)
  {
    assert [c][..0] == [];
    forall n: nat | n < |c.path|
      ensures LeafAt(EMPTY, c.path[..n]) == None
    {
      EmptyHasNoLeaf(c.path[..n]);
    }
    InsertFailsOnLeaf(EMPTY, c.path, c.leaf);
    InsertLeafAt(EMPTY, c.path, c.leaf, c.path);
  }

  // ---- pruning ------------------------------------------------------------------------------------

  /** Pruning moves, adds and removes no leaf. */
  lemma {:induction false} PruneKeepsLeaves(t: Tree, q: seq<string>)
    ensures LeafAt(Prune(t), q) == LeafAt(t, q)
    decreases |q|
  {
    if t.Group? && q != [] && q[0] in t.children {
      var child := t.children[q[0]];
      PruneKeepsLeaves(child, q[1..]);
      if Dead(Prune(child)) {
        EmptyHasNoLeaf(q[1..]);
      }
    }
  }

  /** After pruning every group but the root leads to a leaf. */
  lemma {:induction false} PruneRemovesDead(t: Tree)
    ensures NoDeadGroups(Prune(t)) && (HasLeaf(Prune(t)) || Dead(Prune(t)))
  {
    if t.Leaf? {
      assert LeafAt(t, []).Some?;
    } else {
      var p := Prune(t);
      forall k <- p.children
        ensures HasLeaf(p.children[k]) && NoDeadGroups(p.children[k])
      {
        PruneRemovesDead(t.children[k]);
      }
      if p.children != map[] {
        var k :| k in p.children;
        LeafBelow(p, k);
      }
    }
  }

  lemma LeafBelow(t: Tree, k: string)
    requires t.Group? && k in t.children && HasLeaf(t.children[k])
    ensures HasLeaf(t)
  {
    var q :| LeafAt(t.children[k], q).Some?;
    assert ([k] + q)[1..] == q;
    assert LeafAt(t, [k] + q).Some?;
  }

  /** Pruning changes nothing on a tree without dead groups. */
  lemma {:induction false} PruneFixpoint(t: Tree)
    requires NoDeadGroups(t)
    ensures Prune(t) == t
  {
    if t.Group? {
      forall k <- t.children
        ensures Prune(t.children[k]) == t.children[k] && !Dead(t.children[k])
      {
        PruneFixpoint(t.children[k]);
        var q :| LeafAt(t.children[k], q).Some?;
        EmptyHasNoLeaf(q);
      }
      assert Prune(t).children == t.children;
    }
  }

  /** Pruning is idempotent, and the identity exactly on the trees without dead groups. */
  lemma PruneIdempotent(t: Tree)
    ensures Prune(Prune(t)) == Prune(t)
    ensures Prune(t) == t <==> NoDeadGroups(t)
  {
    PruneRemovesDead(t);
    PruneFixpoint(Prune(t));
    if NoDeadGroups(t) {
      PruneFixpoint(t);
    }
  }

  /** Insertion makes no dead group. */
  lemma {:induction false} InsertKeepsAlive(t: Tree, path: seq<string>, leaf: LeafInfo)
    requires NoDeadGroups(t) && Insert(t, path, leaf).Some?
    ensures NoDeadGroups(Insert(t, path, leaf).value)
    decreases |path|
  {
    if path != [] {
      var child := if path[0] in t.children then t.children[path[0]] else EMPTY;
      InsertKeepsAlive(child, path[1..], leaf);
      var c := Insert(child, path[1..], leaf).value;
      InsertLeafAt(child, path[1..], leaf, path[1..]);
      assert LeafAt(c, path[1..]).Some?;
    }
  }

  lemma {:induction false} InsertAllAlive(cs: seq<Command>)
    requires InsertAll(EMPTY, cs).Some?
    ensures NoDeadGroups(InsertAll(EMPTY, cs).value)
  {
    if cs != [] {
      InsertAllAlive(cs[..|cs| - 1]);
      InsertKeepsAlive(InsertAll(EMPTY, cs[..|cs| - 1]).value, cs[|cs| - 1].path, cs[|cs| - 1].leaf);
    }
  }

  /** The pruning at the end of `buildTree` removes nothing: insertions leave no dead group. */
  lemma BuildNeedsNoPruning(cs: seq<Command>)
    ensures Build(cs) == InsertAll(EMPTY, cs)
  {
    if InsertAll(EMPTY, cs).Some? {
      InsertAllAlive(cs);
      PruneFixpoint(InsertAll(EMPTY, cs).value);
    }
  }

  // ---- insertion order --------------------------------------------------------------------------

  /** A tree without dead groups is determined by its leaves. */
  lemma {:induction false} LeavesDetermineTree(t: Tree, u: Tree)
    requires NoDeadGroups(t) && NoDeadGroups(u) && forall q :: LeafAt(t, q) == LeafAt(u, q)
    ensures t == u
  {
    assert LeafAt(t, []) == LeafAt(u, []);
    if t.Group? {
      ChildrenShared(t, u);
      ChildrenShared(u, t);
      forall k <- t.children
        ensures t.children[k] == u.children[k]
      {
        forall q
          ensures LeafAt(t.children[k], q) == LeafAt(u.children[k], q)
        {
          assert ([k] + q)[1..] == q;
          assert LeafAt(t, [k] + q) == LeafAt(u, [k] + q);
        }
        LeavesDetermineTree(t.children[k], u.children[k]);
      }
      assert t.children == u.children;
    }
  }

  lemma ChildrenShared(t: Tree, u: Tree)
    requires t.Group? && u.Group? && NoDeadGroups(t) && forall q :: LeafAt(t, q) == LeafAt(u, q)
    ensures t.children.Keys <= u.children.Keys
  {
    forall k <- t.children
      ensures k in u.children
    {
      var q :| LeafAt(t.children[k], q).Some?;
      assert ([k] + q)[1..] == q;
      assert LeafAt(t, [k] + q) == LeafAt(u, [k] + q);
    }
  }

  lemma SameElementsPrefixFree(cs: seq<Command>, ds: seq<Command>)
    requires PrefixFree(cs) && multiset(cs) == multiset(ds)
    ensures PrefixFree(ds)
  {
    forall i, j | 0 <= i < |ds| && 0 <= j < |ds| && i != j
      ensures !(ds[i].path <= ds[j].path)
    {
      assert ds[i] in multiset(ds) && ds[j] in multiset(ds);
      var a :| 0 <= a < |cs| && cs[a] == ds[i];
      var b :| 0 <= b < |cs| && cs[b] == ds[j];
      if a == b {
        TwiceInMultiset(ds, i, j);
        OnceInMultiset(cs, a);
      }
    }
  }

  lemma TwiceInMultiset(ds: seq<Command>, i: nat, j: nat)
    requires i < |ds| && j < |ds| && i != j && ds[i] == ds[j]
    ensures multiset(ds)[ds[i]] >= 2
  {
    var lo, hi := if i < j then i else j, if i < j then j else i;
    assert ds == ds[..lo] + [ds[lo]] + ds[lo + 1..hi] + [ds[hi]] + ds[hi + 1..];
  }

  lemma OnceInMultiset(cs: seq<Command>, a: nat)
    requires PrefixFree(cs) && a < |cs|
    ensures multiset(cs)[cs[a]] == 1
  {
    var before, after := cs[..a], cs[a + 1..];
    assert cs == before + [cs[a]] + after;
    assert cs[a] !in before;
    assert forall c <- after :: exists j :: a < j < |cs| && cs[j] == c;
    assert cs[a] !in after;
  }

  /** The tree, and so every dispatch on it, does not depend on the order of services and methods. */
  lemma OrderIndependent(cs: seq<Command>, ds: seq<Command>)
    requires PrefixFree(cs) && multiset(cs) == multiset(ds)
    ensures Build(cs).Some? && Build(cs) == Build(ds)
  {
    SameElementsPrefixFree(cs, ds);
    InsertAllRepresents(cs);
    InsertAllRepresents(ds);
    InsertAllAlive(cs);
    InsertAllAlive(ds);
    BuildNeedsNoPruning(cs);
    BuildNeedsNoPruning(ds);
    var t, u := Build(cs).value, Build(ds).value;
    forall c: Command
      ensures c in cs <==> c in ds
    {
      assert c in multiset(cs) <==> c in multiset(ds);
    }
    forall q
      ensures LeafAt(t, q) == LeafAt(u, q)
    {
      assert LeafAt(t, q).Some? ==> Command(q, LeafAt(t, q).value) in ds;
      assert LeafAt(u, q).Some? ==> Command(q, LeafAt(u, q).value) in cs;
    }
    LeavesDetermineTree(t, u);
  }

  // ---- routing --------------------------------------------------------------------------------

  /** The tokens that ask for help. */
  predicate AsksHelp(arg: string) { arg == "--help" || arg == "-h" }

  /** `args` names the leaf at its first `n` tokens, none of which asks for help, nor does the one after them. */
  ghost predicate Names(t: Tree, args: seq<string>, n: nat, leaf: LeafInfo) {
    && 0 < n <= |args| && LeafAt(t, args[..n]) == Some(leaf)
    && (forall i :: 0 <= i < n ==> !AsksHelp(args[i]))
    && (n < |args| ==> !AsksHelp(args[n]))
  }

  lemma {:induction false} NamedRuns(t: Tree, args: seq<string>, n: nat, leaf: LeafInfo)
    requires t.Group? && Names(t, args, n, leaf)
    ensures Traverse(t, args) == Ran(leaf, args[n..])
    decreases |args|
  {
    var first := args[..n];
    assert first[0] == args[0];
    var child := t.children[args[0]];
    assert LeafAt(child, first[1..]) == Some(leaf);
    if child.Group? {
      assert first[1..] == args[1..][..n - 1];
      NamedRuns(child, args[1..], n - 1, leaf);
      assert args[1..][n - 1..] == args[n..];
    } else {
      assert |first[1..]| == n - 1;
    }
  }

  lemma {:induction false} RunWasNamed(t: Tree, args: seq<string>, leaf: LeafInfo, rest: seq<string>)
    requires t.Group? && Traverse(t, args) == Ran(leaf, rest)
    ensures exists n: nat :: Names(t, args, n, leaf) && rest == args[n..]
    decreases |args|
  {
    var child := t.children[args[0]];
    if child.Group? {
      RunWasNamed(child, args[1..], leaf, rest);
      var n: nat :| Names(child, args[1..], n, leaf) && rest == args[1..][n..];
      assert args[..n + 1][1..] == args[1..][..n];
      assert Names(t, args, n + 1, leaf) && rest == args[n + 1..];
    } else {
      assert args[..1][0] == args[0] && args[..1][1..] == [];
      assert LeafAt(child, []) == Some(leaf) && LeafAt(t, args[..1]) == Some(leaf);
      assert !AsksHelp(args[0]) && (|args| > 1 ==> !AsksHelp(args[1]));
      assert Names(t, args, 1, leaf);
    }
  }

  /** Dispatch runs a leaf with some arguments if and only if argv is the leaf's path followed by them. */
  lemma DispatchRuns(t: Tree, args: seq<string>, leaf: LeafInfo, rest: seq<string>)
    requires t.Group?
    ensures Traverse(t, args) == Ran(leaf, rest) <==> exists n: nat :: Names(t, args, n, leaf) && rest == args[n..]
  {
    if n: nat :| Names(t, args, n, leaf) && rest == args[n..] {
      NamedRuns(t, args, n, leaf);
    }
    if Traverse(t, args) == Ran(leaf, rest) {
      RunWasNamed(t, args, leaf, rest);
    }
  }

  predicate NoHelp(path: seq<string>) { forall s <- path :: !AsksHelp(s) }

  lemma BuildRepresents(cs: seq<Command>)
    requires PrefixFree(cs) && NonemptyPaths(cs)
    ensures Build(cs).Some? && Represents(Build(cs).value, cs) && Build(cs).value.Group?
  {
    InsertAllRepresents(cs);
    BuildNeedsNoPruning(cs);
    var t := Build(cs).value;
    assert LeafAt(t, []).None?;
  }

  /** Routing, there: argv made of a command's path and arguments that do not start with a help flag runs that command
      with exactly those arguments. */
  lemma EveryCommandRuns(cs: seq<Command>, c: Command, rest: seq<string>)
    requires PrefixFree(cs) && NonemptyPaths(cs) && c in cs && NoHelp(c.path) && (rest != [] ==> !AsksHelp(rest[0]))
    ensures Build(cs).Some? && Traverse(Build(cs).value, c.path + rest) == Ran(c.leaf, rest)
  {
    BuildRepresents(cs);
    var args := c.path + rest;
    assert args[..|c.path|] == c.path && args[|c.path|..] == rest;
    assert Names(Build(cs).value, args, |c.path|, c.leaf);
    DispatchRuns(Build(cs).value, args, c.leaf, rest);
  }

  /** Routing, back: whatever runs was asked for by its path. */
  lemma OnlyCommandsRun(cs: seq<Command>, args: seq<string>, leaf: LeafInfo, rest: seq<string>)
    requires PrefixFree(cs) && NonemptyPaths(cs) && Build(cs).Some?
             && Traverse(Build(cs).value, args) == Ran(leaf, rest)
    ensures exists c :: c in cs && c.leaf == leaf && args == c.path + rest
  {
    BuildRepresents(cs);
    var t := Build(cs).value;
    DispatchRuns(t, args, leaf, rest);
    var n: nat :| Names(t, args, n, leaf) && rest == args[n..];
    assert args == args[..n] + args[n..];
    assert Command(args[..n], leaf) in cs;
  }

  // ---- when nothing runs ----------------------------------------------------------------------------

  function NodeAt(t: Tree, path: seq<string>): Option<Tree>
    decreases |path|
  {
    if path == [] then Some(t)
    else if t.Group? && path[0] in t.children then NodeAt(t.children[path[0]], path[1..])
    else None
  }

  /** The first `n` tokens, none of which asks for help, lead to the group `g`. */
  ghost predicate Reaches(t: Tree, args: seq<string>, n: nat, g: Tree) {
    n <= |args| && g.Group? && NodeAt(t, args[..n]) == Some(g) && forall i :: 0 <= i < n ==> !AsksHelp(args[i])
  }

  /** The next token does not lead to another group. */
  predicate EndsAt(g: Tree, rest: seq<string>)
    requires g.Group?
  {
    rest == [] || AsksHelp(rest[0]) || rest[0] !in g.children || g.children[rest[0]].Leaf?
  }

  /** What the last group reached answers to the remaining tokens. */
  function Answer(g: Tree, rest: seq<string>): Outcome
    requires g.Group? && EndsAt(g, rest)
  {
    if rest == [] then NoCommand
    else if AsksHelp(rest[0]) then Help
    else if rest[0] !in g.children then UnknownCommand(rest[0])
    else if |rest| > 1 && AsksHelp(rest[1]) then Help
    else Ran(g.children[rest[0]].leaf, rest[1..])
  }

  lemma {:induction false} LastGroupAnswers(t: Tree, args: seq<string>, n: nat, g: Tree)
    requires t.Group? && Reaches(t, args, n, g) && EndsAt(g, args[n..])
    ensures Traverse(t, args) == Answer(g, args[n..])
    decreases n
  {
    if n == 0 {
      assert args[..0] == [] && args[0..] == args;
    } else {
      var first := args[..n];
      assert first[0] == args[0] && first[1..] == args[1..][..n - 1] && args[1..][n - 1..] == args[n..];
      var child := t.children[args[0]];
      assert NodeAt(child, args[1..][..n - 1]) == Some(g);
      assert child.Group?;
      LastGroupAnswers(child, args[1..], n - 1, g);
    }
  }

  lemma {:induction false} SomeGroupIsLast(t: Tree, args: seq<string>) returns (n: nat, g: Tree)
    requires t.Group?
    ensures Reaches(t, args, n, g) && EndsAt(g, args[n..])
    decreases |args|
  {
    if EndsAt(t, args) {
      n, g := 0, t;
      assert args[..0] == [] && args[0..] == args;
    } else {
      var m;
      m, g := SomeGroupIsLast(t.children[args[0]], args[1..]);
      n := m + 1;
      assert args[..n][1..] == args[1..][..m] && args[n..] == args[1..][m..];
    }
  }

  /** Every dispatch, also one that runs nothing, is answered by the last group that argv leads to: help, a missing
      command, an unknown one, or one of its leaves. A tree that is a leaf runs without arguments only. */
  lemma DispatchAnswers(t: Tree, args: seq<string>, o: Outcome)
    ensures t.Group? ==>
              (Traverse(t, args) == o
               <==> exists n: nat, g :: Reaches(t, args, n, g) && EndsAt(g, args[n..]) && o == Answer(g, args[n..]))
    ensures t.Leaf? ==>
              Traverse(t, args) == if args == [] then Ran(t.leaf, [])
                                   else if AsksHelp(args[0]) then Help else UnknownArgument(args[0])
  {
    if t.Group? {
      var n, g := SomeGroupIsLast(t, args);
      LastGroupAnswers(t, args, n, g);
      if m: nat, h :| Reaches(t, args, m, h) && EndsAt(h, args[m..]) && o == Answer(h, args[m..]) {
        LastGroupAnswers(t, args, m, h);
      }
    }
  }
}
