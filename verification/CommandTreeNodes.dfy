/** `internal/codegen/tree.go` on nodes that are updated in place: `insertLeaf`, `pruneDeadGroups` and `buildTree`,
    each proved to leave the tree that the function of `CommandTree` computes. */
module CommandTreeNodes {
  import opened Options
  import opened CommandTree

  type Path = seq<string>

  /** What one node shows of itself. */
  datatype Kind = GroupOf(keys: set<string>) | LeafOf(leaf: LeafInfo)

  /** `treeNode`, with `None` for a nil map or pointer. */
  class TreeNode {
    var children: Option<map<string, TreeNode>>
    var leaf: Option<LeafInfo>

    constructor ()
      ensures children == Some(map[]) && leaf == None
    {
      children, leaf := Some(map[]), None;
    }

    predicate IsGroup()
      reads this
    {
      children.Some?
    }

    ghost predicate HasKind(kind: Kind)
      reads this
    {
      match kind
      case GroupOf(keys) => leaf == None && children.Some? && children.value.Keys == keys
      case LeafOf(l) => leaf == Some(l) && children == None
    }
  }

  // ---- positions in a tree --------------------------------------------------------------------------

  function KindOf(t: Tree): Kind {
    match t
    case Group(ch) => GroupOf(ch.Keys)
    case Leaf(l) => LeafOf(l)
  }

  function KindAt(t: Tree, p: Path): Option<Kind>
    decreases |p|
  {
    if p == [] then Some(KindOf(t))
    else if t.Group? && p[0] in t.children then KindAt(t.children[p[0]], p[1..])
    else None
  }

  predicate GroupAt(t: Tree, p: Path) { KindAt(t, p).Some? && KindAt(t, p).value.GroupOf? }

  /** `t` with the subtree `s` at `p`. */
  function Graft(t: Tree, p: Path, s: Tree): Tree
    decreases |p|
  {
    if p == [] then s
    else if t.Leaf? then t
    else
      var child := if p[0] in t.children then t.children[p[0]] else EMPTY;
      Group(t.children[p[0] := Graft(child, p[1..], s)])
  }

  lemma {:induction false} KindAtStep(t: Tree, p: Path, k: string)
    ensures KindAt(t, p + [k]).Some? <==> GroupAt(t, p) && k in KindAt(t, p).value.keys
    decreases |p|
  {
    assert (p + [k])[0] == if p == [] then k else p[0];
    if p == [] {
      assert (p + [k])[1..] == [];
    } else if t.Group? && p[0] in t.children {
      assert (p + [k])[1..] == p[1..] + [k];
      KindAtStep(t.children[p[0]], p[1..], k);
    }
  }

  lemma {:induction false} ReplaceKind(t: Tree, p: Path, s: Tree, q: Path)
    requires KindAt(t, p).Some?
    ensures KindAt(Graft(t, p, s), q) == if p <= q then KindAt(s, q[|p|..]) else KindAt(t, q)
    decreases |p|
  {
    if p != [] {
      var child := t.children[p[0]];
      assert Graft(t, p, s).children.Keys == t.children.Keys;
      if q != [] && q[0] == p[0] {
        ReplaceKind(child, p[1..], s, q[1..]);
        assert p <= q <==> p[1..] <= q[1..];
        if p <= q {
          assert q[1..][|p[1..]|..] == q[|p|..];
        }
      }
    }
  }

  lemma {:induction false} AttachKind(t: Tree, p: Path, k: string, s: Tree, q: Path)
    requires GroupAt(t, p)
    ensures KindAt(Graft(t, p + [k], s), q)
            == if p + [k] <= q then KindAt(s, q[|p| + 1..])
               else if q == p then Some(GroupOf(KindAt(t, p).value.keys + {k}))
               else KindAt(t, q)
    decreases |p|
  {
    var pk := p + [k];
    if p == [] {
      assert pk[1..] == [] && pk[0] == k;
      if pk <= q {
        assert q[1..] == q[|p| + 1..];
      } else if q != [] {
        assert q[0] != k;
      } else {
        assert Graft(t, pk, s).children.Keys == t.children.Keys + {k};
      }
    } else {
      var child := t.children[p[0]];
      assert pk[0] == p[0] && pk[1..] == p[1..] + [k];
      assert Graft(t, pk, s).children.Keys == t.children.Keys;
      if q != [] && q[0] == p[0] {
        AttachKind(child, p[1..], k, s, q[1..]);
        assert pk <= q <==> p[1..] + [k] <= q[1..];
        assert q == p <==> q[1..] == p[1..];
        if pk <= q {
          assert q[1..][|p[1..]| + 1..] == q[|p| + 1..];
        }
      }
    }
  }

  /** Creating the missing group on the way is part of the insertion. */
  lemma {:induction false} AttachThenInsert(t: Tree, p: Path, k: string, path: Path, leaf: LeafInfo)
    requires GroupAt(t, p) && k !in KindAt(t, p).value.keys && p + [k] <= path
    ensures Insert(Graft(t, p + [k], EMPTY), path, leaf) == Insert(t, path, leaf)
    decreases |p|
  {
    var pk := p + [k];
    assert path[0] == pk[0];
    if p == [] {
      assert pk[1..] == [];
      if Insert(EMPTY, path[1..], leaf).Some? {
        assert t.children[k := EMPTY][k := Insert(EMPTY, path[1..], leaf).value]
               == t.children[k := Insert(EMPTY, path[1..], leaf).value];
      }
    } else {
      var child := t.children[p[0]];
      assert pk[1..] == p[1..] + [k];
      assert p[1..] + [k] <= path[1..];
      AttachThenInsert(child, p[1..], k, path[1..], leaf);
      var grown := Graft(child, p[1..] + [k], EMPTY);
      if Insert(child, path[1..], leaf).Some? {
        var c := Insert(child, path[1..], leaf).value;
        assert t.children[p[0] := grown][p[0] := c] == t.children[p[0] := c];
      }
    }
  }

  lemma DescentKeepsInsert(t: Tree, p: Path, k: string, path: Path, leaf: LeafInfo)
    requires GroupAt(t, p) && p + [k] <= path
    ensures KindAt(t, p + [k]).None? ==> Insert(Graft(t, p + [k], EMPTY), path, leaf) == Insert(t, path, leaf)
  {
    KindAtStep(t, p, k);
    if KindAt(t, p + [k]).None? {
      AttachThenInsert(t, p, k, path, leaf);
    }
  }

  lemma {:induction false} InsertIsGraft(t: Tree, path: Path, leaf: LeafInfo)
    requires KindAt(t, path).Some?
    ensures Insert(t, path, leaf) == Some(Graft(t, path, Leaf(leaf)))
    decreases |path|
  {
    if path != [] {
      InsertIsGraft(t.children[path[0]], path[1..], leaf);
    }
  }

  lemma {:induction false} InsertThroughLeaf(t: Tree, p: Path, path: Path, leaf: LeafInfo)
    requires KindAt(t, p).Some? && !GroupAt(t, p) && p < path
    ensures Insert(t, path, leaf) == None
    decreases |p|
  {
    if p != [] {
      InsertThroughLeaf(t.children[p[0]], p[1..], path[1..], leaf);
    }
  }

  lemma {:induction false} BelowAbsent(t: Tree, p: Path, q: Path)
    requires KindAt(t, p).None? && p <= q
    ensures KindAt(t, q).None?
    decreases |p|
  {
    if p != [] && t.Group? && p[0] in t.children {
      BelowAbsent(t.children[p[0]], p[1..], q[1..]);
    }
  }

  function KindAfterAttach(t: Tree, p: Path, k: string, q: Path): Option<Kind>
    requires GroupAt(t, p)
  {
    if q == p + [k] then Some(GroupOf({}))
    else if q == p then Some(GroupOf(KindAt(t, p).value.keys + {k}))
    else KindAt(t, q)
  }

  lemma AttachEmptyKind(t: Tree, p: Path, k: string, q: Path)
    requires GroupAt(t, p) && k !in KindAt(t, p).value.keys
    ensures KindAt(Graft(t, p + [k], EMPTY), q) == KindAfterAttach(t, p, k, q)
  {
    AttachKind(t, p, k, EMPTY, q);
    KindAtStep(t, p, k);
    if p + [k] <= q {
      BelowAbsent(t, p + [k], q);
      assert EMPTY.children.Keys == {};
      assert q[|p| + 1..] == [] <==> q == p + [k];
    }
  }

  // ---- the nodes of a tree ----------------------------------------------------------------------------

  /** The node at `p` has the kind it has in `t`, and its children are the nodes one step further. */
  ghost predicate Conforms(t: Tree, at: map<Path, TreeNode>, p: Path)
    requires p in at
    reads at[p]
  {
    && KindAt(t, p).Some? && at[p].HasKind(KindAt(t, p).value)
    && (at[p].children.Some? ==>
          forall k <- at[p].children.value :: p + [k] in at && at[p + [k]] == at[p].children.value[k])
  }

  ghost predicate Distinct(at: map<Path, TreeNode>) {
    forall p, q :: p in at && q in at && at[p] == at[q] ==> p == q
  }

  /** The nodes `at` make up the tree `t`, rooted at `root`: no node is shared, and none is missing. */
  ghost predicate Holds(t: Tree, root: TreeNode, at: map<Path, TreeNode>)
    reads at.Values
  {
    && [] in at && at[[]] == root
    && Distinct(at)
    && (forall p :: KindAt(t, p).Some? ==> p in at)
    && (forall p <- at :: Conforms(t, at, p))
  }

  lemma NodeKind(t: Tree, root: TreeNode, at: map<Path, TreeNode>, p: Path)
    requires Holds(t, root, at) && p in at
    ensures KindAt(t, p).Some? && (at[p].IsGroup() <==> GroupAt(t, p))
  {
    assert Conforms(t, at, p);
  }

  // ---- insertLeaf -------------------------------------------------------------------------------------

  /** Descends one segment, creating the group that is missing there. */
  method Descend(root: TreeNode, node: TreeNode, seg: string, ghost p: Path, ghost t: Tree,
                 ghost at: map<Path, TreeNode>)
    returns (child: TreeNode, ghost t': Tree, ghost at': map<Path, TreeNode>)
    requires Holds(t, root, at) && p in at && at[p] == node && node.IsGroup()
    modifies node
    ensures Holds(t', root, at') && p + [seg] in at' && at'[p + [seg]] == child
    ensures t' == if KindAt(t, p + [seg]).Some? then t else Graft(t, p + [seg], EMPTY)
    ensures fresh(at'.Values - at.Values)
  {
    KindAtStep(t, p, seg);
    assert Conforms(t, at, p);
    if seg in node.children.value {
      return node.children.value[seg], t, at;
    }
    child := new TreeNode();
    t' := Graft(t, p + [seg], EMPTY);
    at' := at[p + [seg] := child];
    assert at'.Values <= at.Values + {child};
    node.children := Some(node.children.value[seg := child]);
    forall q
      ensures KindAt(t', q) == KindAfterAttach(t, p, seg, q)
    {
      AttachEmptyKind(t, p, seg, q);
    }
    forall q <- at'
      ensures Conforms(t', at', q)
    {
      if q != p + [seg] {
        assert q in at;
      }
    }
  }

  /** One iteration of the loop in `insertLeaf`. It fails where the source panics: when it would store into a leaf's
      nil map. */
  method Advance(root: TreeNode, node: TreeNode, path: Path, i: nat, ghost leaf: LeafInfo, ghost t: Tree,
                 ghost at: map<Path, TreeNode>)
    returns (ok: bool, child: TreeNode, ghost u: Tree, ghost at': map<Path, TreeNode>)
    requires i < |path| && Holds(t, root, at) && path[..i] in at && at[path[..i]] == node
    modifies node
    ensures ok ==> Holds(u, root, at') && path[..i + 1] in at' && at'[path[..i + 1]] == child
    ensures if ok then Insert(u, path, leaf) == Insert(t, path, leaf) else Insert(t, path, leaf) == None
    ensures fresh(at'.Values - at.Values)
  {
    PrefixGrows(path, i);
    NodeKind(t, root, at, path[..i]);
    if !node.IsGroup() {
      InsertThroughLeaf(t, path[..i], path, leaf);
      return false, node, t, at;
    }
    DescentKeepsInsert(t, path[..i], path[i], path, leaf);
    ok := true;
    child, u, at' := Descend(root, node, path[i], path[..i], t, at);
  }

  /** The loop of `insertLeaf`: walks the path, growing groups. */
  method Walk(root: TreeNode, path: Path, ghost leaf: LeafInfo, ghost t: Tree, ghost at: map<Path, TreeNode>)
    returns (ok: bool, node: TreeNode, ghost u: Tree, ghost at': map<Path, TreeNode>)
    requires Holds(t, root, at)
    modifies at.Values
    ensures ok ==> Holds(u, root, at') && path in at' && at'[path] == node
    ensures if ok then Insert(u, path, leaf) == Insert(t, path, leaf) else Insert(t, path, leaf) == None
    ensures fresh(at'.Values - at.Values)
  {
    ok, node, u, at' := true, root, t, at;
    for i := 0 to |path|
      invariant Holds(u, root, at') && path[..i] in at' && at'[path[..i]] == node
      invariant Insert(u, path, leaf) == Insert(t, path, leaf)
      invariant ok && fresh(at'.Values - at.Values)
    {
      ok, node, u, at' := Advance(root, node, path, i, leaf, u, at');
      if !ok {
        return;
      }
    }
    assert path[..|path|] == path;
  }

  lemma PrefixGrows(path: Path, i: nat)
    requires i < |path|
    ensures path[..i + 1] == path[..i] + [path[i]]
  {
  }

  /** `insertLeaf`: the node at the end of the path becomes a leaf. */
  method InsertLeaf(root: TreeNode, path: Path, leaf: LeafInfo, ghost t: Tree, ghost at: map<Path, TreeNode>)
    returns (ok: bool, ghost at': map<Path, TreeNode>)
    requires Holds(t, root, at)
    modifies at.Values
    ensures ok <==> Insert(t, path, leaf).Some?
    ensures ok ==> Holds(Insert(t, path, leaf).value, root, at')
    ensures fresh(at'.Values - at.Values)
  {
    var node: TreeNode;
    ghost var u: Tree;
    ok, node, u, at' := Walk(root, path, leaf, t, at);
    if !ok {
      return;
    }
    assert Conforms(u, at', path);
    InsertIsGraft(u, path, leaf);
    node.children := None;
    node.leaf := Some(leaf);
    ConvertHolds(u, root, at', path, leaf);
    at' := Kept(at', path);
  }

  /** The nodes that stay when the one at `path` becomes a leaf. */
  ghost function Kept(at: map<Path, TreeNode>, path: Path): map<Path, TreeNode> {
    map q | q in at && !(path < q) :: at[q]
  }

  lemma ConvertHolds(t: Tree, root: TreeNode, at: map<Path, TreeNode>, path: Path, leaf: LeafInfo)
    requires [] in at && at[[]] == root && Distinct(at) && path in at && KindAt(t, path).Some?
    requires forall p :: KindAt(t, p).Some? ==> p in at
    requires forall p <- at :: p != path ==> Conforms(t, at, p)
    requires at[path].HasKind(LeafOf(leaf))
    ensures Holds(Graft(t, path, Leaf(leaf)), root, Kept(at, path))
  {
    var t', at' := Graft(t, path, Leaf(leaf)), Kept(at, path);
    forall q
      ensures KindAt(t', q) == if q == path then Some(LeafOf(leaf)) else if path < q then None else KindAt(t, q)
    {
      ReplaceKind(t, path, Leaf(leaf), q);
    }
    forall p <- at'
      ensures Conforms(t', at', p)
    {
      if p != path {
        assert Conforms(t, at, p);
        if at[p].children.Some? {
          forall k <- at[p].children.value
            ensures p + [k] in at'
          {
            assert (p + [k])[..|p|] == p;
          }
        }
      }
    }
  }

  // ---- pruneDeadGroups ----------------------------------------------------------------------------------

  /** The nodes below the child `k`, by their position under it. */
  ghost function Below(at: map<Path, TreeNode>, k: string): (sub: map<Path, TreeNode>)
    ensures forall q :: q in sub <==> [k] + q in at
    ensures forall q <- sub :: sub[q] == at[[k] + q]
  {
    var tails := set p | p in at && [k] <= p :: p[1..];
    assert forall p :: [k] <= p ==> p == [k] + p[1..];
    assert forall q: Path :: ([k] + q)[1..] == q;
    map q | q in tails :: at[[k] + q]
  }

  lemma KindAtChild(t: Tree, k: string, q: Path)
    requires t.Group? && k in t.children
    ensures KindAt(t, [k] + q) == KindAt(t.children[k], q)
  {
    assert ([k] + q)[1..] == q;
  }

  lemma BelowConforms(t: Tree, at: map<Path, TreeNode>, k: string, q: Path)
    requires t.Group? && k in t.children && [k] + q in at && Conforms(t, at, [k] + q)
    ensures Conforms(t.children[k], Below(at, k), q)
  {
    KindAtChild(t, k, q);
    var node := at[[k] + q];
    if node.children.Some? {
      forall j <- node.children.value
        ensures q + [j] in Below(at, k) && Below(at, k)[q + [j]] == node.children.value[j]
      {
        assert ([k] + q) + [j] == [k] + (q + [j]);
      }
    }
  }

  lemma BelowDistinct(at: map<Path, TreeNode>, k: string)
    requires Distinct(at)
    ensures Distinct(Below(at, k))
  {
    forall p, q | p in Below(at, k) && q in Below(at, k) && Below(at, k)[p] == Below(at, k)[q]
      ensures p == q
    {
      assert [k] + p == [k] + q;
      assert ([k] + p)[1..] == ([k] + q)[1..];
    }
  }

  lemma BelowHolds(t: Tree, root: TreeNode, at: map<Path, TreeNode>, k: string)
    requires Holds(t, root, at) && t.Group? && k in t.children
    ensures [k] in at && Holds(t.children[k], at[[k]], Below(at, k))
  {
    BelowDistinct(at, k);
    forall q | KindAt(t.children[k], q).Some?
      ensures q in Below(at, k)
    {
      KindAtChild(t, k, q);
    }
    assert [k] + [] == [k];
    assert KindAt(t.children[k], []).Some?;
    forall q <- Below(at, k)
      ensures Conforms(t.children[k], Below(at, k), q)
    {
      assert Conforms(t, at, [k] + q);
      BelowConforms(t, at, k, q);
    }
  }

  /** `at` with `sub` as the nodes below the child `k`. */
  ghost function Rejoined(at: map<Path, TreeNode>, k: string, sub: map<Path, TreeNode>): (at': map<Path, TreeNode>)
    ensures forall p :: p in at' <==> if [k] <= p then p[1..] in sub else p in at
    ensures forall p <- at' :: at'[p] == if [k] <= p then sub[p[1..]] else at[p]
  {
    var inside := set q | q in sub :: [k] + q;
    assert forall p :: [k] <= p ==> p == [k] + p[1..];
    assert forall q: Path :: ([k] + q)[1..] == q;
    map p | p in at.Keys + inside && if [k] <= p then p in inside else p in at ::
      if [k] <= p then sub[p[1..]] else at[p]
  }

  /** What is known of the nodes while those below the child `k` have changed. */
  ghost predicate HoldsBut(t: Tree, root: TreeNode, at: map<Path, TreeNode>, k: string)
    reads at.Values
  {
    && [] in at && at[[]] == root && Distinct(at)
    && (forall p :: KindAt(t, p).Some? ==> p in at)
    && (forall p <- at :: !([k] <= p) ==> Conforms(t, at, p))
  }

  lemma RejoinedDistinct(at: map<Path, TreeNode>, k: string, sub: map<Path, TreeNode>)
    requires Distinct(at) && Distinct(sub) && sub.Values <= Below(at, k).Values
    ensures Distinct(Rejoined(at, k, sub))
    ensures Rejoined(at, k, sub).Values <= at.Values
  {
    var at' := Rejoined(at, k, sub);
    forall q <- sub
      ensures exists p :: p in at && [k] <= p && at[p] == sub[q]
    {
      assert sub[q] in sub.Values;
      var r :| r in Below(at, k) && Below(at, k)[r] == sub[q];
      assert [k] <= [k] + r;
    }
    forall p, q | p in at' && q in at' && at'[p] == at'[q]
      ensures p == q
    {
      if [k] <= p && [k] <= q {
        assert p[1..] == q[1..];
        assert p == [k] + p[1..] && q == [k] + q[1..];
      }
    }
  }

  lemma KindAtReplaced(t: Tree, k: string, s: Tree, p: Path)
    requires t.Group? && k in t.children
    ensures KindAt(Group(t.children[k := s]), p) == if [k] <= p then KindAt(s, p[1..]) else KindAt(t, p)
  {
    assert t.children[k := s].Keys == t.children.Keys;
  }

  lemma RejoinHolds(t: Tree, root: TreeNode, at: map<Path, TreeNode>, k: string, s: Tree, sub: map<Path, TreeNode>)
    requires HoldsBut(t, root, at, k) && t.Group? && k in t.children && [k] in at
    requires Holds(s, at[[k]], sub) && sub.Values <= Below(at, k).Values
    ensures Holds(Group(t.children[k := s]), root, Rejoined(at, k, sub))
    ensures Rejoined(at, k, sub).Values <= at.Values
  {
    var t', at' := Group(t.children[k := s]), Rejoined(at, k, sub);
    RejoinedDistinct(at, k, sub);
    forall p | KindAt(t', p).Some?
      ensures p in at'
    {
      KindAtReplaced(t, k, s, p);
    }
    forall p <- at'
      ensures Conforms(t', at', p)
    {
      if [k] <= p {
        assert Conforms(s, sub, p[1..]);
        InsideConforms(t, at, k, s, sub, p);
      } else {
        assert Conforms(t, at, p);
        OutsideConforms(t, at, k, s, sub, p);
      }
    }
  }

  lemma InsideConforms(t: Tree, at: map<Path, TreeNode>, k: string, s: Tree, sub: map<Path, TreeNode>, p: Path)
    requires t.Group? && k in t.children && [k] <= p && p[1..] in sub && Conforms(s, sub, p[1..])
    ensures Conforms(Group(t.children[k := s]), Rejoined(at, k, sub), p)
  {
    KindAtReplaced(t, k, s, p);
    var node := sub[p[1..]];
    if node.children.Some? {
      forall j <- node.children.value
        ensures p + [j] in Rejoined(at, k, sub) && Rejoined(at, k, sub)[p + [j]] == node.children.value[j]
      {
        assert (p + [j])[1..] == p[1..] + [j];
      }
    }
  }

  lemma OutsideConforms(t: Tree, at: map<Path, TreeNode>, k: string, s: Tree, sub: map<Path, TreeNode>, p: Path)
    requires t.Group? && k in t.children && !([k] <= p) && p in at && Conforms(t, at, p)
    requires [k] in at && [] in sub && sub[[]] == at[[k]]
    ensures Conforms(Group(t.children[k := s]), Rejoined(at, k, sub), p)
  {
    KindAtReplaced(t, k, s, p);
    var node := at[p];
    if node.children.Some? {
      forall j <- node.children.value
        ensures p + [j] in Rejoined(at, k, sub) && Rejoined(at, k, sub)[p + [j]] == node.children.value[j]
      {
        if [k] <= p + [j] {
          assert p == [];
          assert p + [j] == [k] && [k][1..] == [];
        }
      }
    }
  }

  /** The tree after the children outside `todo` have been pruned. */
  ghost function Partly(ch: map<string, Tree>, todo: set<string>): Tree {
    Group(map k | k in ch && (k in todo || !Dead(Prune(ch[k]))) :: if k in todo then ch[k] else Prune(ch[k]))
  }

  lemma PartlyEnds(ch: map<string, Tree>)
    ensures Partly(ch, ch.Keys) == Group(ch) && Partly(ch, {}) == Prune(Group(ch))
  {
    assert Partly(ch, ch.Keys).children == ch;
    assert Partly(ch, {}).children == Prune(Group(ch)).children;
  }

  lemma PartlyStep(ch: map<string, Tree>, todo: set<string>, name: string)
    requires name in ch && name in todo
    ensures var t := Partly(ch, todo).children[name := Prune(ch[name])];
            Partly(ch, todo - {name}) == Group(if Dead(Prune(ch[name])) then t - {name} else t)
  {
    var t := Partly(ch, todo).children[name := Prune(ch[name])];
    assert Partly(ch, todo - {name}).children == if Dead(Prune(ch[name])) then t - {name} else t;
  }

  /** `pruneDeadGroups`, visiting the children in any order. */
  method PruneDeadGroups(node: TreeNode, ghost t: Tree, ghost at: map<Path, TreeNode>)
    returns (ghost at': map<Path, TreeNode>)
    requires Holds(t, node, at)
    modifies at.Values
    ensures Holds(Prune(t), node, at') && at'.Values <= at.Values
    decreases t, 1
  {
    assert Conforms(t, at, []);
    at' := at;
    if !node.IsGroup() {
      return;
    }
    ghost var ch := t.children;
    var todo := node.children.value.Keys;
    PartlyEnds(ch);
    while todo != {}
      invariant todo <= ch.Keys
      invariant Holds(Partly(ch, todo), node, at') && at'.Values <= at.Values
      decreases |todo|
    {
      var name :| name in todo;
      PartlyStep(ch, todo, name);
      var dead: bool;
      dead, at' := PruneChild(node, name, Partly(ch, todo), at');
      if dead {
        at' := DeleteChild(node, name, Group(Partly(ch, todo).children[name := Prune(ch[name])]), at');
      }
      todo := todo - {name};
    }
  }

  /** Prunes one child, and tells whether it is left an empty group. */
  method PruneChild(node: TreeNode, name: string, ghost t: Tree, ghost at: map<Path, TreeNode>)
    returns (dead: bool, ghost at': map<Path, TreeNode>)
    requires t.Group? && name in t.children && Holds(t, node, at)
    modifies at.Values
    ensures Holds(Group(t.children[name := Prune(t.children[name])]), node, at') && at'.Values <= at.Values
    ensures dead <==> Dead(Prune(t.children[name]))
    decreases t.children[name], 2
  {
    ghost var s := t.children[name];
    BelowHolds(t, node, at, name);
    ChildNode(t, node, at, name);
    BelowSeparate(at, name);
    var child := node.children.value[name];
    ghost var sub := PruneDeadGroups(child, s, Below(at, name));
    dead := IsEmptyGroup(child, Prune(s), sub);
    assert HoldsBut(t, node, at, name);
    RejoinHolds(t, node, at, name, Prune(s), sub);
    at' := Rejoined(at, name, sub);
  }

  lemma ChildNode(t: Tree, root: TreeNode, at: map<Path, TreeNode>, k: string)
    requires Holds(t, root, at) && t.Group? && k in t.children
    ensures root.children.Some? && k in root.children.value && [k] in at && at[[k]] == root.children.value[k]
  {
    assert Conforms(t, at, []);
    assert [] + [k] == [k];
  }

  lemma BelowSeparate(at: map<Path, TreeNode>, k: string)
    requires Distinct(at)
    ensures forall p <- at :: !([k] <= p) ==> at[p] !in Below(at, k).Values
    ensures Below(at, k).Values <= at.Values
  {
    forall n <- Below(at, k).Values
      ensures exists p :: p in at && [k] <= p && at[p] == n
    {
      var r :| r in Below(at, k) && Below(at, k)[r] == n;
      assert [k] <= [k] + r;
    }
  }

  method IsEmptyGroup(node: TreeNode, ghost t: Tree, ghost at: map<Path, TreeNode>) returns (empty: bool)
    requires Holds(t, node, at)
    ensures empty <==> Dead(t)
  {
    assert Conforms(t, at, []);
    assert Dead(t) <==> t.Group? && t.children.Keys == {};
    empty := node.IsGroup() && node.children.value.Keys == {};
  }

  method DeleteChild(node: TreeNode, name: string, ghost t: Tree, ghost at: map<Path, TreeNode>)
    returns (ghost at': map<Path, TreeNode>)
    requires t.Group? && name in t.children && Holds(t, node, at)
    modifies node
    ensures Holds(Group(t.children - {name}), node, at') && at'.Values <= at.Values
  {
    assert Conforms(t, at, []);
    node.children := Some(node.children.value - {name});
    at' := map p | p in at && !([name] <= p) :: at[p];
    ghost var t' := Group(t.children - {name});
    assert t'.children.Keys == t.children.Keys - {name};
    forall p
      ensures p != [] ==> KindAt(t', p) == if [name] <= p then None else KindAt(t, p)
    {
    }
    forall p <- at'
      ensures Conforms(t', at', p)
    {
      if p != [] {
        assert Conforms(t, at, p);
      }
    }
  }

  // ---- buildTree ------------------------------------------------------------------------------------------

  datatype MethodInfo = MethodInfo(path: Path, cli: bool, leaf: LeafInfo)

  datatype ServiceInfo = ServiceInfo(path: Path, methods: seq<MethodInfo>)

  ghost function MethodCommands(path: Path, methods: seq<MethodInfo>): seq<Command> {
    if methods == [] then []
    else
      var m := methods[|methods| - 1];
      MethodCommands(path, methods[..|methods| - 1]) + if m.cli then [Command(path + m.path, m.leaf)] else []
  }

  /** The exposed methods of all services, in order. */
  ghost function Commands(services: seq<ServiceInfo>): seq<Command> {
    if services == [] then []
    else
      var svc := services[|services| - 1];
      Commands(services[..|services| - 1]) + MethodCommands(svc.path, svc.methods)
  }

  // ---- which method stands where ----------------------------------------------------------------------------

  /** Method `index` of service `service`. */
  datatype Position = Position(service: nat, index: nat)

  /** The method exists and is exposed to the CLI. */
  predicate Exposed(services: seq<ServiceInfo>, o: Position) {
    o.service < |services| && o.index < |services[o.service].methods| && services[o.service].methods[o.index].cli
  }

  /** Where an exposed method belongs: its own path below that of its service. */
  function PathOf(services: seq<ServiceInfo>, o: Position): Path
    requires Exposed(services, o)
  {
    services[o.service].path + services[o.service].methods[o.index].path
  }

  function LeafOfMethod(services: seq<ServiceInfo>, o: Position): LeafInfo
    requires Exposed(services, o)
  {
    services[o.service].methods[o.index].leaf
  }

  /** No exposed method's path repeats or extends another's. */
  ghost predicate PathsFree(services: seq<ServiceInfo>) {
    forall o, u :: Exposed(services, o) && Exposed(services, u) && o != u ==>
      !(PathOf(services, o) <= PathOf(services, u))
  }

  /** The leaves of `t` are the exposed methods, each at its service's path followed by its own. */
  ghost predicate HasMethods(t: Tree, services: seq<ServiceInfo>) {
    && (forall o :: Exposed(services, o) ==> LeafAt(t, PathOf(services, o)) == Some(LeafOfMethod(services, o)))
    && (forall path :: LeafAt(t, path).Some? ==>
          exists o :: Exposed(services, o) && path == PathOf(services, o)
                      && LeafAt(t, path) == Some(LeafOfMethod(services, o)))
  }

  /** The exposed ones among the first `n` methods of service `i`. */
  ghost function MethodOrigins(services: seq<ServiceInfo>, i: nat, n: nat): (os: seq<Position>)
    requires i < |services| && n <= |services[i].methods|
    ensures forall o :: o in os <==> Exposed(services, o) && o.service == i && o.index < n
    ensures forall a, b :: 0 <= a < b < |os| ==> os[a] != os[b]
  {
    if n == 0 then []
    else MethodOrigins(services, i, n - 1) + if services[i].methods[n - 1].cli then [Position(i, n - 1)] else []
  }

  /** The exposed methods of the first `n` services, in order. */
  ghost function Origins(services: seq<ServiceInfo>, n: nat): (os: seq<Position>)
    requires n <= |services|
    ensures forall o :: o in os <==> Exposed(services, o) && o.service < n
    ensures forall a, b :: 0 <= a < b < |os| ==> os[a] != os[b]
  {
    if n == 0 then []
    else
      var front, last := Origins(services, n - 1), MethodOrigins(services, n - 1, |services[n - 1].methods|);
      assert forall o :: o in front + last <==> o in front || o in last;
      assert forall o :: o in front ==> o !in last;
      front + last
  }

  /** The commands `cs` are those of the methods `os`. */
  ghost predicate CommandsOf(services: seq<ServiceInfo>, os: seq<Position>, cs: seq<Command>) {
    && |cs| == |os|
    && forall n :: 0 <= n < |os| ==>
         Exposed(services, os[n]) && cs[n] == Command(PathOf(services, os[n]), LeafOfMethod(services, os[n]))
  }

  lemma {:induction false} MethodCommandsOf(services: seq<ServiceInfo>, i: nat, n: nat)
    requires i < |services| && n <= |services[i].methods|
    ensures CommandsOf(services, MethodOrigins(services, i, n),
                       MethodCommands(services[i].path, services[i].methods[..n]))
  {
    if n > 0 {
      MethodCommandsOf(services, i, n - 1);
      assert services[i].methods[..n][..n - 1] == services[i].methods[..n - 1];
    }
  }

  lemma {:induction false} OriginsAreCommands(services: seq<ServiceInfo>, n: nat)
    requires n <= |services|
    ensures CommandsOf(services, Origins(services, n), Commands(services[..n]))
  {
    if n > 0 {
      OriginsAreCommands(services, n - 1);
      var methods := services[n - 1].methods;
      MethodCommandsOf(services, n - 1, |methods|);
      assert methods[..|methods|] == methods && services[..n][..n - 1] == services[..n - 1];
    }
  }

  lemma AllCommandsOf(services: seq<ServiceInfo>)
    ensures CommandsOf(services, Origins(services, |services|), Commands(services))
  {
    OriginsAreCommands(services, |services|);
    assert services[..|services|] == services;
  }

  lemma FreePathsFreeCommands(services: seq<ServiceInfo>)
    ensures PathsFree(services) <==> PrefixFree(Commands(services))
  {
    var os, cs := Origins(services, |services|), Commands(services);
    AllCommandsOf(services);
    if PathsFree(services) {
      forall a, b | 0 <= a < |cs| && 0 <= b < |cs| && a != b
        ensures !(cs[a].path <= cs[b].path)
      {
        assert os[a] != os[b];
      }
    }
    if PrefixFree(cs) {
      forall o, u | Exposed(services, o) && Exposed(services, u) && o != u
        ensures !(PathOf(services, o) <= PathOf(services, u))
      {
        assert o in os && u in os;
        var a :| 0 <= a < |os| && os[a] == o;
        var b :| 0 <= b < |os| && os[b] == u;
        assert !(cs[a].path <= cs[b].path);
      }
    }
  }

  lemma RepresentedMethods(services: seq<ServiceInfo>, t: Tree)
    requires Represents(t, Commands(services))
    ensures HasMethods(t, services)
  {
    var os, cs := Origins(services, |services|), Commands(services);
    AllCommandsOf(services);
    forall o | Exposed(services, o)
      ensures LeafAt(t, PathOf(services, o)) == Some(LeafOfMethod(services, o))
    {
      assert o in os;
      var n :| 0 <= n < |os| && os[n] == o;
      assert cs[n] in cs;
    }
    forall path | LeafAt(t, path).Some?
      ensures exists o :: Exposed(services, o) && path == PathOf(services, o)
                          && LeafAt(t, path) == Some(LeafOfMethod(services, o))
    {
      var n :| 0 <= n < |cs| && cs[n] == Command(path, LeafAt(t, path).value);
      assert Exposed(services, os[n]);
    }
  }

  /** The methods' leaves at their commands' paths. */
  lemma CommandsInPlace(services: seq<ServiceInfo>, t: Tree)
    requires HasMethods(t, services)
    ensures forall c <- Commands(services) :: LeafAt(t, c.path) == Some(c.leaf)
  {
    AllCommandsOf(services);
    forall c <- Commands(services)
      ensures LeafAt(t, c.path) == Some(c.leaf)
    {
      var n :| 0 <= n < |Commands(services)| && Commands(services)[n] == c;
      assert Exposed(services, Origins(services, |services|)[n]);
    }
  }

  /** With distinct procedures, building gives every exposed method its place, and nothing else, if and only if no path
      repeats or extends another. */
  lemma MethodsInPlace(services: seq<ServiceInfo>)
    requires forall o, u :: Exposed(services, o) && Exposed(services, u) && o != u ==>
               LeafOfMethod(services, o) != LeafOfMethod(services, u)
    ensures PathsFree(services)
            <==> Build(Commands(services)).Some? && HasMethods(Build(Commands(services)).value, services)
  {
    if PathsFree(services) {
      FreeMethodsBuild(services);
    }
    AllCommandsOf(services);
    FreePathsFreeCommands(services);
    BuildNeedsNoPruning(Commands(services));
    if Build(Commands(services)).Some? && HasMethods(Build(Commands(services)).value, services) {
      CommandsInPlace(services, Build(Commands(services)).value);
      BuildableIffPrefixFree(Commands(services));
    }
  }

  lemma FreeMethodsBuild(services: seq<ServiceInfo>)
    requires PathsFree(services)
    ensures Build(Commands(services)).Some? && HasMethods(Build(Commands(services)).value, services)
  {
    FreePathsFreeCommands(services);
    InsertAllRepresents(Commands(services));
    BuildNeedsNoPruning(Commands(services));
    RepresentedMethods(services, Build(Commands(services)).value);
  }

  /** A method runs on its service's path, its own path and its arguments, with exactly those arguments. */
  lemma MethodsRun(services: seq<ServiceInfo>, t: Tree, o: Position, rest: seq<string>)
    requires t.Group? && HasMethods(t, services) && Exposed(services, o) && PathOf(services, o) != []
    requires NoHelp(PathOf(services, o)) && (rest != [] ==> !AsksHelp(rest[0]))
    ensures Traverse(t, services[o.service].path + services[o.service].methods[o.index].path + rest)
            == Ran(services[o.service].methods[o.index].leaf, rest)
  {
    var path := PathOf(services, o);
    var args := path + rest;
    assert args[..|path|] == path && args[|path|..] == rest;
    assert Names(t, args, |path|, LeafOfMethod(services, o));
    DispatchRuns(t, args, LeafOfMethod(services, o), rest);
  }

  /** Whatever runs is an exposed method that argv asked for by its service's path and its own. */
  lemma OnlyMethodsRun(services: seq<ServiceInfo>, t: Tree, args: seq<string>, leaf: LeafInfo, rest: seq<string>)
    requires t.Group? && HasMethods(t, services) && Traverse(t, args) == Ran(leaf, rest)
    ensures exists o :: Exposed(services, o) && services[o.service].methods[o.index].leaf == leaf
                        && args == services[o.service].path + services[o.service].methods[o.index].path + rest
  {
    DispatchRuns(t, args, leaf, rest);
    var n: nat :| Names(t, args, n, leaf) && rest == args[n..];
    assert args == args[..n] + args[n..];
    var o :| Exposed(services, o) && args[..n] == PathOf(services, o)
             && LeafAt(t, args[..n]) == Some(LeafOfMethod(services, o));
  }

  // ---- the loops of buildTree ---------------------------------------------------------------------------------

  lemma {:induction false} InsertAllStuck(cs: seq<Command>, ds: seq<Command>)
    requires InsertAll(EMPTY, cs) == None
    ensures InsertAll(EMPTY, cs + ds) == None
  {
    if ds != [] {
      InsertAllStuck(cs, ds[..|ds| - 1]);
      assert (cs + ds)[..|cs + ds| - 1] == cs + ds[..|ds| - 1];
    } else {
      assert cs + ds == cs;
    }
  }

  lemma InsertAllNext(cs: seq<Command>, c: Command)
    ensures InsertAll(EMPTY, cs + [c])
            == if InsertAll(EMPTY, cs).None? then None else Insert(InsertAll(EMPTY, cs).value, c.path, c.leaf)
  {
    assert (cs + [c])[..|cs|] == cs;
  }

  lemma {:induction false} MethodCommandsGrow(path: Path, methods: seq<MethodInfo>, j: nat)
    requires j <= |methods|
    ensures MethodCommands(path, methods[..j]) <= MethodCommands(path, methods)
    decreases |methods| - j
  {
    if j < |methods| {
      MethodCommandsGrow(path, methods, j + 1);
      assert methods[..j + 1][..j] == methods[..j];
    } else {
      assert methods[..j] == methods;
    }
  }

  lemma {:induction false} CommandsGrow(services: seq<ServiceInfo>, i: nat)
    requires i <= |services|
    ensures Commands(services[..i]) <= Commands(services)
    decreases |services| - i
  {
    if i < |services| {
      CommandsGrow(services, i + 1);
      assert services[..i + 1][..i] == services[..i];
    } else {
      assert services[..i] == services;
    }
  }

  lemma PrefixStuck(cs: seq<Command>, all: seq<Command>)
    requires cs <= all && InsertAll(EMPTY, cs) == None
    ensures InsertAll(EMPTY, all) == None
  {
    assert all == cs + all[|cs|..];
    InsertAllStuck(cs, all[|cs|..]);
  }

  /** The nodes hold the tree of the commands so far. */
  ghost predicate Built(cs: seq<Command>, root: TreeNode, at: map<Path, TreeNode>)
    reads at.Values
  {
    InsertAll(EMPTY, cs).Some? && Holds(InsertAll(EMPTY, cs).value, root, at)
  }

  method InsertCommand(root: TreeNode, c: Command, ghost done: seq<Command>, ghost at: map<Path, TreeNode>)
    returns (ok: bool, ghost at': map<Path, TreeNode>)
    requires Built(done, root, at)
    modifies at.Values
    ensures if ok then Built(done + [c], root, at') else InsertAll(EMPTY, done + [c]) == None
    ensures fresh(at'.Values - at.Values)
  {
    InsertAllNext(done, c);
    ok, at' := InsertLeaf(root, c.path, c.leaf, InsertAll(EMPTY, done).value, at);
  }

  ghost function UpTo(done: seq<Command>, svc: ServiceInfo, j: nat): seq<Command>
    requires j <= |svc.methods|
  {
    done + MethodCommands(svc.path, svc.methods[..j])
  }

  lemma UpToEnds(done: seq<Command>, svc: ServiceInfo)
    ensures UpTo(done, svc, 0) == done
    ensures UpTo(done, svc, |svc.methods|) == done + MethodCommands(svc.path, svc.methods)
  {
    assert svc.methods[..|svc.methods|] == svc.methods;
  }

  lemma UpToNext(done: seq<Command>, svc: ServiceInfo, j: nat)
    requires j < |svc.methods|
    ensures UpTo(done, svc, j + 1)
            == if svc.methods[j].cli then
               UpTo(done, svc, j) + [Command(svc.path + svc.methods[j].path, svc.methods[j].leaf)]
               else UpTo(done, svc, j)
    ensures InsertAll(EMPTY, UpTo(done, svc, j + 1)) == None ==>
            InsertAll(EMPTY, UpTo(done, svc, |svc.methods|)) == None
  {
    assert svc.methods[..j + 1][..j] == svc.methods[..j];
    assert svc.methods[..|svc.methods|] == svc.methods;
    MethodCommandsGrow(svc.path, svc.methods, j + 1);
    if InsertAll(EMPTY, UpTo(done, svc, j + 1)) == None {
      PrefixStuck(UpTo(done, svc, j + 1), UpTo(done, svc, |svc.methods|));
    }
  }

  /** The inner loop of `buildTree`. */
  method InsertMethods(root: TreeNode, svc: ServiceInfo, ghost done: seq<Command>, ghost at: map<Path, TreeNode>)
    returns (ok: bool, ghost at': map<Path, TreeNode>)
    requires Built(done, root, at)
    modifies at.Values
    ensures if ok then Built(done + MethodCommands(svc.path, svc.methods), root, at')
            else InsertAll(EMPTY, done + MethodCommands(svc.path, svc.methods)) == None
    ensures fresh(at'.Values - at.Values)
  {
    at' := at;
    UpToEnds(done, svc);
    for j := 0 to |svc.methods|
      invariant Built(UpTo(done, svc, j), root, at')
      invariant fresh(at'.Values - at.Values)
    {
      var m := svc.methods[j];
      UpToNext(done, svc, j);
      if m.cli {
        ok, at' := InsertCommand(root, Command(svc.path + m.path, m.leaf), UpTo(done, svc, j), at');
        if !ok {
          return;
        }
      }
    }
    return true, at';
  }

  /** `buildTree`: fails where the source panics, and otherwise leaves the nodes of the tree `Build` computes. If no
      path of an exposed method repeats or extends another, it succeeds and every exposed method is at its service's
      path followed by its own. */
  method BuildTree(services: seq<ServiceInfo>) returns (ok: bool, root: TreeNode, ghost at: map<Path, TreeNode>)
    ensures ok <==> Build(Commands(services)).Some?
    ensures ok ==> Holds(Build(Commands(services)).value, root, at)
    ensures PathsFree(services) ==> ok && exists t :: Holds(t, root, at) && HasMethods(t, services)
    ensures fresh(root)
  {
    if PathsFree(services) {
      FreeMethodsBuild(services);
    }
    root := new TreeNode();
    at := map[[] := root];
    EmptyHolds(root);
    for i := 0 to |services|
      invariant Built(Commands(services[..i]), root, at)
      invariant fresh(at.Values)
    {
      assert services[..i + 1][..i] == services[..i];
      ok, at := InsertMethods(root, services[i], Commands(services[..i]), at);
      if !ok {
        CommandsGrow(services, i + 1);
        PrefixStuck(Commands(services[..i + 1]), Commands(services));
        return;
      }
    }
    assert services[..|services|] == services;
    ok := true;
    at := PruneDeadGroups(root, InsertAll(EMPTY, Commands(services)).value, at);
  }

  lemma EmptyHolds(root: TreeNode)
    requires root.children == Some(map[]) && root.leaf == None
    ensures Holds(EMPTY, root, map[[] := root])
  {
    assert EMPTY.children.Keys == {};
    assert Conforms(EMPTY, map[[] := root], []);
  }

  // ---- nodes determine the tree -----------------------------------------------------------------------------

  lemma {:induction false} PathsAgree(t: Tree, u: Tree, root: TreeNode, at: map<Path, TreeNode>,
                                      bt: map<Path, TreeNode>, p: Path)
    requires Holds(t, root, at) && Holds(u, root, bt)
    ensures p in at <==> p in bt
    ensures p in at ==> at[p] == bt[p] && KindAt(t, p) == KindAt(u, p)
    decreases |p|
  {
    if p == [] {
      assert Conforms(t, at, []) && Conforms(u, bt, []);
    } else {
      var front, k := p[..|p| - 1], p[|p| - 1];
      assert p == front + [k];
      PathsAgree(t, u, root, at, bt, front);
      StepAgrees(t, u, at, bt, front, k);
    }
  }

  lemma StepAgrees(t: Tree, u: Tree, at: map<Path, TreeNode>, bt: map<Path, TreeNode>, p: Path, k: string)
    requires forall q :: (KindAt(t, q).Some? ==> q in at) && (KindAt(u, q).Some? ==> q in bt)
    requires forall q <- at :: Conforms(t, at, q)
    requires forall q <- bt :: Conforms(u, bt, q)
    requires p in at <==> p in bt
    requires p in at ==> at[p] == bt[p] && KindAt(t, p) == KindAt(u, p)
    ensures p + [k] in at <==> p + [k] in bt
    ensures p + [k] in at ==> at[p + [k]] == bt[p + [k]] && KindAt(t, p + [k]) == KindAt(u, p + [k])
  {
    KindAtStep(t, p, k);
    KindAtStep(u, p, k);
    assert p in at ==> Conforms(t, at, p) && Conforms(u, bt, p);
    assert p + [k] in at ==> Conforms(t, at, p + [k]);
    assert p + [k] in bt ==> Conforms(u, bt, p + [k]);
  }

  lemma {:induction false} KindsDetermineTree(t: Tree, u: Tree)
    requires forall p :: KindAt(t, p) == KindAt(u, p)
    ensures t == u
  {
    assert KindAt(t, []) == KindAt(u, []);
    if t.Group? {
      forall k <- t.children
        ensures t.children[k] == u.children[k]
      {
        forall p
          ensures KindAt(t.children[k], p) == KindAt(u.children[k], p)
        {
          KindAtChild(t, k, p);
          KindAtChild(u, k, p);
        }
        KindsDetermineTree(t.children[k], u.children[k]);
      }
      assert t.children == u.children;
    }
  }

  /** The nodes below a root make up at most one tree, so the contracts above fix the outcome. */
  lemma NodesDetermineTree(t: Tree, u: Tree, root: TreeNode, at: map<Path, TreeNode>, bt: map<Path, TreeNode>)
    requires Holds(t, root, at) && Holds(u, root, bt)
    ensures t == u
  {
    forall p
      ensures KindAt(t, p) == KindAt(u, p)
    {
      PathsAgree(t, u, root, at, bt, p);
    }
    KindsDetermineTree(t, u);
  }
}
