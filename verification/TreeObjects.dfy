/** The expansion nodes as the objects they are: `add_expansion` merges one tree of objects into another in place, and
    `dict_to_trees` grows trees along dotted paths. */
module TreeObjects {
  import opened ByteText
  import opened Trees
  import opened Converter

  class ExpansionNode {
    const name: string
    const settings: Settings
    var kids: seq<ExpansionNode>  // the `_expansions` dict, in insertion order
    ghost var tree: Node          // the tree below this node, as a value
    ghost var Repr: set<ExpansionNode>

    /** A proper tree: no object is reached twice, and the children of a node have different names, as the keys of a
        dict do. */
    ghost predicate Valid()
      reads this, Repr
      decreases Repr
    {
      && this in Repr
      && tree.name == name && tree.settings == settings && |tree.kids| == |kids|
      && (forall k :: 0 <= k < |kids| ==>
            && kids[k] in Repr && kids[k].Repr <= Repr && this !in kids[k].Repr
            && kids[k].Valid() && tree.kids[k] == kids[k].tree)
      && (forall i, j :: 0 <= i < j < |kids| ==> kids[i].Repr !! kids[j].Repr && kids[i].name != kids[j].name)
    }

    constructor (name: string, settings: Settings)
      ensures Valid() && fresh(Repr) && tree == Node(name, settings, [])
    {
      this.name, this.settings, kids, Repr := name, settings, [], {this};
      tree := Node(name, settings, []);
    }

    /** `get_expansion`, as a position. */
    method FindExpansion(name: string) returns (i: nat)
      requires Valid()
      ensures i == FindKid(tree.kids, name)
    {
      i := 0;
      while i < |kids| && kids[i].name != name
        invariant i <= |kids| && forall k :: 0 <= k < i ==> tree.kids[k].name != name
      {
        i := i + 1;
      }
      FindKidIs(tree.kids, name, i);
    }

    /** No object of a set has changed. */
    twostate predicate Same(os: set<ExpansionNode>)
      reads os
    {
      unchanged(os)
    }

    /** All that a merge of a node of this name may change: this node and what is below its child of that name. */
    ghost function Touched(name: string): set<ExpansionNode>
      reads this, Repr
      requires Valid()
    {
      var i := FindKid(tree.kids, name);
      {this} + if i < |kids| then kids[i].Repr else {}
    }

    /** `add_expansion`, which takes the other node's objects over: the tree afterwards is the merge of the two trees.
        The other node is a tree of its own, or all its nodes have counterparts here already; in the second case nothing
        changes, and the two may share objects. Either way the other node is the tree it was, with all its counterparts
        here, so that it can be merged again. */
    method AddExpansion(x: ExpansionNode)
      requires Valid() && x.Valid() && (Repr !! x.Repr || Covers(tree.kids, x.tree))
      modifies Touched(x.name)
      ensures old(Covers(tree.kids, x.tree)) ==> Same(old(Repr) + old(x.Repr))
      ensures Valid() && old(Repr) <= Repr <= old(Repr + x.Repr)
      ensures tree == old(tree).(kids := Add(old(tree).kids, old(x.tree)))
      ensures x.Valid() && x.tree == old(x.tree) && x.Repr == old(x.Repr) && Covers(tree.kids, x.tree)
      ensures kids == if HasKid(old(tree).kids, x.name) then old(kids) else old(kids) + [x]
      ensures forall name :: name != x.name ==> Touched(name) == old(Touched(name))
      decreases x.Repr, 2
    {
      hide Add, AddAll, Covers, FindKid, WellFormed;
      ghost var covered := Covers(tree.kids, x.tree);
      if covered { AddCovered(tree.kids, x.tree); }
      AddCases(tree.kids, x.tree);
      x.NamesDiffer();
      AddCovers(tree.kids, x.tree);
      var i := FindExpansion(x.name);
      if i < |kids| { MergeAt(i, x); } else { CoveredIsThere(tree.kids, x.tree); Append(x); }
      OthersUntouched(x);
    }

    twostate lemma OthersUntouched(x: ExpansionNode)
      requires old(Valid()) && Valid() && tree == old(tree).(kids := Add(old(tree).kids, old(x.tree)))
      requires kids == if HasKid(old(tree).kids, x.name) then old(kids) else old(kids) + [x]
      requires old(x.tree).name == x.name
      requires forall j :: 0 <= j < old(|kids|) && kids[j].name != x.name ==> kids[j].Repr == old(kids[j].Repr)
      ensures forall name :: name != x.name ==> Touched(name) == old(Touched(name))
    {
      hide Add;
      forall name | name != x.name ensures Touched(name) == old(Touched(name)) {
        FindKidAfterAdd(old(tree).kids, old(x.tree), name);
      }
    }

    lemma TouchedIsHere()
      requires Valid()
      ensures forall name :: Touched(name) <= Repr
    {
    }

    /** The tree is one of dicts. */
    lemma NamesDiffer()
      requires Valid()
      ensures WellFormed(tree.kids)
      decreases Repr
    {
      forall y | y in tree.kids ensures WellFormed(y.kids) {
        var k :| 0 <= k < |kids| && tree.kids[k] == y;
        kids[k].NamesDiffer();
      }
      assert forall k :: 0 <= k < |kids| ==> tree.kids[k].name == kids[k].name;
    }

    method Append(x: ExpansionNode)
      requires Valid() && x.Valid() && Repr !! x.Repr && !HasKid(tree.kids, x.name)
      modifies this
      ensures Valid() && Repr == old(Repr) + x.Repr && kids == old(kids) + [x]
      ensures tree == old(tree).(kids := old(tree).kids + [x.tree])
    {
      assert forall k :: 0 <= k < |kids| ==> tree.kids[k].name == kids[k].name;
      kids := kids + [x];
      Repr := Repr + x.Repr;
      tree := tree.(kids := tree.kids + [x.tree]);
    }

    method MergeAt(i: nat, x: ExpansionNode)
      requires Valid() && x.Valid() && (Repr !! x.Repr || Covers(tree.kids, x.tree))
      requires i < |kids| && i == FindKid(tree.kids, x.name)
      modifies this, kids[i].Repr
      ensures old(Covers(tree.kids, x.tree)) ==> Same(old(Repr) + old(x.Repr))
      ensures Valid() && old(Repr) <= Repr <= old(Repr + x.Repr) && kids == old(kids)
      ensures
        var k := old(tree).kids[i];
        tree == old(tree).(kids := old(tree).kids[i := k.(kids := AddAll(k.kids, old(x.tree).kids))])
      decreases x.Repr, 1
    {
      hide AddAll, Covers, CoversAll, FindKid, HasKid;
      var e := kids[i];
      ghost var covered, all := Covers(tree.kids, x.tree), Repr + x.Repr;
      if covered { CoversKids(tree.kids, x.tree); }
      assert forall j :: 0 <= j < |kids| && j != i ==> kids[j].Repr !! e.Repr;
      e.MergeKids(x);
      if covered {
        assert Same(all);
        AddAllCovered(e.tree.kids, old(x.tree).kids);
        assert tree.kids[i := e.tree] == tree.kids;
      } else {
        assert kids == old(kids) && tree == old(tree) && Repr == old(Repr);
        forall j | 0 <= j < |kids| && j != i
          ensures kids[j].Valid() && kids[j].Repr == old(kids[j].Repr) && kids[j].tree == tree.kids[j]
        {
        }
        Repr := Repr + x.Repr;
        tree := tree.(kids := tree.kids[i := e.tree]);
      }
    }

    /** The merge of the children, one by one. */
    method MergeKids(x: ExpansionNode)
      requires Valid() && x.Valid() && (Repr !! x.Repr || CoversAll(tree.kids, x.tree.kids))
      modifies Repr
      ensures old(CoversAll(tree.kids, x.tree.kids)) ==> Same(old(Repr) + old(x.Repr))
      ensures Valid() && old(Repr) <= Repr <= old(Repr + x.Repr)
      ensures tree == old(tree).(kids := AddAll(old(tree).kids, old(x.tree).kids))
      decreases x.Repr, 0
    {
      hide Add, AddAll, Covers, CoversAll, HasKid, Touched;
      TouchedIsHere();
      ghost var xs, base := x.tree.kids, tree;
      ghost var covered := CoversAll(base.kids, xs);
      NoneToAdd(base.kids);
      assert base.(kids := base.kids) == base;
      var k := 0;
      while k < |x.kids|
        invariant k <= |x.kids| && x.kids == old(x.kids)
        invariant Valid() && old(Repr) <= Repr <= old(Repr + x.Repr)
        invariant tree == base.(kids := AddAll(base.kids, xs[..k]))
        invariant covered ==> Same(old(Repr) + old(x.Repr))
        invariant forall j :: k <= j < |x.kids| ==>
                    && x.kids[j].Repr == old(x.kids[j].Repr) && x.kids[j].Valid() && x.kids[j].tree == xs[j]
        invariant !covered ==> x !in Repr && forall j :: k <= j < |x.kids| ==> Repr !! x.kids[j].Repr
        invariant forall j :: k <= j < |xs| ==> Touched(xs[j].name) <= old(Repr)
      {
        AddAllSnoc(base.kids, xs, k);
        if covered { CoversAt(base.kids, xs, k); }
        AddExpansion(x.kids[k]);
        k := k + 1;
      }
      assert xs[..k] == xs;
    }
  }

  // ------------------------------------------------------------------ dict_to_trees

  /** A type node: of its settings, only the type is used. */
  method NewTypeNode(nodeType: string) returns (root: ExpansionNode)
    ensures root.Valid() && fresh(root.Repr)
    ensures root.tree.kids == [] && root.settings.nodeType == Some(nodeType)
  {
    root := new ExpansionNode("", Settings(Some(nodeType), "", "", "", "", "", "", false));
  }

  /** The walk down one dotted path, creating the nodes that are missing. */
  method Walk(c: Config, node: ExpansionNode, path: Names) returns (error: Option<TreeError>)
    requires node.Valid()
    modifies node.Repr
    ensures error.None? ==> node.Valid() && fresh(node.Repr - old(node.Repr))
    ensures error.None? ==> Insert(c, node.settings.nodeType, old(node.tree).kids, path) == Ok(node.tree.kids)
    ensures error.Some? ==> Insert(c, node.settings.nodeType, old(node.tree).kids, path) == Err(error.value)
    decreases |path|, 0
  {
    hide Add;
    if path == [] { return None; }
    var i := node.FindExpansion(path[0]);
    if i < |node.kids| {
      error := WalkKid(c, node, i, path[1..]);
    } else {
      var s := Configure(c, node.settings.nodeType, path[0]);
      if s.Err? { return Some(s.error); }
      var child := new ExpansionNode(path[0], s.value);
      ghost var kids := node.tree.kids;
      node.AddExpansion(child);
      AddCases(kids, Node(path[0], s.value, []));
      error := WalkKid(c, node, i, path[1..]);
      if error.None? {
        AddCases(kids, node.tree.kids[i]);
        assert kids + [node.tree.kids[i]] == node.tree.kids;
      }
    }
  }

  method WalkKid(c: Config, node: ExpansionNode, i: nat, path: Names) returns (error: Option<TreeError>)
    requires node.Valid() && i < |node.kids|
    modifies node.Repr
    ensures error.None? ==> node.Valid() && fresh(node.Repr - old(node.Repr))
    ensures
      var x := old(node.tree).kids[i];
      var sub := Insert(c, x.settings.nodeType, x.kids, path);
      if error.Some? then sub == Err(error.value)
      else sub.Ok? && node.tree == old(node.tree).(kids := old(node.tree).kids[i := x.(kids := sub.value)])
    decreases |path|, 1
  {
    hide Insert;
    var e := node.kids[i];
    assert forall j :: 0 <= j < |node.kids| && j != i ==> node.kids[j].Repr !! e.Repr;
    error := Walk(c, e, path);
    if error.None? {
      node.Repr := node.Repr + e.Repr;
      node.tree := node.tree.(kids := node.tree.kids[i := e.tree]);
    }
  }

  /** The tree for one entry of the dict. */
  method BuildTree(c: Config, q: Request) returns (r: Result<ExpansionNode, TreeError>)
    ensures r.Err? ==> KidsFor(c, q) == Err(r.error)
    ensures r.Ok? ==> r.value.Valid() && fresh(r.value.Repr) && KidsFor(c, q) == Ok(r.value.tree.kids)
    ensures r.Ok? ==> r.value.settings.nodeType == Some(q.nodeType)
  {
    hide Insert;
    var root := NewTypeNode(q.nodeType);
    ghost var paths, t := SplitAll(q.strings), Some(q.nodeType);
    var j := 0;
    while j < |q.strings|
      invariant j <= |q.strings| && root.Valid() && fresh(root.Repr) && root.settings.nodeType == t
      invariant InsertAll(c, t, [], paths) == InsertAll(c, t, root.tree.kids, paths[j..])
    {
      assert paths[j..][0] == Split(q.strings[j]) && paths[j..][1..] == paths[j + 1..];
      var error := Walk(c, root, Split(q.strings[j]));
      if error.Some? { return Err(error.value); }
      j := j + 1;
    }
    return Ok(root);
  }

  /** What type nodes stand for. */
  ghost function AsTrees(roots: seq<ExpansionNode>): (trees: seq<Tree>)
    reads set x | x in roots
    ensures |trees| == |roots|
  {
    seq(|roots|, k requires 0 <= k < |roots| reads set x | x in roots =>
      Tree(roots[k].settings.nodeType.GetOr(""), roots[k].tree.kids))
  }

  /** `dict_to_trees`: the trees for the dict, made of new objects of which no two trees share one, or the error of the
      first entry that has one. */
  method DictToTrees(c: Config, dict: seq<Request>) returns (r: Result<seq<ExpansionNode>, TreeError>)
    ensures r.Ok? ==> Built(c, dict, AsTrees(r.value))
    ensures r.Ok? <==> forall q :: q in dict ==> CanBuild(c, q)
    ensures r.Ok? ==> forall k :: 0 <= k < |r.value| ==> AllAsEntered(c, dict[k].nodeType, r.value[k].tree.kids)
    ensures r.Ok? ==> forall k :: 0 <= k < |r.value| ==>
              r.value[k].Valid() && fresh(r.value[k].Repr) && r.value[k].settings.nodeType.Some?
    ensures r.Ok? ==> forall j, k :: 0 <= j < k < |r.value| ==> r.value[j].Repr !! r.value[k].Repr
    ensures r.Err? ==> exists k :: 0 <= k < |dict| && KidsFor(c, dict[k]) == Err(r.error)
                                   && forall j :: 0 <= j < k ==> KidsFor(c, dict[j]).Ok?
    ensures r.Err? ==> exists k :: 0 <= k < |dict| && FailsOn(c, dict[k], r.error)
                                   && forall j :: 0 <= j < k ==> CanBuild(c, dict[j])
  {
    hide KidsFor, CanBuild, FailsOn, AllAsEntered;
    var trees: seq<ExpansionNode> := [];
    var i := 0;
    while i < |dict|
      invariant i <= |dict| && |trees| == i
      invariant forall k :: 0 <= k < i ==>
                  && trees[k].Valid() && fresh(trees[k].Repr) && KidsFor(c, dict[k]) == Ok(trees[k].tree.kids)
                  && trees[k].settings.nodeType == Some(dict[k].nodeType)
                  && CanBuild(c, dict[k]) && AllAsEntered(c, dict[k].nodeType, trees[k].tree.kids)
      invariant forall j, k :: 0 <= j < k < i ==> trees[j].Repr !! trees[k].Repr
    {
      EntryOutcome(c, dict[i]);
      var tree := BuildTree(c, dict[i]);
      if tree.Err? { return Err(tree.error); }
      trees, i := trees + [tree.value], i + 1;
    }
    return Ok(trees);
  }

  lemma AddCases(kids: seq<Node>, x: Node)
    ensures
      var i := FindKid(kids, x.name);
      Add(kids, x) == if i < |kids| then kids[i := kids[i].(kids := AddAll(kids[i].kids, x.kids))] else kids + [x]
  {
  }

  lemma NoneToAdd(kids: seq<Node>)
    ensures AddAll(kids, [][..0]) == kids
  {
  }

  lemma {:induction false} AddAllSnoc(kids: seq<Node>, xs: seq<Node>, k: nat)
    requires k < |xs|
    ensures AddAll(kids, xs[..k + 1]) == Add(AddAll(kids, xs[..k]), xs[k])
    decreases k
  {
    if k > 0 {
      assert xs[..k + 1][1..] == xs[1..][..k] && xs[..k][1..] == xs[1..][..k - 1];
      AddAllSnoc(Add(kids, xs[0]), xs[1..], k - 1);
    }
  }
}
