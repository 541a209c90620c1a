/** Expansion trees: merging, and the conversions between dotted strings and trees. */
module Trees {
  import opened ByteText

  /** Everything an expansion node holds beside its name and children. */
  datatype Settings = Settings(
    nodeType: Option<string>, source: string, destination: string,
    service: string, action: string, requestField: string, responseField: string, raises: bool)

  /** A node and its children in insertion order; `kids` stands for the `_expansions` dict, keyed by name. */
  datatype Node = Node(name: string, settings: Settings, kids: seq<Node>)

  datatype Tree = Tree(nodeType: string, kids: seq<Node>)

  function FindKid(kids: seq<Node>, name: string): (i: nat)
    ensures i <= |kids| && (i < |kids| ==> kids[i].name == name)
    ensures forall k :: 0 <= k < i ==> kids[k].name != name
  {
    if kids == [] || kids[0].name == name then 0 else 1 + FindKid(kids[1..], name)
  }

  predicate HasKid(kids: seq<Node>, name: string) { FindKid(kids, name) < |kids| }

  predicate Distinct(kids: seq<Node>) { forall i, j :: 0 <= i < j < |kids| ==> kids[i].name != kids[j].name }

  /** Children of every node have different names, as the keys of a dict do. */
  predicate WellFormed(kids: seq<Node>)
    decreases kids
  {
    Distinct(kids) && forall x :: x in kids ==> WellFormed(x.kids)
  }

  type Names = seq<string>

  /** The settings of the node at a path, if there is one. */
  function SettingsAt(kids: seq<Node>, p: Names): Option<Settings>
    decreases |p|
  {
    if p == [] || !HasKid(kids, p[0]) then None
    else
      var x := kids[FindKid(kids, p[0])];
      if |p| == 1 then Some(x.settings) else SettingsAt(x.kids, p[1..])
  }

  predicate HasPath(kids: seq<Node>, p: Names) { SettingsAt(kids, p).Some? }

  function Either<T>(a: Option<T>, b: Option<T>): Option<T> { if a.Some? then a else b }

  // ------------------------------------------------------------------ add_expansion

  /** `add_expansion`: merge into the child of that name, or append. */
  function Add(kids: seq<Node>, x: Node): seq<Node>
    decreases x
  {
    var i := FindKid(kids, x.name);
    if i < |kids| then kids[i := kids[i].(kids := AddAll(kids[i].kids, x.kids))] else kids + [x]
  }

  function AddAll(kids: seq<Node>, xs: seq<Node>): seq<Node>
    decreases xs
  {
    if xs == [] then kids else AddAll(Add(kids, xs[0]), xs[1..])
  }

  lemma FindKidIs(kids: seq<Node>, name: string, i: nat)
    requires i <= |kids| && (i < |kids| ==> kids[i].name == name)
    requires forall k :: 0 <= k < i ==> kids[k].name != name
    ensures FindKid(kids, name) == i
  {
  }

  lemma FindKidAfterAdd(kids: seq<Node>, x: Node, name: string)
    ensures
      var i := FindKid(kids, name);
      FindKid(Add(kids, x), name) == if i < |kids| || name == x.name || HasKid(kids, x.name) then i else i + 1
  {
    var i := FindKid(kids, name);
    FindKidIs(Add(kids, x), name, if i < |kids| || name == x.name || HasKid(kids, x.name) then i else i + 1);
  }

  /** The merge is the union of the two trees, path by path, and paths already present keep their settings. */
  lemma {:induction false} AddIsUnion(kids: seq<Node>, x: Node, p: Names)
    requires WellFormed(x.kids)
    ensures SettingsAt(Add(kids, x), p) == Either(SettingsAt(kids, p), SettingsAt([x], p))
    decreases x
  {
    if p != [] {
      FindKidAfterAdd(kids, x, p[0]);
      FindKidIs([x], p[0], if x.name == p[0] then 0 else 1);
      var i := FindKid(kids, x.name);
      if i < |kids| && p[0] == x.name && |p| > 1 {
        AddAllIsUnion(kids[i].kids, x.kids, p[1..]);
      }
    }
  }

  lemma {:induction false} AddAllIsUnion(kids: seq<Node>, xs: seq<Node>, p: Names)
    requires WellFormed(xs)
    ensures SettingsAt(AddAll(kids, xs), p) == Either(SettingsAt(kids, p), SettingsAt(xs, p))
    decreases xs
  {
    if xs == [] {
    } else {
      assert xs[0] in xs;
      AddIsUnion(kids, xs[0], p);
      AddAllIsUnion(Add(kids, xs[0]), xs[1..], p);
      HeadAndRest(xs, p);
    }
  }

  lemma HeadAndRest(xs: seq<Node>, p: Names)
    requires xs != [] && Distinct(xs)
    ensures SettingsAt(xs, p) == Either(SettingsAt([xs[0]], p), SettingsAt(xs[1..], p))
  {
    if p != [] {
      FindKidIs([xs[0]], p[0], if xs[0].name == p[0] then 0 else 1);
      if xs[0].name == p[0] {
        FindKidIs(xs, p[0], 0);
        FindKidIs(xs[1..], p[0], |xs| - 1);
      }
    }
  }

  lemma {:induction false} AddWellFormed(kids: seq<Node>, x: Node)
    requires WellFormed(kids) && WellFormed(x.kids)
    ensures WellFormed(Add(kids, x))
    decreases x
  {
    var i := FindKid(kids, x.name);
    if i < |kids| {
      assert kids[i] in kids;
      AddAllWellFormed(kids[i].kids, x.kids);
    }
  }

  lemma {:induction false} AddAllWellFormed(kids: seq<Node>, xs: seq<Node>)
    requires WellFormed(kids) && WellFormed(xs)
    ensures WellFormed(AddAll(kids, xs))
    decreases xs
  {
    if xs != [] {
      assert xs[0] in xs;
      AddWellFormed(kids, xs[0]);
      AddAllWellFormed(Add(kids, xs[0]), xs[1..]);
    }
  }

  /** Every node of `x` has its counterpart among the children. */
  predicate Covers(kids: seq<Node>, x: Node)
    decreases x
  {
    HasKid(kids, x.name) && forall y :: y in x.kids ==> Covers(kids[FindKid(kids, x.name)].kids, y)
  }

  lemma CoveredIsThere(kids: seq<Node>, x: Node)
    ensures Covers(kids, x) ==> HasKid(kids, x.name)
  {
  }

  predicate CoversAll(kids: seq<Node>, xs: seq<Node>) { forall y :: y in xs ==> Covers(kids, y) }

  lemma CoversAt(kids: seq<Node>, xs: seq<Node>, k: nat)
    requires CoversAll(kids, xs) && k < |xs|
    ensures Covers(kids, xs[k])
  {
  }

  lemma CoversKids(kids: seq<Node>, x: Node)
    requires Covers(kids, x)
    ensures HasKid(kids, x.name) && CoversAll(kids[FindKid(kids, x.name)].kids, x.kids)
  {
  }

  lemma {:induction false} PathsCover(kids: seq<Node>, x: Node)
    requires WellFormed(x.kids) && forall p :: HasPath([x], p) ==> HasPath(kids, p)
    ensures Covers(kids, x)
    decreases x
  {
    assert HasPath([x], [x.name]);
    assert HasPath(kids, [x.name]);
    var e := kids[FindKid(kids, x.name)];
    forall y | y in x.kids ensures Covers(e.kids, y) {
      forall p | HasPath([y], p) ensures HasPath(e.kids, p) {
        var i :| 0 <= i < |x.kids| && x.kids[i] == y;
        FindKidIs(x.kids, y.name, i);
        FindKidIs([y], p[0], 0);
        assert ([x.name] + p)[1..] == p;
        assert HasPath([x], [x.name] + p);
      }
      PathsCover(e.kids, y);
    }
  }

  /** Merging what has its counterparts leaves the tree as it was. */
  lemma {:induction false} AddCovered(kids: seq<Node>, x: Node)
    requires Covers(kids, x)
    ensures Add(kids, x) == kids
    decreases x
  {
    AddAllCovered(kids[FindKid(kids, x.name)].kids, x.kids);
  }

  lemma {:induction false} AddAllCovered(kids: seq<Node>, xs: seq<Node>)
    requires CoversAll(kids, xs)
    ensures AddAll(kids, xs) == kids
    decreases xs
  {
    if xs != [] {
      AddCovered(kids, xs[0]);
      AddAllCovered(kids, xs[1..]);
    }
  }

  /** After a merge the merged node has all its counterparts. */
  lemma AddCovers(kids: seq<Node>, x: Node)
    requires WellFormed(x.kids)
    ensures Covers(Add(kids, x), x)
  {
    forall p | HasPath([x], p) ensures HasPath(Add(kids, x), p) { AddIsUnion(kids, x, p); }
    PathsCover(Add(kids, x), x);
  }

  /** So merging the same node again changes nothing. */
  lemma AddIdempotent(kids: seq<Node>, x: Node)
    requires WellFormed(x.kids)
    ensures Add(Add(kids, x), x) == Add(kids, x)
  {
    AddCovers(kids, x);
    AddCovered(Add(kids, x), x);
  }
}
