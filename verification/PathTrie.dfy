/** Archive entry names: an index of (parent, case-folded component) nodes that grows name by
    name, against a pairwise condition on all names. A byte of the source is a char here. */
module PathTrie {
  import opened Options

  datatype NameError = LimitExceeded | UnsafeEntryName

  datatype Limits = Limits(maxPathBytes: nat, maxPathComponents: nat)

  // ----- names -----

  function FoldChar(c: char): char
  {
    if 'A' <= c <= 'Z' then (c as int + 32) as char else c
  }

  function Fold(s: string): (r: string)
    ensures |r| == |s| && forall i | 0 <= i < |s| :: r[i] == FoldChar(s[i])
  {
    seq(|s|, i requires 0 <= i < |s| => FoldChar(s[i]))
  }

  function FoldAll(parts: seq<string>): (r: seq<string>)
    ensures |r| == |parts| && forall i | 0 <= i < |parts| :: r[i] == Fold(parts[i])
  {
    seq(|parts|, i requires 0 <= i < |parts| => Fold(parts[i]))
  }

  /** A name split at its slashes; a trailing slash marks a directory. */
  datatype Name = Name(parts: seq<string>, directory: bool)

  function TrimSlashes(s: string): string
  {
    if |s| > 0 && s[|s| - 1] == '/' then TrimSlashes(s[..|s| - 1]) else s
  }

  function Split(s: string): (parts: seq<string>)
    ensures |parts| > 0
  {
    if |s| == 0 then [""]
    else
      var before, c := Split(s[..|s| - 1]), s[|s| - 1];
      if c == '/' then before + [""] else before[|before| - 1 := before[|before| - 1] + [c]]
  }

  function Parsed(raw: string): (name: Name)
    ensures |name.parts| > 0
  {
    Name(Split(TrimSlashes(raw)), raw != "" && raw[|raw| - 1] == '/')
  }

  predicate SafeByte(c: char)
  {
    && ' ' <= c < 127 as char
    && c != '\\' && c != ':' && c != '<' && c != '>' && c != '"' && c != '|' && c != '?' && c != '*'
  }

  predicate SafePart(part: string)
  {
    && part != "" && part != "." && part != ".."
    && part[|part| - 1] != '.' && part[|part| - 1] != ' '
  }

  predicate EndsWithTwoSlashes(raw: string)
  {
    |raw| >= 2 && raw[|raw| - 1] == '/' && raw[|raw| - 2] == '/'
  }

  predicate SafeBytes(raw: string)
  {
    raw != "" && forall i | 0 <= i < |raw| :: SafeByte(raw[i])
  }

  /** Everything a name must satisfy on its own. */
  predicate WellFormed(raw: string, limits: Limits)
  {
    && |raw| <= limits.maxPathBytes && SafeBytes(raw)
    && |Parsed(raw).parts| <= limits.maxPathComponents
    && (forall i | 0 <= i < |Parsed(raw).parts| :: SafePart(Parsed(raw).parts[i]))
    && !EndsWithTwoSlashes(raw)
  }

  // ----- the pairwise condition -----

  predicate IsPrefix(a: seq<string>, b: seq<string>)
  {
    |a| < |b| && b[..|a|] == a
  }

  /** No duplicates up to ASCII case, no file above another entry, and shared ancestors
      spelled the same. */
  predicate Compatible(a: Name, b: Name)
  {
    && FoldAll(a.parts) != FoldAll(b.parts)
    && (IsPrefix(FoldAll(a.parts), FoldAll(b.parts)) ==> a.directory)
    && (IsPrefix(FoldAll(b.parts), FoldAll(a.parts)) ==> b.directory)
    && (forall k | 0 < k <= |a.parts| && k <= |b.parts| && FoldAll(a.parts)[..k] == FoldAll(b.parts)[..k] ::
          a.parts[k - 1] == b.parts[k - 1])
  }

  lemma CompatibleSymmetric(a: Name, b: Name)
    ensures Compatible(a, b) <==> Compatible(b, a)
  {
  }

  // ----- the abstract tree: case-folded paths to what is known about them -----

  datatype Node = Node(spelling: string, directory: bool, explicit: bool)

  type Tree = map<seq<string>, Node>

  predicate IsDirectory(name: Name, k: nat)
  {
    k < |name.parts| || name.directory
  }

  /** The check of the k-th ancestor (the name itself when k is its length). */
  predicate PartFits(tree: Tree, name: Name, k: nat)
    requires 0 < k <= |name.parts|
  {
    var q := FoldAll(name.parts)[..k];
    q in tree ==>
      && tree[q].spelling == name.parts[k - 1]
      && tree[q].directory == IsDirectory(name, k)
      && !(k == |name.parts| && tree[q].explicit)
  }

  function Grown(tree: Tree, name: Name, k: nat): Tree
    requires k <= |name.parts|
  {
    if k == 0 then tree
    else
      var before, q := Grown(tree, name, k - 1), FoldAll(name.parts)[..k];
      before[q := Node(
        if q in before then before[q].spelling else name.parts[k - 1],
        if q in before then before[q].directory else IsDirectory(name, k),
        (q in before && before[q].explicit) || k == |name.parts|)]
  }

  lemma {:induction false} GrownAt(tree: Tree, name: Name, k: nat, q: seq<string>)
    requires k <= |name.parts|
    ensures q in Grown(tree, name, k) <==> q in tree || (0 < |q| <= k && q == FoldAll(name.parts)[..|q|])
    ensures q in tree && !(0 < |q| <= k && q == FoldAll(name.parts)[..|q|]) ==> Grown(tree, name, k)[q] == tree[q]
    ensures 0 < |q| <= k && q == FoldAll(name.parts)[..|q|] ==>
      Grown(tree, name, k)[q] == Node(
        if q in tree then tree[q].spelling else name.parts[|q| - 1],
        if q in tree then tree[q].directory else IsDirectory(name, |q|),
        (q in tree && tree[q].explicit) || |q| == |name.parts|)
  {
    if k > 0 {
      GrownAt(tree, name, k - 1, q);
      GrownAt(tree, name, k - 1, FoldAll(name.parts)[..k]);
    }
  }

  /** The tree says exactly what the names say. */
  ghost predicate Represents(tree: Tree, names: seq<Name>)
  {
    && (forall i: nat, k: nat | i < |names| && 0 < k <= |names[i].parts| :: Claimed(tree, names[i], k))
    && (forall q: seq<string> | q in tree ::
          && (exists i: nat :: i < |names| && Reaches(names[i], q))
          && (tree[q].explicit <==> exists i: nat :: i < |names| && FoldAll(names[i].parts) == q))
  }

  predicate Claimed(tree: Tree, name: Name, k: nat)
    requires 0 < k <= |name.parts|
  {
    var q := FoldAll(name.parts)[..k];
    q in tree && tree[q].spelling == name.parts[k - 1] && tree[q].directory == IsDirectory(name, k)
  }

  predicate Reaches(name: Name, q: seq<string>)
  {
    0 < |q| <= |name.parts| && FoldAll(name.parts)[..|q|] == q
  }

  /** Two names agree about their shared ancestor of length k. */
  predicate AgreeAt(a: Name, b: Name, k: nat)
    requires 0 < k <= |a.parts| && k <= |b.parts|
  {
    FoldAll(a.parts)[..k] == FoldAll(b.parts)[..k] ==>
      && a.parts[k - 1] == b.parts[k - 1] && IsDirectory(a, k) == IsDirectory(b, k)
      && !(k == |a.parts| && k == |b.parts|)
  }

  lemma CompatibleIffAgree(a: Name, b: Name)
    requires |a.parts| > 0 && |b.parts| > 0
    ensures Compatible(a, b) <==> forall k: nat | 0 < k <= |a.parts| && k <= |b.parts| :: AgreeAt(a, b, k)
  {
    var x, y := FoldAll(a.parts), FoldAll(b.parts);
    assert x[..|x|] == x && y[..|y|] == y;
    if forall k: nat | 0 < k <= |a.parts| && k <= |b.parts| :: AgreeAt(a, b, k) {
      if |x| <= |y| { assert AgreeAt(a, b, |x|); }
      if |y| <= |x| { assert AgreeAt(a, b, |y|); }
      forall k | 0 < k <= |a.parts| && k <= |b.parts| && x[..k] == y[..k] ensures a.parts[k - 1] == b.parts[k - 1] {
        assert AgreeAt(a, b, k);
      }
    }
    if Compatible(a, b) {
      forall k: nat | 0 < k <= |a.parts| && k <= |b.parts| ensures AgreeAt(a, b, k) { }
    }
  }

  lemma PartFitsMeans(tree: Tree, names: seq<Name>, name: Name, k: nat)
    requires Represents(tree, names) && 0 < k <= |name.parts|
    ensures PartFits(tree, name, k)
       <==> forall i: nat | i < |names| && k <= |names[i].parts| :: AgreeAt(names[i], name, k)
  {
    var q := FoldAll(name.parts)[..k];
    if PartFits(tree, name, k) {
      forall i: nat | i < |names| && k <= |names[i].parts| ensures AgreeAt(names[i], name, k) {
        assert Claimed(tree, names[i], k);
        assert FoldAll(names[i].parts)[..|names[i].parts|] == FoldAll(names[i].parts);
      }
    }
    if q in tree && forall i: nat | i < |names| && k <= |names[i].parts| :: AgreeAt(names[i], name, k) {
      var i: nat :| i < |names| && Reaches(names[i], q);
      assert AgreeAt(names[i], name, k) && Claimed(tree, names[i], k);
      if tree[q].explicit {
        var j: nat :| j < |names| && FoldAll(names[j].parts) == q;
        assert AgreeAt(names[j], name, k);
        assert FoldAll(names[j].parts)[..k] == q;
      }
    }
  }

  predicate AllFit(tree: Tree, name: Name)
  {
    forall k: nat | 0 < k <= |name.parts| :: PartFits(tree, name, k)
  }

  lemma GrownClaims(tree: Tree, names: seq<Name>, name: Name, i: nat, k: nat)
    requires Represents(tree, names) && AllFit(tree, name)
    requires i <= |names| && 0 < k <= |(names + [name])[i].parts|
    ensures Claimed(Grown(tree, name, |name.parts|), (names + [name])[i], k)
  {
    hide Grown;
    var n := (names + [name])[i];
    var q := FoldAll(n.parts)[..k];
    GrownAt(tree, name, |name.parts|, q);
    if i < |names| {
      assert n == names[i] && Claimed(tree, names[i], k);
    }
    if |q| <= |name.parts| { assert PartFits(tree, name, k); }
  }

  lemma GrownNodes(tree: Tree, names: seq<Name>, name: Name, q: seq<string>)
    requires Represents(tree, names) && AllFit(tree, name)
    requires q in Grown(tree, name, |name.parts|)
    ensures exists i: nat :: i < |names + [name]| && Reaches((names + [name])[i], q)
    ensures Grown(tree, name, |name.parts|)[q].explicit
       <==> exists i: nat :: i < |names + [name]| && FoldAll((names + [name])[i].parts) == q
  {
    hide Grown;
    var after, all := Grown(tree, name, |name.parts|), names + [name];
    GrownAt(tree, name, |name.parts|, q);
    assert all[|names|] == name;
    assert forall i | 0 <= i < |names| :: all[i] == names[i];
    if q in tree {
      var i: nat :| i < |names| && Reaches(names[i], q);
      assert Reaches(all[i], q);
    } else {
      assert Reaches(all[|names|], q);
    }
    assert FoldAll(name.parts)[..|name.parts|] == FoldAll(name.parts);
    if i: nat :| i < |names| && FoldAll(names[i].parts) == q {
      assert FoldAll(all[i].parts) == q;
      if |names[i].parts| > 0 {
        assert Claimed(tree, names[i], |names[i].parts|);
        assert FoldAll(names[i].parts)[..|names[i].parts|] == q;
      }
    }
  }

  /** Adding a fitting name keeps the tree exact. */
  lemma GrownRepresents(tree: Tree, names: seq<Name>, name: Name)
    requires Represents(tree, names) && AllFit(tree, name)
    ensures Represents(Grown(tree, name, |name.parts|), names + [name])
  {
    hide Grown, AllFit, Claimed;
    var after, all := Grown(tree, name, |name.parts|), names + [name];
    forall i: nat, k: nat | i < |all| && 0 < k <= |all[i].parts| ensures Claimed(after, all[i], k) {
      GrownClaims(tree, names, name, i, k);
    }
    forall q: seq<string> | q in after
      ensures exists i: nat :: i < |all| && Reaches(all[i], q)
      ensures after[q].explicit <==> exists i: nat :: i < |all| && FoldAll(all[i].parts) == q
    {
      GrownNodes(tree, names, name, q);
    }
  }

  /** Against a tree that says what the names say, a name fits when it is compatible with all. */
  lemma AllFitMeans(tree: Tree, names: seq<Name>, name: Name)
    requires Represents(tree, names) && |name.parts| > 0
    requires forall i | 0 <= i < |names| :: |names[i].parts| > 0
    ensures AllFit(tree, name) <==> forall i | 0 <= i < |names| :: Compatible(names[i], name)
  {
    hide Compatible, Represents, AgreeAt, PartFits;
    if AllFit(tree, name) {
      forall i | 0 <= i < |names| ensures Compatible(names[i], name) {
        forall k: nat | 0 < k <= |names[i].parts| && k <= |name.parts| ensures AgreeAt(names[i], name, k) {
          assert PartFits(tree, name, k);
          PartFitsMeans(tree, names, name, k);
        }
        CompatibleIffAgree(names[i], name);
      }
    }
    if forall i | 0 <= i < |names| :: Compatible(names[i], name) {
      forall k: nat | 0 < k <= |name.parts| ensures PartFits(tree, name, k) {
        forall i: nat | i < |names| && k <= |names[i].parts| ensures AgreeAt(names[i], name, k) {
          assert Compatible(names[i], name);
          CompatibleIffAgree(names[i], name);
        }
        PartFitsMeans(tree, names, name, k);
      }
    }
  }

  // ----- the index of the source -----

  datatype PathNode = PathNode(id: nat, spelling: string, directory: bool, explicit: bool)

  type Table = map<(nat, string), PathNode>

  /** The table, the tree it stands for, and the correspondence of identifiers and paths. */
  datatype Index = Index(paths: Table, tree: Tree, pathOf: map<nat, seq<string>>, idOf: map<seq<string>, nat>)

  predicate KeyValid(ix: Index, key: (nat, string))
    requires key in ix.paths
  {
    && key.0 in ix.pathOf && ix.paths[key].id in ix.pathOf
    && var q := ix.pathOf[key.0] + [key.1];
    && ix.pathOf[ix.paths[key].id] == q
    && q in ix.tree && ix.tree[q] == Node(ix.paths[key].spelling, ix.paths[key].directory, ix.paths[key].explicit)
  }

  predicate PathValid(ix: Index, q: seq<string>)
  {
    && |q| > 0 && q[..|q| - 1] in ix.idOf && ix.idOf[q[..|q| - 1]] in ix.pathOf
    && ix.pathOf[ix.idOf[q[..|q| - 1]]] == q[..|q| - 1]
    && (ix.idOf[q[..|q| - 1]], q[|q| - 1]) in ix.paths
  }

  predicate IdValid(ix: Index, i: nat)
    requires i in ix.pathOf
  {
    && i <= |ix.paths| && ix.pathOf[i] in ix.idOf && ix.idOf[ix.pathOf[i]] == i
    && (ix.pathOf[i] == [] || ix.pathOf[i] in ix.tree)
  }

  /** Identifiers and paths correspond, and the table holds exactly the nodes of the tree. */
  ghost predicate ValidIndex(ix: Index)
  {
    && 0 in ix.pathOf && ix.pathOf[0] == []
    && (forall i | i in ix.pathOf :: IdValid(ix, i))
    && (forall key | key in ix.paths :: KeyValid(ix, key))
    && (forall q | q in ix.tree :: PathValid(ix, q))
  }

  lemma KeyOfPath(ix: Index, parent: nat, part: string)
    requires ValidIndex(ix) && parent in ix.pathOf
    ensures (parent, part) in ix.paths <==> ix.pathOf[parent] + [part] in ix.tree
    ensures (parent, part) in ix.paths ==> KeyValid(ix, (parent, part))
  {
    var q := ix.pathOf[parent] + [part];
    if q in ix.tree {
      assert PathValid(ix, q);
      assert q[..|q| - 1] == ix.pathOf[parent];
      assert IdValid(ix, parent);
    }
  }

  function Marked(ix: Index, key: (nat, string), explicit: bool): Index
    requires key in ix.paths && key.0 in ix.pathOf
  {
    var node := ix.paths[key].(explicit := explicit);
    ix.(paths := ix.paths[key := node],
        tree := ix.tree[ix.pathOf[key.0] + [key.1] := Node(node.spelling, node.directory, explicit)])
  }

  lemma MarkedKey(ix: Index, key: (nat, string), explicit: bool, k: (nat, string))
    requires ValidIndex(ix) && key in ix.paths && key.0 in ix.pathOf && k in ix.paths
    ensures KeyValid(Marked(ix, key, explicit), k)
  {
    hide PathValid, IdValid;
    assert KeyValid(ix, k) && KeyValid(ix, key);
    if k != key { SameKey(ix, k, key); }
  }

  lemma MarkedSize(ix: Index, key: (nat, string), explicit: bool)
    requires key in ix.paths && key.0 in ix.pathOf
    ensures Marked(ix, key, explicit).paths.Keys == ix.paths.Keys
    ensures |Marked(ix, key, explicit).paths| == |ix.paths|
  {
    assert Marked(ix, key, explicit).paths.Keys == ix.paths.Keys;
  }

  lemma MarkedValid(ix: Index, key: (nat, string), explicit: bool)
    requires ValidIndex(ix) && key in ix.paths && key.0 in ix.pathOf
    ensures ValidIndex(Marked(ix, key, explicit))
  {
    hide KeyValid;
    var after := Marked(ix, key, explicit);
    MarkedSize(ix, key, explicit);
    forall i | i in after.pathOf ensures IdValid(after, i) { assert IdValid(ix, i); }
    forall k | k in after.paths ensures KeyValid(after, k) { MarkedKey(ix, key, explicit, k); }
    forall q | q in after.tree ensures PathValid(after, q) {
      assert PathValid(ix, q) by { MarkedTree(ix, key, q); }
    }
  }

  lemma MarkedTree(ix: Index, key: (nat, string), q: seq<string>)
    requires ValidIndex(ix) && key in ix.paths && key.0 in ix.pathOf
    ensures q in ix.tree || q == ix.pathOf[key.0] + [key.1] ==> PathValid(ix, q)
  {
    assert KeyValid(ix, key);
  }

  lemma SameKey(ix: Index, a: (nat, string), b: (nat, string))
    requires ValidIndex(ix) && a.0 in ix.pathOf && b.0 in ix.pathOf
    ensures ix.pathOf[a.0] + [a.1] == ix.pathOf[b.0] + [b.1] ==> a == b
  {
    if ix.pathOf[a.0] + [a.1] == ix.pathOf[b.0] + [b.1] {
      LastSplit(ix.pathOf[a.0], a.1, ix.pathOf[b.0], b.1);
      assert IdValid(ix, a.0) && IdValid(ix, b.0);
    }
  }

  function Inserted(ix: Index, key: (nat, string), node: Node): Index
    requires key.0 in ix.pathOf
  {
    var q, id := ix.pathOf[key.0] + [key.1], |ix.paths| + 1;
    Index(ix.paths[key := PathNode(id, node.spelling, node.directory, node.explicit)], ix.tree[q := node],
      ix.pathOf[id := q], ix.idOf[q := id])
  }

  lemma InsertedFresh(ix: Index, key: (nat, string), node: Node)
    requires ValidIndex(ix) && key.0 in ix.pathOf && key !in ix.paths
    ensures var q, id := ix.pathOf[key.0] + [key.1], |ix.paths| + 1;
      && id !in ix.pathOf && q !in ix.tree && (forall i | i in ix.pathOf :: ix.pathOf[i] != q)
      && |Inserted(ix, key, node).paths| == id
  {
    var q, id := ix.pathOf[key.0] + [key.1], |ix.paths| + 1;
    KeyOfPath(ix, key.0, key.1);
    assert id in ix.pathOf ==> IdValid(ix, id);
    forall i | i in ix.pathOf ensures ix.pathOf[i] != q { assert IdValid(ix, i); }
  }

  lemma InsertedId(ix: Index, key: (nat, string), node: Node, i: nat)
    requires ValidIndex(ix) && key.0 in ix.pathOf && key !in ix.paths
    requires i in Inserted(ix, key, node).pathOf
    ensures IdValid(Inserted(ix, key, node), i)
  {
    InsertedFresh(ix, key, node);
    if i in ix.pathOf { assert IdValid(ix, i); }
  }

  lemma InsertedKey(ix: Index, key: (nat, string), node: Node, k: (nat, string))
    requires ValidIndex(ix) && key.0 in ix.pathOf && key !in ix.paths
    requires k in Inserted(ix, key, node).paths
    ensures KeyValid(Inserted(ix, key, node), k)
  {
    hide PathValid;
    InsertedFresh(ix, key, node);
    assert IdValid(ix, key.0);
    if k != key { assert KeyValid(ix, k); }
  }

  lemma InsertedPath(ix: Index, key: (nat, string), node: Node, r: seq<string>)
    requires ValidIndex(ix) && key.0 in ix.pathOf && key !in ix.paths
    requires r in Inserted(ix, key, node).tree
    ensures PathValid(Inserted(ix, key, node), r)
  {
    hide KeyValid, PathValid;
    InsertedFresh(ix, key, node);
    assert IdValid(ix, key.0);
    if r in ix.tree {
      assert PathValid(ix, r);
      InsertedOldPath(ix, key, node, r);
    } else {
      InsertedNewPath(ix, key, node);
    }
  }

  lemma InsertedOldPath(ix: Index, key: (nat, string), node: Node, r: seq<string>)
    requires key.0 in ix.pathOf && |ix.paths| + 1 !in ix.pathOf && PathValid(ix, r)
    requires forall i | i in ix.pathOf :: ix.pathOf[i] != ix.pathOf[key.0] + [key.1]
    ensures PathValid(Inserted(ix, key, node), r)
  {
  }

  lemma InsertedNewPath(ix: Index, key: (nat, string), node: Node)
    requires key.0 in ix.pathOf && |ix.paths| + 1 !in ix.pathOf
    requires ix.pathOf[key.0] in ix.idOf && ix.idOf[ix.pathOf[key.0]] == key.0
    ensures PathValid(Inserted(ix, key, node), ix.pathOf[key.0] + [key.1])
  {
    var q := ix.pathOf[key.0] + [key.1];
    assert q[..|q| - 1] == ix.pathOf[key.0] != q;
  }

  lemma InsertedValid(ix: Index, key: (nat, string), node: Node)
    requires ValidIndex(ix) && key.0 in ix.pathOf && key !in ix.paths
    ensures ValidIndex(Inserted(ix, key, node))
  {
    hide KeyValid, PathValid, IdValid;
    var after := Inserted(ix, key, node);
    InsertedFresh(ix, key, node);
    forall i | i in after.pathOf ensures IdValid(after, i) { InsertedId(ix, key, node, i); }
    forall k | k in after.paths ensures KeyValid(after, k) { InsertedKey(ix, key, node, k); }
    forall r | r in after.tree ensures PathValid(after, r) { InsertedPath(ix, key, node, r); }
  }

  /** The borrowed index of the source: nodes by (parent, folded component). */
  class PathIndex {
    var paths: Table
    ghost var tree: Tree
    ghost var pathOf: map<nat, seq<string>>
    ghost var idOf: map<seq<string>, nat>

    ghost function View(): Index
      reads this
    {
      Index(paths, tree, pathOf, idOf)
    }

    ghost predicate Valid()
      reads this
    {
      ValidIndex(View())
    }

    constructor ()
      ensures Valid() && tree == map[] && paths == map[]
    {
      paths, tree, pathOf, idOf := map[], map[], map[0 := []], map[[] := 0];
    }

    /** One component: check it against its node, or add the node. */
    method Step(parent: nat, part: string, isDirectory: bool, last: bool) returns (r: Result<nat, NameError>)
      requires Valid() && parent in pathOf
      modifies this
      ensures var q := old(pathOf)[parent] + [Fold(part)];
        && (r.Ok? <==> (q in old(tree) ==>
              old(tree)[q].spelling == part && old(tree)[q].directory == isDirectory
                && !(last && old(tree)[q].explicit)))
        && (r.Ok? ==>
              && Valid() && r.value in pathOf && pathOf[r.value] == q
              && tree == old(tree)[q := Node(part, isDirectory, last || (q in old(tree) && old(tree)[q].explicit))])
      ensures r.Err? ==> r == Err(UnsafeEntryName)
    {
      hide ValidIndex, Fold;
      var key := (parent, Fold(part));
      ghost var q := pathOf[parent] + [Fold(part)];
      KeyOfPath(View(), parent, Fold(part));
      if key in paths {
        var node := paths[key];
        if node.spelling != part || node.directory != isDirectory || (last && node.explicit) {
          return Err(UnsafeEntryName);
        }
        MarkedValid(View(), key, node.explicit || last);
        paths := paths[key := node.(explicit := node.explicit || last)];
        tree := tree[q := Node(part, isDirectory, node.explicit || last)];
        r := Ok(node.id);
      } else {
        InsertedValid(View(), key, Node(part, isDirectory, last));
        var id := |paths| + 1;
        paths := paths[key := PathNode(id, part, isDirectory, last)];
        tree, pathOf, idOf := tree[q := Node(part, isDirectory, last)], pathOf[id := q], idOf[q := id];
        r := Ok(id);
      }
    }

    /** The source's `validate_name` on the shared index. */
    method ValidateName(raw: string, limits: Limits) returns (r: Result<Name, NameError>)
      requires Valid()
      modifies this
      ensures r.Ok? <==> WellFormed(raw, limits) && AllFit(old(tree), Parsed(raw))
      ensures r.Ok? ==> r.value == Parsed(raw) && Valid() && tree == Grown(old(tree), Parsed(raw), |Parsed(raw).parts|)
      ensures r == Err(LimitExceeded) <==>
        |raw| > limits.maxPathBytes || (SafeBytes(raw) && |Parsed(raw).parts| > limits.maxPathComponents)
    {
      hide ValidIndex, Split, TrimSlashes, PartFits, Grown, SafePart, SafeBytes;
      if |raw| > limits.maxPathBytes {
        return Err(LimitExceeded);
      }
      if !SafeBytes(raw) {
        return Err(UnsafeEntryName);
      }
      var name := Parsed(raw);
      var count := |name.parts|;
      if count > limits.maxPathComponents {
        return Err(LimitExceeded);
      }
      var parent := 0;
      assert Valid() ==> 0 in pathOf && pathOf[0] == [] by { RootValid(View()); }
      GrownNone(tree, name);
      for index := 0 to count
        invariant Valid() && parent in pathOf && pathOf[parent] == FoldAll(name.parts)[..index]
        invariant tree == Grown(old(tree), name, index)
        invariant forall k | 0 <= k < index :: SafePart(name.parts[k])
        invariant forall k: nat | 0 < k <= index :: PartFits(old(tree), name, k)
      {
        var part := name.parts[index];
        if !SafePart(part) {
          return Err(UnsafeEntryName);
        }
        var last := index + 1 == count;
        StepFits(old(tree), name, index);
        assert pathOf[parent] + [Fold(part)] == FoldAll(name.parts)[..index + 1];
        var child := Step(parent, part, !last || name.directory, last);
        if child.Err? {
          return Err(child.error);
        }
        parent := child.value;
      }
      if EndsWithTwoSlashes(raw) {
        return Err(UnsafeEntryName);
      }
      return Ok(name);
    }
  }

  lemma RootValid(ix: Index)
    requires ValidIndex(ix)
    ensures 0 in ix.pathOf && ix.pathOf[0] == []
  {
  }

  lemma GrownNone(tree: Tree, name: Name)
    ensures Grown(tree, name, 0) == tree
  {
  }

  /** Earlier components of a name do not change the check of the next one. */
  lemma StepFits(tree: Tree, name: Name, index: nat)
    requires index < |name.parts|
    ensures var before, q, part := Grown(tree, name, index), FoldAll(name.parts)[..index + 1], name.parts[index];
      var last := index + 1 == |name.parts|;
      && (PartFits(tree, name, index + 1) <==> (q in before ==>
            before[q].spelling == part && before[q].directory == (!last || name.directory)
              && !(last && before[q].explicit)))
      && (PartFits(tree, name, index + 1) ==>
            Grown(tree, name, index + 1)
            == before[q := Node(part, !last || name.directory, last || (q in before && before[q].explicit))])
  {
    GrownAt(tree, name, index, FoldAll(name.parts)[..index + 1]);
  }

  // ----- lists of names -----

  /** Every name well formed, and every two of them compatible. */
  predicate Acceptable(raws: seq<string>, limits: Limits)
  {
    && (forall i | 0 <= i < |raws| :: WellFormed(raws[i], limits))
    && (forall i, j | 0 <= i < j < |raws| :: Compatible(Parsed(raws[i]), Parsed(raws[j])))
  }

  function ParsedAll(raws: seq<string>): (names: seq<Name>)
    ensures |names| == |raws| && forall i | 0 <= i < |raws| :: names[i] == Parsed(raws[i])
  {
    seq(|raws|, i requires 0 <= i < |raws| => Parsed(raws[i]))
  }

  /** The names of a directory in order, through one shared index, up to the first error. */
  method ValidateAll(raws: seq<string>, limits: Limits) returns (accepted: bool)
    ensures accepted <==> Acceptable(raws, limits)
  {
    hide WellFormed, Compatible, Represents, ValidIndex, Grown, AllFit, Split, TrimSlashes;
    var index := new PathIndex();
    RepresentsNone();
    for i := 0 to |raws|
      invariant fresh(index) && index.Valid()
      invariant Represents(index.tree, ParsedAll(raws[..i]))
      invariant Acceptable(raws[..i], limits)
    {
      var names, name := ParsedAll(raws[..i]), Parsed(raws[i]);
      AllFitMeans(index.tree, names, name);
      var tree := index.tree;
      var r := index.ValidateName(raws[i], limits);
      AcceptableSnoc(raws, i, limits);
      if r.Err? {
        AcceptablePrefix(raws, i + 1, limits);
        return false;
      }
      GrownRepresents(tree, names, name);
      assert ParsedAll(raws[..i + 1]) == names + [name];
    }
    assert raws[..|raws|] == raws;
    return true;
  }

  lemma RepresentsNone()
    ensures Represents(map[], ParsedAll([]))
  {
  }

  lemma AcceptablePrefix(raws: seq<string>, k: nat, limits: Limits)
    requires k <= |raws|
    ensures Acceptable(raws, limits) ==> Acceptable(raws[..k], limits)
  {
  }

  lemma AcceptableSnoc(raws: seq<string>, i: nat, limits: Limits)
    requires i < |raws| && Acceptable(raws[..i], limits)
    ensures Acceptable(raws[..i + 1], limits) <==>
      WellFormed(raws[i], limits) && forall k | 0 <= k < i :: Compatible(ParsedAll(raws[..i])[k], Parsed(raws[i]))
  {
    hide WellFormed, Compatible, Split, TrimSlashes;
    var front, more := raws[..i], raws[..i + 1];
    assert forall k | 0 <= k < i :: more[k] == front[k];
    if Acceptable(more, limits) {
      assert more[i] == raws[i];
      forall k | 0 <= k < i ensures Compatible(ParsedAll(front)[k], Parsed(raws[i])) {
        assert Compatible(Parsed(more[k]), Parsed(more[i]));
      }
    }
    if WellFormed(raws[i], limits) && forall k | 0 <= k < i :: Compatible(ParsedAll(front)[k], Parsed(raws[i])) {
      forall j, k | 0 <= j < k < |more| ensures Compatible(Parsed(more[j]), Parsed(more[k])) {
        assert more[j] == front[j];
        if k == i { assert Compatible(ParsedAll(front)[j], Parsed(raws[i])); } else { assert more[k] == front[k]; }
      }
      forall k | 0 <= k < |more| ensures WellFormed(more[k], limits) {
        if k < i { assert more[k] == front[k]; }
      }
    }
  }

  /** Acceptance does not depend on the order of the entries. */
  lemma OrderDoesNotMatter(a: seq<string>, b: seq<string>, limits: Limits)
    requires multiset(a) == multiset(b) && Acceptable(a, limits)
    ensures Acceptable(b, limits)
  {
    hide WellFormed, Compatible, Split, TrimSlashes;
    forall i | 0 <= i < |b| ensures WellFormed(b[i], limits) {
      assert b[i] in multiset(a);
    }
    forall i, j | 0 <= i < j < |b| ensures Compatible(Parsed(b[i]), Parsed(b[j])) {
      assert b[i] in multiset(a) && b[j] in multiset(a);
      if b[i] == b[j] {
        Twice(b, i, j);
        var k, l := FindTwice(a, b[i]);
        assert Compatible(Parsed(a[k]), Parsed(a[l]));
      } else {
        var k :| 0 <= k < |a| && a[k] == b[i];
        var l :| 0 <= l < |a| && a[l] == b[j];
        CompatibleSymmetric(Parsed(a[k]), Parsed(a[l]));
      }
    }
  }

  // ----- letter case -----

  /** The texts differ at most in the case of ASCII letters. */
  predicate CaseOnly(a: string, b: string)
  {
    |a| == |b| && forall i :: 0 <= i < |a| ==> SameLetter(a[i], b[i])
  }

  predicate SameLetter(a: char, b: char)
  {
    a == b || ('a' <= a <= 'z' && b as int == a as int - 32) || ('a' <= b <= 'z' && a as int == b as int - 32)
  }

  /** Folding identifies exactly the texts that differ only in the case of ASCII letters. */
  lemma FoldMeans(a: string, b: string)
    ensures Fold(a) == Fold(b) <==> CaseOnly(a, b)
  {
    if |a| == |b| {
      forall i | 0 <= i < |a| ensures FoldChar(a[i]) == FoldChar(b[i]) <==> SameLetter(a[i], b[i]) {
        FoldCharMeans(a[i], b[i]);
      }
      if Fold(a) == Fold(b) {
        forall i | 0 <= i < |a| ensures SameLetter(a[i], b[i]) {
          assert Fold(a)[i] == Fold(b)[i];
        }
      }
    } else {
      assert |Fold(a)| != |Fold(b)|;
    }
  }

  lemma FoldCharMeans(a: char, b: char)
    ensures FoldChar(a) == FoldChar(b) <==> SameLetter(a, b)
  {
  }

  lemma {:induction false} TrimKeepsCase(a: string, b: string)
    requires CaseOnly(a, b)
    ensures CaseOnly(TrimSlashes(a), TrimSlashes(b))
  {
    if |a| > 0 && a[|a| - 1] == '/' {
      assert SameLetter(a[|a| - 1], b[|a| - 1]);
      TrimKeepsCase(a[..|a| - 1], b[..|b| - 1]);
    } else if |a| > 0 {
      assert SameLetter(a[|a| - 1], b[|a| - 1]);
    }
  }

  lemma {:induction false} SplitKeepsCase(a: string, b: string)
    requires CaseOnly(a, b)
    ensures |Split(a)| == |Split(b)| && forall k :: 0 <= k < |Split(a)| ==> CaseOnly(Split(a)[k], Split(b)[k])
  {
    if |a| > 0 {
      SplitKeepsCase(a[..|a| - 1], b[..|b| - 1]);
      assert SameLetter(a[|a| - 1], b[|a| - 1]);
    }
  }

  /** Two entries whose names differ only in the case of letters, or not at all, are never accepted together. */
  lemma CaseCollides(raws: seq<string>, i: nat, j: nat, limits: Limits)
    requires i < j < |raws| && CaseOnly(raws[i], raws[j])
    ensures !Acceptable(raws, limits)
  {
    hide Split, TrimSlashes, WellFormed, CaseOnly;
    var a, b := Parsed(raws[i]), Parsed(raws[j]);
    TrimKeepsCase(raws[i], raws[j]);
    SplitKeepsCase(TrimSlashes(raws[i]), TrimSlashes(raws[j]));
    forall k | 0 <= k < |a.parts| ensures FoldAll(a.parts)[k] == FoldAll(b.parts)[k] {
      FoldMeans(a.parts[k], b.parts[k]);
    }
    assert FoldAll(a.parts) == FoldAll(b.parts);
    assert !Compatible(a, b);
  }

  lemma Twice(s: seq<string>, i: nat, j: nat)
    requires i < j < |s| && s[i] == s[j]
    ensures multiset(s)[s[i]] >= 2
  {
    assert s == s[..i] + [s[i]] + s[i + 1..j] + [s[j]] + s[j + 1..];
  }

  lemma {:induction false} FindTwice(s: seq<string>, x: string) returns (i: nat, j: nat)
    requires multiset(s)[x] >= 2
    ensures i < j < |s| && s[i] == x && s[j] == x
  {
    var n := |s| - 1;
    assert s == s[..n] + [s[n]];
    if s[n] == x {
      j := n;
      assert x in multiset(s[..n]);
      i :| 0 <= i < n && s[..n][i] == x;
    } else {
      i, j := FindTwice(s[..n], x);
    }
  }

  lemma LastSplit<T>(a: seq<T>, x: T, b: seq<T>, y: T)
    requires a + [x] == b + [y]
    ensures a == b && x == y
  {
    assert (a + [x])[..|a|] == a && (b + [y])[..|b|] == b;
    assert (a + [x])[|a|] == x && (b + [y])[|b|] == y;
  }
}
