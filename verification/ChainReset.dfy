// The private worker that empties an instance's chain and index folders: the whole
// scope is validated first, then exactly the allowlisted subtrees are deleted, and an
// interrupted deletion can always be taken up again.
module ChainReset {
  import opened Common
  import opened Strings
  import opened Decimals

  type Path = seq<string>

  // A file with its number of hard links; a symbolic link or a device is Special.
  datatype Node = Dir | File(links: nat) | Special

  type Tree = map<Path, Node>

  datatype Fault = Refused | Failed | Crashed
  type Status = Result<(), Fault>

  predicate Under(p: Path, q: Path) { |p| <= |q| && q[..|p|] == p }

  function Parent(p: Path): Path
    requires p != []
  {
    p[..|p| - 1]
  }

  predicate IsDir(tree: Tree, p: Path) { p in tree && tree[p].Dir? }

  // Every entry is in a directory; paths are no longer than `depth`.
  ghost predicate WellFormed(tree: Tree, depth: nat) {
    && [] !in tree
    && (forall p :: p in tree ==> |p| <= depth)
    && (forall p :: p in tree && |p| > 1 ==> IsDir(tree, Parent(p)))
  }

  function Names(tree: Tree, p: Path): set<string> {
    set q | q in tree && |q| == |p| + 1 && Under(p, q) :: q[|p|]
  }

  // -------------------------------------------------------------- reviewed names

  predicate Number(s: string) { s != "" && AllDigits(s) }

  predicate EndsWith(s: string, suffix: string) {
    |suffix| <= |s| && s[|s| - |suffix|..] == suffix
  }

  predicate Numbered(s: string, suffix: string) {
    EndsWith(s, suffix) && Number(s[..|s| - |suffix|])
  }

  predicate PrefixNumber(s: string, prefix: string) {
    StartsWith(s, prefix) && Number(s[|prefix|..])
  }

  // Files of a LevelDB or RocksDB database.
  predicate DatabaseFile(s: string) {
    || Numbered(s, ".log") || Numbered(s, ".ldb") || Numbered(s, ".sst") || Numbered(s, ".dbtmp")
    || PrefixNumber(s, "MANIFEST-") || PrefixNumber(s, "OPTIONS-")
    || s == "CURRENT" || s == "LOCK" || s == "LOG" || s == "LOG.old" || PrefixNumber(s, "LOG.old.")
    || s == "IDENTITY" || Numbered(s, ".blob")
  }

  predicate BlockFile(s: string) {
    && |s| == 12 && (StartsWith(s, "blk") || StartsWith(s, "rev")) && AllDigits(s[3..8]) && s[8..] == ".dat"
  }

  // What a visited directory may hold, by its path below the allowlisted entry.
  predicate AllowedDir(inside: Path, name: string) {
    || (inside == ["blocks"] && name == "index")
    || (inside == ["indexes"] && name in ["txindex", "txospenderindex", "coinstats", "blockfilter"])
    || (inside == ["indexes", "blockfilter"] && name == "basic")
  }

  predicate AllowedFile(inside: Path, name: string) {
    || DatabaseFile(name)
    || (inside == ["blocks"] && (BlockFile(name) || name == ".lock" || name == "xor.dat"))
    || (inside == ["chainstate_snapshot"] && name == "base_blockhash")
  }

  predicate AllowedChild(inside: Path, name: string, node: Node) {
    if node.Dir? then AllowedDir(inside, name) else AllowedFile(inside, name)
  }

  predicate Ordinary(node: Node) { node.Dir? || node == File(1) }

  // ------------------------------------------------------------------ acceptance

  // An entry below (or at) a visited one is plain, and has a reviewed name.
  predicate EntryOk(node: Node, path: Path, relative: Path, q: Path)
    requires Under(path, q) && relative != []
  {
    && Ordinary(node)
    && (q != path ==>
          var inside := relative + q[|path|..|q| - 1];
          AllowedChild(inside, q[|q| - 1], node))
  }

  ghost predicate Accepted(tree: Tree, path: Path, relative: Path)
    requires relative != []
  {
    forall q :: q in tree && Under(path, q) ==> EntryOk(tree[q], path, relative, q)
  }

  lemma NameIn(tree: Tree, path: Path, c: string)
    ensures c in Names(tree, path) <==> path + [c] in tree
  {
    if path + [c] in tree {
      assert Under(path, path + [c]);
    }
    if c in Names(tree, path) {
      var q :| q in tree && |q| == |path| + 1 && Under(path, q) && q[|path|] == c;
      assert q == path + [c];
    }
  }

  // An entry seen from the child it is in.
  lemma EntryDeeper(node: Node, path: Path, relative: Path, c: string, q: Path)
    requires relative != [] && Under(path + [c], q)
    ensures Under(path, q)
    ensures q != path + [c] ==>
      (EntryOk(node, path, relative, q) <==> EntryOk(node, path + [c], relative + [c], q))
    ensures q == path + [c] ==>
      (EntryOk(node, path, relative, q) <==> Ordinary(node) && AllowedChild(relative, c, node))
    ensures q == path + [c] ==> (EntryOk(node, path + [c], relative + [c], q) <==> Ordinary(node))
  {
    hide AllowedChild;
    var child := path + [c];
    assert q[..|path|] == child[..|path|] == path;
    if q == child {
      assert relative + q[|path|..|q| - 1] == relative;
    } else {
      assert q[|path|] == child[|path|] == c;
      assert q[|path|..|q| - 1] == [c] + q[|child|..|q| - 1];
      assert relative + [c] + q[|child|..|q| - 1] == relative + q[|path|..|q| - 1];
    }
  }

  ghost predicate ChildOk(tree: Tree, path: Path, relative: Path, c: string)
    requires relative != []
  {
    && path + [c] in tree
    && AllowedChild(relative, c, tree[path + [c]]) && Accepted(tree, path + [c], relative + [c])
  }

  // Acceptance, one level at a time.
  lemma AcceptedChildren(tree: Tree, path: Path, relative: Path, depth: nat)
    requires WellFormed(tree, depth) && relative != [] && IsDir(tree, path)
    requires forall c :: c in Names(tree, path) ==> ChildOk(tree, path, relative, c)
    ensures Accepted(tree, path, relative)
  {
    hide AllowedChild;
    forall q | q in tree && Under(path, q) ensures EntryOk(tree[q], path, relative, q) {
      if q != path {
        var c := q[|path|];
        var child := path + [c];
        assert q[..|child|] == child;
        AncestorIn(tree, q, |child|, depth);
        NameIn(tree, path, c);
        assert ChildOk(tree, path, relative, c);
        hide WellFormed, EntryOk;
        EntryDeeper(tree[q], path, relative, c, q);
      }
    }
  }

  lemma {:induction false} AncestorIn(tree: Tree, q: Path, n: nat, depth: nat)
    requires WellFormed(tree, depth) && q in tree && 0 < n <= |q|
    ensures q[..n] in tree && (n < |q| ==> tree[q[..n]].Dir?)
    decreases |q|
  {
    if n < |q| {
      var p := Parent(q);
      AncestorIn(tree, p, n, depth);
      assert p[..n] == q[..n];
      if n == |p| { assert q[..n] == p; }
    } else {
      assert q[..n] == q;
    }
  }

  lemma AcceptedChild(tree: Tree, path: Path, relative: Path, c: string)
    requires relative != [] && Accepted(tree, path, relative) && c in Names(tree, path)
    ensures ChildOk(tree, path, relative, c)
  {
    var child := path + [c];
    NameIn(tree, path, c);
    hide EntryOk, AllowedChild;
    EntryDeeper(tree[child], path, relative, c, child);
    forall q | q in tree && Under(child, q) ensures EntryOk(tree[q], child, relative + [c], q) {
      EntryDeeper(tree[q], path, relative, c, q);
    }
  }

  // -------------------------------------------------------------- partial deletion

  ghost predicate Gone(tree: Tree, path: Path) {
    forall q :: q in tree ==> !Under(path, q)
  }

  // Nothing was added or changed, and nothing outside this path removed.
  ghost predicate Within(tree: Tree, was: Tree, path: Path) {
    && (forall q :: q in tree ==> q in was && tree[q] == was[q])
    && (forall q :: q in was && !Under(path, q) ==> q in tree)
  }

  ghost predicate SameUnder(a: Tree, b: Tree, path: Path) {
    forall q :: Under(path, q) ==> (q in a <==> q in b) && (q in a ==> a[q] == b[q])
  }

  lemma SameAccepted(a: Tree, b: Tree, path: Path, relative: Path)
    requires SameUnder(a, b, path) && relative != []
    ensures Accepted(a, path, relative) <==> Accepted(b, path, relative)
  {
    hide EntryOk;
  }

  lemma SiblingsApart(path: Path, c: string, d: string, q: Path)
    requires c != d && Under(path + [d], q)
    ensures !Under(path + [c], q)
  {
    assert q[|path|] == q[..|path| + 1][|path|];
  }

  lemma SiblingKept(tree: Tree, was: Tree, path: Path, c: string, d: string)
    requires Within(tree, was, path + [c]) && c != d
    ensures SameUnder(tree, was, path + [d])
  {
    forall q | Under(path + [d], q) ensures !Under(path + [c], q) { SiblingsApart(path, c, d, q); }
  }

  lemma NestedWithin(now: Tree, tree: Tree, was: Tree, path: Path, c: string)
    requires Within(now, tree, path + [c]) && Within(tree, was, path)
    ensures Within(now, was, path)
  {
    forall q | Under(path + [c], q) ensures Under(path, q) {
      assert q[..|path|] == q[..|path| + 1][..|path|] == path;
    }
  }

  // An absent entry holds nothing.
  lemma AbsentHoldsNothing(tree: Tree, path: Path, depth: nat)
    requires WellFormed(tree, depth) && path != [] && path !in tree
    ensures Gone(tree, path)
  {
    forall q | q in tree ensures !Under(path, q) {
      if Under(path, q) { AncestorIn(tree, q, |path|, depth); }
    }
  }

  // A directory whose children are gone is empty.
  lemma EmptyDir(tree: Tree, path: Path, depth: nat)
    requires WellFormed(tree, depth) && forall c :: path + [c] !in tree
    ensures forall q :: q in tree && Under(path, q) ==> q == path
  {
    forall q | q in tree && Under(path, q) ensures q == path {
      if |q| > |path| {
        assert q[..|path| + 1] == path + [q[|path|]];
        AncestorIn(tree, q, |path| + 1, depth);
      }
    }
  }

  lemma FileHoldsNothing(tree: Tree, path: Path, depth: nat)
    requires WellFormed(tree, depth) && path != [] && path in tree && !tree[path].Dir?
    ensures forall q :: q in tree && Under(path, q) ==> q == path
  {
    forall q | q in tree && Under(path, q) ensures q == path {
      AncestorIn(tree, q, |path|, depth);
    }
  }

  lemma ChildrenGone(tree: Tree, was: Tree, path: Path, depth: nat)
    requires WellFormed(tree, depth) && Within(tree, was, path)
    requires forall c :: c in Names(was, path) ==> Gone(tree, path + [c])
    ensures forall q :: q in tree && Under(path, q) ==> q == path
  {
    forall c ensures path + [c] !in tree {
      NameIn(was, path, c);
      assert Under(path + [c], path + [c]);
    }
    EmptyDir(tree, path, depth);
  }

  lemma RemoveKeeps(tree: Tree, path: Path, depth: nat)
    requires WellFormed(tree, depth) && path in tree
    requires forall q :: q in tree && Under(path, q) ==> q == path
    ensures WellFormed(tree - {path}, depth) && Gone(tree - {path}, path) && Within(tree - {path}, tree, path)
  {
    forall p | p in tree - {path} && |p| > 1 ensures IsDir(tree - {path}, Parent(p)) {
      assert Under(Parent(p), p);
    }
  }

  // ------------------------------------------------------------------- the scope

  datatype Root = Root(parent: Path, name: string, dir: bool) {
    function At(): Path { parent + [name] }
  }

  // Four directories, then three files.
  const CORE_ENTRIES := ["blocks", "chainstate", "chainstate_snapshot", "indexes",
                         "mempool.dat", "mempool.dat.new", "fee_estimates.dat"]

  // The folder of one instance on one network, with Core's and the indexer's name for
  // that network ("" where Core has no subfolder).
  datatype Scope = Scope(network: string, folder: string, coreSub: string, indexSub: string) {
    function CoreScope(): Path {
      [network, folder, "core"] + if coreSub == "" then [] else [coreSub]
    }

    function Index(): Path { [network, folder, "electrs-0.11.1"] }

    // `allowlist`.
    function Roots(): seq<Root> {
      seq(8, i requires 0 <= i < 8 =>
        if i < 7 then Root(CoreScope(), CORE_ENTRIES[i], i < 4) else Root(Index(), indexSub, true))
    }

    // The advisory lock file Core keeps beside the chain.
    function LockFile(): Path { CoreScope() + [".lock"] }

    ghost predicate InScope(q: Path) {
      exists i :: 0 <= i < |Roots()| && Under(Roots()[i].At(), q)
    }

    ghost predicate Anchored(tree: Tree) {
      IsDir(tree, CoreScope()) && IsDir(tree, Index())
    }

    ghost predicate Accepts(tree: Tree) {
      forall i :: 0 <= i < |Roots()| ==> RootOk(tree, Roots()[i])
    }

    // What remains when every allowlisted subtree is gone.
    ghost function Cleared(tree: Tree): Tree {
      map q | q in tree && !InScope(q) :: tree[q]
    }

    function Locked(tree: Tree): Tree {
      if LockFile() in tree then tree else tree[LockFile() := File(1)]
    }

    // Some allowlisted entries may be missing, nothing else differs.
    ghost predicate Partly(tree: Tree, was: Tree) {
      && (forall q :: q in tree ==> q in was && tree[q] == was[q])
      && (forall q :: q in was && !InScope(q) ==> q in tree)
    }

    lemma Shape(i: nat)
      requires i < |Roots()|
      ensures |CoreScope()| >= 3 && CoreScope()[2] == "core"
      ensures i < 7 ==> Roots()[i] == Root(CoreScope(), CORE_ENTRIES[i], i < 4)
      ensures i < 7 ==> Roots()[i].At() == CoreScope() + [CORE_ENTRIES[i]] && Roots()[i].At()[2] == "core"
      ensures i == 7 ==> Roots()[i].At() == [network, folder, "electrs-0.11.1", indexSub]
    {
      var head := [network, folder, "core"];
      assert CoreScope()[..3] == head;
      assert CoreScope()[2] == head[2];
      if i == 7 { assert Index() + [indexSub] == [network, folder, "electrs-0.11.1", indexSub]; }
    }

    // Two allowlisted entries have nothing in common.
    lemma RootsApart(i: nat, j: nat, q: Path)
      requires i < |Roots()| && j < |Roots()| && i != j && Under(Roots()[i].At(), q)
      ensures !Under(Roots()[j].At(), q)
    {
      Shape(i);
      Shape(j);
      var p, p' := Roots()[i].At(), Roots()[j].At();
      var k := if i < 7 && j < 7 then |CoreScope()| else 2;
      assert p[k] != p'[k] by {
        if i < 7 && j < 7 { assert CORE_ENTRIES[i] != CORE_ENTRIES[j]; }
      }
      assert p[k] == q[..|p|][k] == q[k];
      if |p'| <= |q| { assert q[..|p'|][k] == q[k]; }
    }

    // No allowlisted entry holds the lock file or the folders they are in.
    lemma OutsideScope()
      ensures !InScope(LockFile()) && !InScope(CoreScope()) && !InScope(Index())
    {
      forall i | 0 <= i < |Roots()|
        ensures !Under(Roots()[i].At(), LockFile())
        ensures !Under(Roots()[i].At(), CoreScope()) && !Under(Roots()[i].At(), Index())
      {
        Shape(i);
        var p := Roots()[i].At();
        if i < 7 {
          assert CORE_ENTRIES[i] != ".lock";
          assert p[|CoreScope()|] != LockFile()[|CoreScope()|];
          if |p| <= |LockFile()| { assert LockFile()[..|p|] == LockFile(); }
        } else {
          assert LockFile()[2] == CoreScope()[2] == "core";
          if |p| <= |LockFile()| { assert LockFile()[..|p|][2] == LockFile()[2]; }
          if |p| <= |CoreScope()| { assert CoreScope()[..|p|][2] == CoreScope()[2]; }
        }
      }
    }
  }

  lemma SameRootOk(a: Tree, b: Tree, root: Root)
    requires SameUnder(a, b, root.At())
    ensures RootOk(a, root) <==> RootOk(b, root)
  {
    assert Under(root.At(), root.At());
    SameAccepted(a, b, root.At(), [root.name]);
  }

  // Acceptance survives any partial deletion.
  lemma AcceptanceIsKept(scope: Scope, tree: Tree, was: Tree)
    requires scope.Partly(tree, was) && scope.Accepts(was)
    ensures scope.Accepts(tree)
  {
    hide EntryOk;
    forall i | 0 <= i < |scope.Roots()| ensures RootOk(tree, scope.Roots()[i]) {
      assert RootOk(was, scope.Roots()[i]);
    }
  }

  // A partial deletion is finished to the same tree as an untouched one.
  lemma SameCleared(scope: Scope, tree: Tree, was: Tree)
    requires scope.Partly(tree, was)
    ensures scope.Cleared(tree) == scope.Cleared(was)
  {
    hide scope.InScope;
  }

  lemma AnchorsKept(scope: Scope, tree: Tree, was: Tree)
    requires scope.Partly(tree, was) && scope.Anchored(was)
    ensures scope.Anchored(tree)
  {
    scope.OutsideScope();
  }

  lemma WithinScope(scope: Scope, i: nat, tree: Tree, before: Tree, was: Tree)
    requires i < |scope.Roots()| && Within(tree, before, scope.Roots()[i].At()) && scope.Partly(before, was)
    ensures scope.Partly(tree, was)
  {
  }

  lemma OtherRootKept(scope: Scope, i: nat, j: nat, tree: Tree, before: Tree)
    requires i < |scope.Roots()| && j < |scope.Roots()| && i != j
    requires Within(tree, before, scope.Roots()[i].At())
    ensures SameUnder(tree, before, scope.Roots()[j].At())
  {
    forall q | Under(scope.Roots()[j].At(), q) ensures !Under(scope.Roots()[i].At(), q) {
      scope.RootsApart(j, i, q);
    }
  }

  lemma LockFormed(scope: Scope, tree: Tree, depth: nat)
    requires WellFormed(tree, depth) && depth >= 5 && IsDir(tree, scope.CoreScope())
    ensures WellFormed(scope.Locked(tree), depth)
  {
    assert Parent(scope.LockFile()) == scope.CoreScope();
  }

  lemma LockKeeps(scope: Scope, tree: Tree, depth: nat)
    requires WellFormed(tree, depth) && depth >= 5 && IsDir(tree, scope.CoreScope())
    ensures WellFormed(scope.Locked(tree), depth)
    ensures scope.Accepts(tree) ==> scope.Accepts(scope.Locked(tree))
    ensures scope.Anchored(tree) ==> scope.Anchored(scope.Locked(tree))
  {
    scope.OutsideScope();
    LockFormed(scope, tree, depth);
    hide EntryOk, WellFormed, RootOk, scope.Roots;
    forall i | 0 <= i < |scope.Roots()| ensures RootOk(tree, scope.Roots()[i]) <==> RootOk(scope.Locked(tree), scope.Roots()[i])
    {
      SameRootOk(tree, scope.Locked(tree), scope.Roots()[i]);
    }
  }

  // One more interrupted attempt.
  lemma Resumed(scope: Scope, now: Tree, tree: Tree, was: Tree)
    requires scope.Partly(tree, was) || scope.Partly(tree, scope.Locked(was))
    requires scope.Partly(now, tree) || scope.Partly(now, scope.Locked(tree))
    ensures scope.Partly(now, was) || scope.Partly(now, scope.Locked(was))
  {
    scope.OutsideScope();
    hide scope.InScope;
  }

  lemma ResumedCleared(scope: Scope, tree: Tree, was: Tree)
    requires scope.Partly(tree, was) || scope.Partly(tree, scope.Locked(was))
    ensures scope.Cleared(scope.Locked(tree)) == scope.Cleared(scope.Locked(was))
  {
    scope.OutsideScope();
    hide scope.InScope;
  }

  lemma AllGone(scope: Scope, tree: Tree, was: Tree)
    requires scope.Partly(tree, was)
    requires forall i :: 0 <= i < |scope.Roots()| ==> Gone(tree, scope.Roots()[i].At())
    ensures tree == scope.Cleared(was)
  {
    forall q | q in tree ensures !scope.InScope(q) {}
  }

  ghost predicate RootOk(tree: Tree, root: Root) {
    root.At() in tree ==>
      (tree[root.At()].Dir? <==> root.dir) && Accepted(tree, root.At(), [root.name])
  }

  // The first `i` allowlisted entries are accepted (and deleted, when asked to), the
  // others untouched.
  ghost predicate Scanned(scope: Scope, tree: Tree, was: Tree, i: nat, delete: bool)
    requires i <= |scope.Roots()|
  {
    && scope.Partly(tree, was)
    && (!delete ==> tree == was)
    && (forall j :: 0 <= j < i ==> RootOk(was, scope.Roots()[j]))
    && (delete ==> forall j :: 0 <= j < i ==> Gone(tree, scope.Roots()[j].At()))
    && (forall j :: i <= j < |scope.Roots()| ==> SameUnder(tree, was, scope.Roots()[j].At()))
  }

  lemma NothingScanned(scope: Scope, tree: Tree, delete: bool)
    ensures Scanned(scope, tree, tree, 0, delete)
  {
  }

  lemma RootScanned(scope: Scope, i: nat, tree: Tree, before: Tree, was: Tree, delete: bool)
    requires i < |scope.Roots()| && Scanned(scope, before, was, i, delete)
    requires Within(tree, before, scope.Roots()[i].At()) && RootOk(was, scope.Roots()[i])
    requires if delete then Gone(tree, scope.Roots()[i].At()) else tree == before
    ensures Scanned(scope, tree, was, i + 1, delete)
  {
    hide scope.Roots, RootOk;
    WithinScope(scope, i, tree, before, was);
    hide scope.Partly;
    forall j | i < j < |scope.Roots()| ensures SameUnder(tree, was, scope.Roots()[j].At()) {
      OtherRootKept(scope, i, j, tree, before);
    }
  }

  lemma AllScanned(scope: Scope, tree: Tree, was: Tree, delete: bool)
    requires Scanned(scope, tree, was, |scope.Roots()|, delete)
    ensures scope.Partly(tree, was) && scope.Accepts(was) && (!delete ==> tree == was)
    ensures delete ==> tree == scope.Cleared(was)
  {
    if delete { AllGone(scope, tree, was); }
  }

  // All children but these are accepted (and deleted, when asked to); these are as they
  // were.
  ghost predicate Visited(tree: Tree, was: Tree, path: Path, relative: Path, todo: set<string>, delete: bool)
    requires relative != []
  {
    && todo <= Names(was, path)
    && Within(tree, was, path) && path in tree
    && (!delete ==> tree == was)
    && (forall c :: c in todo ==> SameUnder(tree, was, path + [c]))
    && (forall c :: c in Names(was, path) - todo ==> ChildOk(was, path, relative, c))
    && (forall c :: c in Names(was, path) - todo && delete ==> Gone(tree, path + [c]))
  }

  lemma NoneVisited(tree: Tree, path: Path, relative: Path, delete: bool)
    requires relative != [] && path in tree
    ensures Visited(tree, tree, path, relative, Names(tree, path), delete)
  {
  }

  lemma NextVisited(tree: Tree, was: Tree, path: Path, relative: Path, todo: set<string>, delete: bool, c: string)
    requires relative != [] && Visited(tree, was, path, relative, todo, delete) && c in todo
    ensures path in tree && path + [c] in was && SameUnder(tree, was, path + [c])
  {
    NameIn(was, path, c);
  }

  lemma ChildVisited(tree: Tree, before: Tree, was: Tree, path: Path, relative: Path, todo: set<string>, delete: bool,
                     c: string, accepted: bool)
    requires relative != [] && Visited(before, was, path, relative, todo, delete) && c in todo
    requires Within(tree, before, path + [c]) && path in tree && (!delete ==> tree == before)
    requires accepted ==> ChildOk(was, path, relative, c) && (delete ==> Gone(tree, path + [c]))
    ensures Within(tree, was, path) && (!delete ==> tree == was)
    ensures accepted ==> Visited(tree, was, path, relative, todo - {c}, delete)
  {
    NestedWithin(tree, before, was, path, c);
    hide ChildOk, Names;
    forall d | d in todo && d != c ensures SameUnder(tree, was, path + [d]) {
      SiblingKept(tree, before, path, c, d);
    }
  }

  lemma AllVisited(tree: Tree, was: Tree, path: Path, relative: Path, delete: bool, depth: nat)
    requires relative != [] && WellFormed(tree, depth) && WellFormed(was, depth) && IsDir(was, path)
    requires Visited(tree, was, path, relative, {}, delete)
    ensures Within(tree, was, path) && path in tree && (!delete ==> tree == was)
    ensures Accepted(was, path, relative)
    ensures delete ==> forall q :: q in tree && Under(path, q) ==> q == path
  {
    AcceptedChildren(was, path, relative, depth);
    if delete { ChildrenGone(tree, was, path, depth); }
  }

  class Volume {
    var tree: Tree

    constructor (tree: Tree)
      ensures this.tree == tree
    {
      this.tree := tree;
    }

    method Trouble(calm: bool) returns (r: Status)
      ensures r.Err? ==> r.error in {Failed, Crashed}
      ensures calm ==> r.Ok?
    {
      r := *;
      if calm || (r.Err? && r.error == Refused) { r := Ok(()); }
    }

    // Unlinks a file, or removes an empty directory.
    method Remove(path: Path, calm: bool, ghost depth: nat) returns (r: Status)
      requires WellFormed(tree, depth) && path in tree
      requires forall q :: q in tree && Under(path, q) ==> q == path
      modifies this
      ensures tree == old(tree) || tree == old(tree) - {path}
      ensures WellFormed(tree, depth) && Within(tree, old(tree), path)
      ensures r.Ok? ==> Gone(tree, path)
      ensures r.Err? ==> r.error in {Failed, Crashed}
      ensures calm ==> r.Ok?
    {
      var _ :- Trouble(calm);
      RemoveKeeps(tree, path, depth);
      tree := tree - {path};
      r := Trouble(calm);
    }

    // `visit`: validates an entry and what is below it, and deletes it when asked to.
    method Visit(path: Path, relative: Path, delete: bool, calm: bool, ghost depth: nat) returns (r: Status)
      requires WellFormed(tree, depth) && path != [] && relative != []
      modifies this
      decreases if |path| <= depth then depth - |path| + 1 else 0, 1
      ensures WellFormed(tree, depth) && Within(tree, old(tree), path)
      ensures !delete ==> tree == old(tree)
      ensures r.Ok? ==> Accepted(old(tree), path, relative)
      ensures r.Ok? && delete ==> Gone(tree, path)
      ensures r == Err(Refused) ==> !Accepted(old(tree), path, relative)
      ensures calm && r.Err? ==> r == Err(Refused)
    {
      if path !in tree {
        AbsentHoldsNothing(tree, path, depth);
        return Ok(());
      }
      var _ :- Trouble(calm);
      if !Ordinary(tree[path]) {
        assert Under(path, path) && !EntryOk(tree[path], path, relative, path);
        return Err(Refused);
      }
      if tree[path].Dir? {
        var _ :- VisitChildren(path, relative, delete, calm, depth);
      } else {
        FileHoldsNothing(tree, path, depth);
      }
      if delete {
        r := Remove(path, calm, depth);
      } else {
        r := Ok(());
      }
    }

    method VisitChild(path: Path, relative: Path, c: string, delete: bool, calm: bool,
                      ghost was: Tree, ghost depth: nat) returns (r: Status)
      requires WellFormed(tree, depth) && path != [] && relative != [] && path in tree
      requires path + [c] in was && SameUnder(tree, was, path + [c])
      modifies this
      decreases depth - |path|, 2
      ensures WellFormed(tree, depth) && Within(tree, old(tree), path + [c]) && path in tree
      ensures !delete ==> tree == old(tree)
      ensures r.Ok? ==> ChildOk(was, path, relative, c)
      ensures r.Ok? && delete ==> Gone(tree, path + [c])
      ensures r == Err(Refused) ==> !Accepted(was, path, relative)
      ensures calm && r.Err? ==> r == Err(Refused)
    {
      var child := path + [c];
      NameIn(was, path, c);
      assert Under(child, child) && child in tree && tree[child] == was[child];
      if !AllowedChild(relative, c, tree[child]) {
        if Accepted(was, path, relative) { AcceptedChild(was, path, relative, c); }
        return Err(Refused);
      }
      SameAccepted(tree, was, child, relative + [c]);
      r := Visit(child, relative + [c], delete, calm, depth);
      if r == Err(Refused) && Accepted(was, path, relative) { AcceptedChild(was, path, relative, c); }
    }

    method VisitChildren(path: Path, relative: Path, delete: bool, calm: bool, ghost depth: nat) returns (r: Status)
      requires WellFormed(tree, depth) && path != [] && relative != [] && IsDir(tree, path)
      modifies this
      decreases depth - |path| + 1, 0
      ensures WellFormed(tree, depth) && Within(tree, old(tree), path)
      ensures !delete ==> tree == old(tree)
      ensures path in tree
      ensures r.Ok? ==> Accepted(old(tree), path, relative)
      ensures r.Ok? && delete ==> forall q :: q in tree && Under(path, q) ==> q == path
      ensures r == Err(Refused) ==> !Accepted(old(tree), path, relative)
      ensures calm && r.Err? ==> r == Err(Refused)
    {
      var todo := Names(tree, path);
      ghost var was := tree;
      NoneVisited(tree, path, relative, delete);
      hide Visited, WellFormed, Within, Accepted, Names;
      while todo != {}
        invariant WellFormed(tree, depth) && Visited(tree, was, path, relative, todo, delete)
      {
        var c :| c in todo;
        ghost var before := tree;
        NextVisited(tree, was, path, relative, todo, delete, c);
        r := VisitChild(path, relative, c, delete, calm, was, depth);
        ChildVisited(tree, before, was, path, relative, todo, delete, c, r.Ok?);
        if r.Err? { return; }
        todo := todo - {c};
      }
      AllVisited(tree, was, path, relative, delete, depth);
      r := Ok(());
    }

    method ScanRoot(root: Root, delete: bool, calm: bool, ghost depth: nat) returns (r: Status)
      requires WellFormed(tree, depth)
      modifies this
      ensures WellFormed(tree, depth) && Within(tree, old(tree), root.At())
      ensures !delete ==> tree == old(tree)
      ensures r.Ok? ==> RootOk(old(tree), root)
      ensures r.Ok? && delete ==> Gone(tree, root.At())
      ensures r == Err(Refused) ==> !RootOk(old(tree), root)
      ensures calm && r.Err? ==> r == Err(Refused)
    {
      var path := root.At();
      if path !in tree {
        AbsentHoldsNothing(tree, path, depth);
        return Ok(());
      }
      if tree[path].Dir? != root.dir { return Err(Refused); }
      r := Visit(path, [root.name], delete, calm, depth);
    }

    // `scan`: the whole allowlist, validated or deleted entry by entry.
    method Scan(scope: Scope, delete: bool, calm: bool, ghost depth: nat) returns (r: Status)
      requires WellFormed(tree, depth)
      modifies this
      ensures WellFormed(tree, depth) && scope.Partly(tree, old(tree))
      ensures !delete ==> tree == old(tree)
      ensures r.Ok? ==> scope.Accepts(old(tree))
      ensures r.Ok? && delete ==> tree == scope.Cleared(old(tree))
      ensures r == Err(Refused) ==> !scope.Accepts(old(tree))
      ensures calm && r.Err? ==> r == Err(Refused)
    {
      ghost var was := tree;
      NothingScanned(scope, tree, delete);
      hide scope.Partly, scope.Accepts, Scanned;
      var n := |scope.Roots()|;
      for i := 0 to n
        invariant WellFormed(tree, depth) && Scanned(scope, tree, was, i, delete)
      {
        r := ScanNext(scope, i, delete, calm, was, depth);
        if r.Err? { return; }
      }
      AllScanned(scope, tree, was, delete);
      r := Ok(());
    }

    method ScanNext(scope: Scope, i: nat, delete: bool, calm: bool, ghost was: Tree, ghost depth: nat)
      returns (r: Status)
      requires WellFormed(tree, depth) && i < |scope.Roots()| && Scanned(scope, tree, was, i, delete)
      modifies this
      ensures WellFormed(tree, depth)
      ensures r.Ok? ==> Scanned(scope, tree, was, i + 1, delete)
      ensures r.Err? ==> scope.Partly(tree, was) && (!delete ==> tree == was)
      ensures r == Err(Refused) ==> !scope.Accepts(was)
      ensures calm && r.Err? ==> r == Err(Refused)
    {
      var root := scope.Roots()[i];
      hide scope.Roots, scope.Partly, RootOk, WellFormed, SameUnder, Gone;
      ghost var before := tree;
      SameRootOk(tree, was, root);
      r := ScanRoot(root, delete, calm, depth);
      WithinScope(scope, i, tree, before, was);
      if r.Ok? { RootScanned(scope, i, tree, before, was, delete); }
    }

    // `run`: the receipt, reserve and wallet checks are made elsewhere (`admitted`).
    method Run(scope: Scope, admitted: bool, reset: bool, calm: bool, ghost depth: nat) returns (r: Status)
      requires WellFormed(tree, depth) && depth >= 5
      modifies this
      ensures WellFormed(tree, depth)
      ensures scope.Partly(tree, old(tree)) || (reset && scope.Partly(tree, scope.Locked(old(tree))))
      ensures !reset || !admitted || !scope.Accepts(old(tree)) ==> tree == old(tree)
      ensures r.Ok? ==> admitted && scope.Anchored(old(tree)) && scope.Accepts(old(tree))
      ensures r.Ok? && reset ==> tree == scope.Cleared(scope.Locked(old(tree)))
      ensures calm ==> (r.Ok? <==> admitted && scope.Anchored(old(tree)) && scope.Accepts(old(tree)))
    {
      if !IsDir(tree, scope.CoreScope()) || !IsDir(tree, scope.Index()) || !admitted { return Err(Refused); }
      var _ :- Scan(scope, false, calm, depth);
      if reset {
        var _ :- Trouble(calm);
        LockKeeps(scope, tree, depth);
        tree := scope.Locked(tree);
        var _ :- Trouble(calm);
        r := Scan(scope, true, calm, depth);
      } else {
        r := Ok(());
      }
    }

    // A reset interrupted any number of times, then one that is not: the allowlisted
    // subtrees are gone, and nothing else has changed.
    method ResetUntilDone(scope: Scope, attempts: nat, ghost depth: nat)
      requires WellFormed(tree, depth) && depth >= 5 && scope.Anchored(tree) && scope.Accepts(tree)
      modifies this
      ensures tree == scope.Cleared(scope.Locked(old(tree)))
    {
      ghost var was := tree;
      for i := 0 to attempts
        invariant WellFormed(tree, depth) && scope.Anchored(tree) && scope.Accepts(tree)
        invariant scope.Partly(tree, was) || scope.Partly(tree, scope.Locked(was))
      {
        hide scope.Accepts, scope.Anchored, scope.Partly, scope.Locked;
        ghost var before := tree;
        var _ := Run(scope, true, true, false, depth);
        Resumed(scope, tree, before, was);
        LockKeeps(scope, before, depth);
        if scope.Partly(tree, before) {
          AcceptanceIsKept(scope, tree, before);
          AnchorsKept(scope, tree, before);
        } else {
          AcceptanceIsKept(scope, tree, scope.Locked(before));
          AnchorsKept(scope, tree, scope.Locked(before));
        }
      }
      ghost var last := tree;
      var _ := Run(scope, true, true, true, depth);
      ResumedCleared(scope, last, was);
    }
  }
}
