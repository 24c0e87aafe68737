// Which paths a reset may delete, and which names it accepts there, written out.
module ChainNames {
  import opened Common
  import opened Strings
  import opened Decimals
  import opened ChainReset

  // ------------------------------------------------------------------- the scope

  const DIRECTORIES := {"blocks", "chainstate", "chainstate_snapshot", "indexes"}
  const FILES := {"mempool.dat", "mempool.dat.new", "fee_estimates.dat"}

  // Where Core keeps the chain of this network.
  function ChainFolder(s: Scope): Path {
    if s.coreSub == "" then [s.network, s.folder, "core"] else [s.network, s.folder, "core", s.coreSub]
  }

  // Exactly these are deleted: four directories and three files of Core, and the
  // indexer's database of the network.
  lemma ScopePaths(s: Scope, q: Path)
    ensures s.InScope(q) <==>
      || Under([s.network, s.folder, "electrs-0.11.1", s.indexSub], q)
      || exists name :: name in DIRECTORIES + FILES && Under(ChainFolder(s) + [name], q)
  {
    assert ChainFolder(s) == s.CoreScope() by {
      assert [s.network, s.folder, "core"] + [s.coreSub] == [s.network, s.folder, "core", s.coreSub];
    }
    EntriesNamed();
    s.Shape(7);
    hide CORE_ENTRIES, ChainFolder, Under;
    if s.InScope(q) {
      var i :| 0 <= i < |s.Roots()| && Under(s.Roots()[i].At(), q);
      s.Shape(i);
      assert i < 7 ==> CORE_ENTRIES[i] in DIRECTORIES + FILES;
    }
    forall name | name in DIRECTORIES + FILES && Under(ChainFolder(s) + [name], q) ensures s.InScope(q) {
      var i :| 0 <= i < 7 && CORE_ENTRIES[i] == name;
      s.Shape(i);
      assert s.Roots()[i].At() == ChainFolder(s) + [name];
    }
    assert Under(s.Roots()[7].At(), q) ==> s.InScope(q);
  }

  lemma EntriesNamed()
    ensures |CORE_ENTRIES| == 7
    ensures forall i :: 0 <= i < 7 ==> (if i < 4 then CORE_ENTRIES[i] in DIRECTORIES else CORE_ENTRIES[i] in FILES)
    ensures forall name :: name in DIRECTORIES + FILES ==> exists i :: 0 <= i < 7 && CORE_ENTRIES[i] == name
  {
    assert CORE_ENTRIES[0] == "blocks" && CORE_ENTRIES[1] == "chainstate";
    assert CORE_ENTRIES[2] == "chainstate_snapshot" && CORE_ENTRIES[3] == "indexes";
    assert CORE_ENTRIES[4] == "mempool.dat" && CORE_ENTRIES[5] == "mempool.dat.new";
    assert CORE_ENTRIES[6] == "fee_estimates.dat";
  }

  // A directory stands where a directory is expected, and a file where a file is.
  lemma ScopeKinds(s: Scope, tree: Tree)
    requires s.Accepts(tree)
    ensures forall name :: name in DIRECTORIES && ChainFolder(s) + [name] in tree ==> tree[ChainFolder(s) + [name]].Dir?
    ensures forall name :: name in FILES && ChainFolder(s) + [name] in tree ==> tree[ChainFolder(s) + [name]] == File(1)
  {
    assert ChainFolder(s) == s.CoreScope() by {
      assert [s.network, s.folder, "core"] + [s.coreSub] == [s.network, s.folder, "core", s.coreSub];
    }
    forall name | name in DIRECTORIES + FILES && ChainFolder(s) + [name] in tree
      ensures name in DIRECTORIES ==> tree[ChainFolder(s) + [name]].Dir?
      ensures name in FILES ==> tree[ChainFolder(s) + [name]] == File(1)
    {
      EntriesNamed();
      var i :| 0 <= i < 7 && CORE_ENTRIES[i] == name;
      s.Shape(i);
      var at := ChainFolder(s) + [name];
      assert RootOk(tree, s.Roots()[i]) && Under(at, at);
      assert EntryOk(tree[at], at, [name], at);
      Apart(name);
    }
  }

  lemma Apart(name: string)
    ensures !(name in DIRECTORIES && name in FILES)
  {
  }

  // ------------------------------------------------------------------- the names

  const SUBDIRECTORIES: set<Path> := {
    ["blocks", "index"], ["indexes", "txindex"], ["indexes", "txospenderindex"], ["indexes", "coinstats"],
    ["indexes", "blockfilter"], ["indexes", "blockfilter", "basic"]}

  // A number, with what stands before and after it.
  ghost predicate NumberedAs(name: string, before: string, after: string) {
    exists n: string :: n != "" && AllDigits(n) && name == before + n + after
  }

  // A file that a LevelDB or RocksDB database writes.
  ghost predicate DatabaseName(name: string) {
    || name in {"CURRENT", "LOCK", "LOG", "LOG.old", "IDENTITY"}
    || (exists after :: after in {".log", ".ldb", ".sst", ".dbtmp", ".blob"} && NumberedAs(name, "", after))
    || (exists before :: before in {"MANIFEST-", "OPTIONS-", "LOG.old."} && NumberedAs(name, before, ""))
  }

  ghost predicate BlockName(name: string) {
    exists kind, n: string :: kind in {"blk", "rev"} && |n| == 5 && AllDigits(n) && name == kind + n + ".dat"
  }

  // A reviewed file, by its path from the allowlisted entry on.
  ghost predicate FileReviewed(relative: Path)
    requires relative != []
  {
    var folder, name := relative[..|relative| - 1], relative[|relative| - 1];
    || DatabaseName(name)
    || (folder == ["blocks"] && (BlockName(name) || name in {".lock", "xor.dat"}))
    || (folder == ["chainstate_snapshot"] && name == "base_blockhash")
  }

  lemma NumberedExactly(s: string, suffix: string)
    ensures Numbered(s, suffix) <==> NumberedAs(s, "", suffix)
  {
    if Numbered(s, suffix) {
      var n := s[..|s| - |suffix|];
      assert s == "" + n + suffix;
    }
    forall n: string | n != "" && AllDigits(n) && s == "" + n + suffix ensures Numbered(s, suffix) {
      assert s[..|s| - |suffix|] == n && s[|s| - |suffix|..] == suffix;
    }
  }

  lemma PrefixExactly(s: string, prefix: string)
    ensures PrefixNumber(s, prefix) <==> NumberedAs(s, prefix, "")
  {
    if PrefixNumber(s, prefix) {
      var n := s[|prefix|..];
      assert s == prefix + n + "";
    }
    forall n: string | n != "" && AllDigits(n) && s == prefix + n + "" ensures PrefixNumber(s, prefix) {
      assert s[..|prefix|] == prefix && s[|prefix|..] == n;
    }
  }

  lemma DatabaseExactly(s: string)
    ensures DatabaseFile(s) <==> DatabaseName(s)
  {
    hide Numbered, PrefixNumber, NumberedAs;
    forall after | after in {".log", ".ldb", ".sst", ".dbtmp", ".blob"}
      ensures Numbered(s, after) <==> NumberedAs(s, "", after)
    {
      NumberedExactly(s, after);
    }
    forall before | before in {"MANIFEST-", "OPTIONS-", "LOG.old."}
      ensures PrefixNumber(s, before) <==> NumberedAs(s, before, "")
    {
      PrefixExactly(s, before);
    }
  }

  lemma BlockExactly(s: string)
    ensures BlockFile(s) <==> BlockName(s)
  {
    if BlockFile(s) {
      var kind := s[..3];
      assert kind in {"blk", "rev"};
      assert s == kind + s[3..8] + ".dat";
    }
    forall kind, n: string | kind in {"blk", "rev"} && |n| == 5 && AllDigits(n) && s == kind + n + ".dat"
      ensures BlockFile(s)
    {
      assert s[..3] == kind && s[3..8] == n && s[8..] == ".dat";
    }
  }

  lemma DirExactly(inside: Path, name: string)
    ensures AllowedDir(inside, name) <==> inside + [name] in SUBDIRECTORIES
  {
    var q := inside + [name];
    assert q[..|q| - 1] == inside && q[|q| - 1] == name;
    if AllowedDir(inside, name) {
      assert ["blocks"] + ["index"] == ["blocks", "index"];
      assert ["indexes"] + [name] == ["indexes", name];
      assert ["indexes", "blockfilter"] + ["basic"] == ["indexes", "blockfilter", "basic"];
    }
    if q in SUBDIRECTORIES {
      assert q == ["indexes", "blockfilter", "basic"] ==> inside == ["indexes", "blockfilter"] && name == "basic";
      assert q == ["blocks", "index"] ==> inside == ["blocks"] && name == "index";
      assert |q| == 2 && q[0] == "indexes" ==> inside == ["indexes"];
    }
  }

  lemma FileExactly(inside: Path, name: string)
    ensures AllowedFile(inside, name) <==> FileReviewed(inside + [name])
  {
    var q := inside + [name];
    assert q[..|q| - 1] == inside && q[|q| - 1] == name;
    DatabaseExactly(name);
    BlockExactly(name);
    hide DatabaseFile, DatabaseName, BlockFile, BlockName;
  }

  lemma ChildExactly(inside: Path, name: string, node: Node)
    ensures AllowedChild(inside, name, node) <==>
      if node.Dir? then inside + [name] in SUBDIRECTORIES else FileReviewed(inside + [name])
  {
    hide AllowedDir, AllowedFile, SUBDIRECTORIES, FileReviewed;
    DirExactly(inside, name);
    FileExactly(inside, name);
  }

  // A subtree is accepted exactly if all its entries are directories or files without
  // further links, and, but for the allowlisted one itself, every directory is one of the
  // six known ones and every file is a database's, a block file or one of three others.
  lemma AcceptedNames(tree: Tree, path: Path, root: string)
    ensures Accepted(tree, path, [root]) <==>
      forall q :: q in tree && Under(path, q) ==>
        && (tree[q].Dir? || tree[q] == File(1))
        && (q != path && tree[q].Dir? ==> [root] + q[|path|..] in SUBDIRECTORIES)
        && (q != path && tree[q].File? ==> FileReviewed([root] + q[|path|..]))
  {
    hide AllowedChild, SUBDIRECTORIES, FileReviewed;
    forall q | q in tree && Under(path, q) && q != path
      ensures EntryOk(tree[q], path, [root], q) <==>
        && (tree[q].Dir? || tree[q] == File(1))
        && (if tree[q].Dir? then [root] + q[|path|..] in SUBDIRECTORIES else FileReviewed([root] + q[|path|..]))
    {
      var inside, name := [root] + q[|path|..|q| - 1], q[|q| - 1];
      assert inside + [name] == [root] + q[|path|..];
      ChildExactly(inside, name, tree[q]);
    }
  }

  // A completed reset leaves exactly what is under none of the eight paths.
  lemma ClearedKeeps(s: Scope, tree: Tree, q: Path)
    ensures q in s.Cleared(tree) <==>
      && q in tree && !Under([s.network, s.folder, "electrs-0.11.1", s.indexSub], q)
      && forall name :: name in DIRECTORIES + FILES ==> !Under(ChainFolder(s) + [name], q)
    ensures q in s.Cleared(tree) ==> s.Cleared(tree)[q] == tree[q]
  {
    ScopePaths(s, q);
    hide DIRECTORIES, FILES, ChainFolder, Under;
  }
}
