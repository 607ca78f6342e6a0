/**
 * What a scan that is not cancelled yields, stated over the walk rather
 * than over its events: which directories the walk enters, which records
 * each of them contributes and in which order, and what every record
 * holds. Pruning shows up as a property of the paths: nothing is reported
 * from inside a folder that was reported.
 */
module ScanProperties {
  import opened Wrappers
  import opened FileTree
  import opened Patterns
  import opened ScanSpec

  // ------------------------------------------------------------ the directories the walk enters

  /** The directories `os.walk` yields for the tree `n` found at `at`, with their paths, in pre-order. */
  function Visited(n: Node, at: Path, cfg: Config): seq<Frame>
    decreases n, 1
  {
    match n
    case File(_, _, _) => []
    case Dir(_, cs, readable) =>
      if !readable then [] else [Frame(at, n)] + VisitedAll(n, KeptDirs(SubDirs(cs), cfg), at, cfg)
  }

  function VisitedAll(parent: Node, ks: seq<Node>, at: Path, cfg: Config): seq<Frame>
    requires parent.Dir? && forall x :: x in ks ==> x in parent.children
    decreases parent, 0, |ks|
  {
    if ks == [] then []
    else
      assert ks[0] in parent.children;
      Visited(ks[0], at + [ks[0].name], cfg) + VisitedAll(parent, ks[1..], at, cfg)
  }

  /**
   * `p` lies at or below `at`, and every component it adds to `at` names a
   * directory that no folder pattern matched.
   */
  predicate KeptPath(at: Path, p: Path, cfg: Config) {
    && |at| <= |p| && p[..|at|] == at
    && forall k :: |at| <= k < |p| ==> !Truthy(MatchFolder(p[k], cfg.folderPatterns))
  }

  lemma KeptPathExtend(at: Path, name: string, p: Path, cfg: Config)
    requires KeptPath(at + [name], p, cfg) && !Truthy(MatchFolder(name, cfg.folderPatterns))
    ensures KeptPath(at, p, cfg)
  {
    assert p[..|at| + 1] == at + [name];
    assert p[..|at|] == (at + [name])[..|at|];
    assert p[|at|] == (at + [name])[|at|];
  }

  /** The walk enters only directories it can list, and only below paths made of unmatched names. */
  lemma {:induction false} VisitedPaths(n: Node, at: Path, cfg: Config)
    ensures forall v :: v in Visited(n, at, cfg) ==> v.node.Dir? && v.node.readable && KeptPath(at, v.at, cfg)
    decreases n, 1
  {
    if n.Dir? && n.readable {
      var ks := KeptDirs(SubDirs(n.children), cfg);
      KeptDirsMembers(SubDirs(n.children), cfg);
      VisitedAllPaths(n, ks, at, cfg);
      assert KeptPath(at, at, cfg);
    }
  }

  lemma {:induction false} VisitedAllPaths(parent: Node, ks: seq<Node>, at: Path, cfg: Config)
    requires parent.Dir? && forall x :: x in ks ==> x in parent.children
    requires forall x :: x in ks ==> !Pruned(x, cfg)
    ensures forall v :: v in VisitedAll(parent, ks, at, cfg) ==> v.node.Dir? && v.node.readable && KeptPath(at, v.at, cfg)
    decreases parent, 0, |ks|
  {
    if ks != [] {
      var k := ks[0];
      assert k in parent.children;
      VisitedPaths(k, at + [k.name], cfg);
      forall v | v in Visited(k, at + [k.name], cfg) ensures KeptPath(at, v.at, cfg) {
        KeptPathExtend(at, k.name, v.at, cfg);
      }
      VisitedAllPaths(parent, ks[1..], at, cfg);
    }
  }

  // ------------------------------------------------------------ the records of one directory

  /** `r` is the record the folder loop of the directory at `at` makes for the entry `d`. */
  predicate FolderMatch(at: Path, d: Node, r: ScanResult, cfg: Config) {
    Pruned(d, cfg) && r == FolderRecord(at, d, MatchFolder(d.name, cfg.folderPatterns).value, cfg)
  }

  /** `r` is the record the file loop of the directory at `at` makes for the entry `f`. */
  predicate FileMatch(at: Path, f: Node, r: ScanResult, cfg: Config) {
    var m := MatchFile(f.name, cfg.extensionPatterns);
    Truthy(m) && r == FileRecord(at, f, m.value, cfg)
  }

  /** `r` is a record made in the directory `v` for one of its subdirectories or files. */
  predicate RecordAt(v: Frame, r: ScanResult, cfg: Config) {
    && v.node.Dir?
    && ((exists d :: d in SubDirs(v.node.children) && FolderMatch(v.at, d, r, cfg))
        || (exists f :: f in Files(v.node.children) && FileMatch(v.at, f, r, cfg)))
  }

  /** The folder loop records exactly the matching entries. */
  lemma {:induction false} DirPhaseRecords(at: Path, ds: seq<Node>, cfg: Config)
    ensures forall r :: r in Records(DirPhase(at, ds, cfg)) <==> exists d :: d in ds && FolderMatch(at, d, r, cfg)
  {
    if ds != [] {
      var head := FolderEvents(at, ds[0], cfg);
      DirPhaseRecords(at, ds[1..], cfg);
      FolderEventsRecords(at, ds[0], cfg);
      RecordsAppend([Poll] + head, DirPhase(at, ds[1..], cfg));
      RecordsAppend([Poll], head);
      assert Records([Poll]) == [];
      forall r ensures r in Records(DirPhase(at, ds, cfg)) <==> exists d :: d in ds && FolderMatch(at, d, r, cfg) {
        if r in Records(head) {
          assert FolderMatch(at, ds[0], r, cfg);
        }
        if d :| d in ds && FolderMatch(at, d, r, cfg) {
          if d != ds[0] {
            assert d in ds[1..];
          }
        }
      }
    }
  }

  /** The file loop records exactly the matching entries. */
  lemma {:induction false} FilePhaseRecords(at: Path, fs: seq<Node>, cfg: Config)
    ensures forall r :: r in Records(FilePhase(at, fs, cfg)) <==> exists f :: f in fs && FileMatch(at, f, r, cfg)
  {
    if fs != [] {
      var head := FileEvents(at, fs[0], cfg);
      FilePhaseRecords(at, fs[1..], cfg);
      FileEventsRecords(at, fs[0], cfg);
      RecordsAppend([Poll] + head, FilePhase(at, fs[1..], cfg));
      RecordsAppend([Poll], head);
      assert Records([Poll]) == [];
      forall r ensures r in Records(FilePhase(at, fs, cfg)) <==> exists f :: f in fs && FileMatch(at, f, r, cfg) {
        if r in Records(head) {
          assert FileMatch(at, fs[0], r, cfg);
        }
        if f :| f in fs && FileMatch(at, f, r, cfg) {
          if f != fs[0] {
            assert f in fs[1..];
          }
        }
      }
    }
  }

  /**
   * Within one directory all folder records come before all file records:
   * the directory's records are its folder loop's followed by its file loop's.
   */
  lemma DirectoryOrder(at: Path, n: Node, cfg: Config)
    requires n.Dir?
    ensures Records(Own(at, n, cfg)) == Records(DirPhase(at, SubDirs(n.children), cfg)) + Records(FilePhase(at, Files(n.children), cfg))
    ensures forall r :: r in Records(DirPhase(at, SubDirs(n.children), cfg)) ==> r.itemType == "folder"
    ensures forall r :: r in Records(FilePhase(at, Files(n.children), cfg)) ==> r.itemType == "file"
  {
    var p, q := DirPhase(at, SubDirs(n.children), cfg), FilePhase(at, Files(n.children), cfg);
    RecordsAppend([Poll], p + q);
    RecordsAppend(p, q);
    assert Records([Poll]) == [];
    DirPhaseRecords(at, SubDirs(n.children), cfg);
    FilePhaseRecords(at, Files(n.children), cfg);
  }

  /** The records of one visited directory. */
  function OwnRecords(v: Frame, cfg: Config): seq<ScanResult> {
    if v.node.Dir? then Records(Own(v.at, v.node, cfg)) else []
  }

  /** A directory contributes exactly the records of its matching subdirectories and files. */
  lemma OwnRecordsMembers(v: Frame, cfg: Config)
    requires v.node.Dir?
    ensures forall r :: r in OwnRecords(v, cfg) <==> RecordAt(v, r, cfg)
  {
    DirectoryOrder(v.at, v.node, cfg);
    DirPhaseRecords(v.at, SubDirs(v.node.children), cfg);
    FilePhaseRecords(v.at, Files(v.node.children), cfg);
  }

  function AllOwnRecords(vs: seq<Frame>, cfg: Config): seq<ScanResult> {
    if vs == [] then [] else OwnRecords(vs[0], cfg) + AllOwnRecords(vs[1..], cfg)
  }

  lemma {:induction false} AllOwnRecordsAppend(a: seq<Frame>, b: seq<Frame>, cfg: Config)
    ensures AllOwnRecords(a + b, cfg) == AllOwnRecords(a, cfg) + AllOwnRecords(b, cfg)
  {
    if a == [] {
      assert a + b == b;
    } else {
      assert (a + b)[0] == a[0];
      assert (a + b)[1..] == a[1..] + b;
      AllOwnRecordsAppend(a[1..], b, cfg);
      AppendAssoc(OwnRecords(a[0], cfg), AllOwnRecords(a[1..], cfg), AllOwnRecords(b, cfg));
    }
  }

  lemma {:induction false} AllOwnRecordsMembers(vs: seq<Frame>, cfg: Config)
    ensures forall r :: r in AllOwnRecords(vs, cfg) <==> exists v :: v in vs && r in OwnRecords(v, cfg)
  {
    if vs != [] {
      AllOwnRecordsMembers(vs[1..], cfg);
      forall r ensures r in AllOwnRecords(vs, cfg) <==> exists v :: v in vs && r in OwnRecords(v, cfg) {
        if r in OwnRecords(vs[0], cfg) {
          assert vs[0] in vs;
        }
        if v :| v in vs && r in OwnRecords(v, cfg) {
          if v != vs[0] {
            assert v in vs[1..];
          }
        }
      }
    }
  }

  // ------------------------------------------------------------ the records of the walk

  /**
   * The records of the whole walk are those of the directories it enters,
   * each directory's records together, directories in pre-order.
   */
  lemma {:induction false} TraceRecordsByVisit(n: Node, at: Path, cfg: Config)
    ensures Records(Trace(n, at, cfg)) == AllOwnRecords(Visited(n, at, cfg), cfg)
    decreases n, 1
  {
    if n.Dir? && n.readable {
      var ks := KeptDirs(SubDirs(n.children), cfg);
      TracesRecordsByVisit(n, ks, at, cfg);
      RecordsAppend(Own(at, n, cfg), Traces(n, ks, at, cfg));
      AllOwnRecordsAppend([Frame(at, n)], VisitedAll(n, ks, at, cfg), cfg);
      assert [Frame(at, n)][1..] == [];
      assert AllOwnRecords([Frame(at, n)], cfg) == OwnRecords(Frame(at, n), cfg) + [];
    }
  }

  lemma {:induction false} TracesRecordsByVisit(parent: Node, ks: seq<Node>, at: Path, cfg: Config)
    requires parent.Dir? && forall x :: x in ks ==> x in parent.children
    ensures Records(Traces(parent, ks, at, cfg)) == AllOwnRecords(VisitedAll(parent, ks, at, cfg), cfg)
    decreases parent, 0, |ks|
  {
    if ks != [] {
      var k := ks[0];
      assert k in parent.children;
      TraceRecordsByVisit(k, at + [k.name], cfg);
      TracesRecordsByVisit(parent, ks[1..], at, cfg);
      RecordsAppend(Trace(k, at + [k.name], cfg), Traces(parent, ks[1..], at, cfg));
      AllOwnRecordsAppend(Visited(k, at + [k.name], cfg), VisitedAll(parent, ks[1..], at, cfg), cfg);
    }
  }

  /**
   * Soundness and completeness: a record is yielded exactly when it is the
   * record of a matching subdirectory or file of a directory the walk enters.
   */
  lemma ScanFindsExactlyTheMatches(root: Node, at: Path, cfg: Config)
    ensures forall r :: r in Records(Trace(root, at, cfg)) <==> exists v :: v in Visited(root, at, cfg) && RecordAt(v, r, cfg)
  {
    var vs := Visited(root, at, cfg);
    TraceRecordsByVisit(root, at, cfg);
    AllOwnRecordsMembers(vs, cfg);
    VisitedPaths(root, at, cfg);
    forall v | v in vs ensures forall r :: r in OwnRecords(v, cfg) <==> RecordAt(v, r, cfg) {
      OwnRecordsMembers(v, cfg);
    }
  }

  /** `p` is a proper ancestor of `q`. */
  predicate StrictPrefix(p: Path, q: Path) {
    |p| < |q| && q[..|p|] == p
  }

  /** The path of a record made in the directory `v`: one of its entries. */
  lemma RecordPath(v: Frame, r: ScanResult, cfg: Config)
    requires RecordAt(v, r, cfg)
    ensures |r.path| == |v.at| + 1 && r.path[..|v.at|] == v.at
    ensures r.itemType == "folder" ==> Truthy(MatchFolder(r.path[|v.at|], cfg.folderPatterns))
  {
    if d :| d in SubDirs(v.node.children) && FolderMatch(v.at, d, r, cfg) {
      assert r.path == v.at + [d.name];
    } else {
      var f :| f in Files(v.node.children) && FileMatch(v.at, f, r, cfg);
      assert r.path == v.at + [f.name];
    }
  }

  /** Pruning: no record lies inside a folder that was recorded. */
  lemma NothingInsideMatchedFolders(root: Node, at: Path, cfg: Config)
    ensures forall r1, r2 ::
              r1 in Records(Trace(root, at, cfg)) && r2 in Records(Trace(root, at, cfg)) && r1.itemType == "folder"
              ==> !StrictPrefix(r1.path, r2.path)
  {
    ScanFindsExactlyTheMatches(root, at, cfg);
    VisitedPaths(root, at, cfg);
    var vs := Visited(root, at, cfg);
    forall r1, r2 | r1 in Records(Trace(root, at, cfg)) && r2 in Records(Trace(root, at, cfg)) && r1.itemType == "folder"
      ensures !StrictPrefix(r1.path, r2.path)
    {
      var v1 :| v1 in vs && RecordAt(v1, r1, cfg);
      var v2 :| v2 in vs && RecordAt(v2, r2, cfg);
      RecordPath(v1, r1, cfg);
      RecordPath(v2, r2, cfg);
      if StrictPrefix(r1.path, r2.path) {
        var k := |v1.at|;
        assert r2.path[k] == r1.path[k];
        assert r2.path[k] == v2.at[k] by {
          assert r2.path[..|v2.at|] == v2.at;
        }
        assert false;
      }
    }
  }

  /**
   * Every record has a size of at least 0, and exactly 0 when sizes were
   * not asked for; its pattern is never empty; it is a folder or a file.
   */
  lemma RecordFacts(root: Node, at: Path, cfg: Config)
    ensures forall r :: r in Records(Trace(root, at, cfg)) ==>
              && r.size >= 0
              && (!cfg.includeSizes ==> r.size == 0)
              && r.matchedPattern != ""
              && (r.itemType == "folder" || r.itemType == "file")
  {
    ScanFindsExactlyTheMatches(root, at, cfg);
    var vs := Visited(root, at, cfg);
    forall r | r in Records(Trace(root, at, cfg))
      ensures r.size >= 0 && (!cfg.includeSizes ==> r.size == 0) && r.matchedPattern != "" && (r.itemType == "folder" || r.itemType == "file")
    {
      var v :| v in vs && RecordAt(v, r, cfg);
    }
  }
}
