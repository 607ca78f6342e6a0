/**
 * Which directories the walk reaches, and how often a path is reported.
 * The walk enters the root when it can list it, and from every directory
 * it enters it goes on into each listable subdirectory that no folder
 * pattern matched. On a tree in which no directory lists two entries
 * under one name, as on a real filesystem, no path is reported twice,
 * whether or not the scan is cancelled.
 */
module ScanReach {
  import opened Wrappers
  import opened FileTree
  import opened ScanSpec
  import opened ScanProperties

  // ------------------------------------------------------------ the directories the walk enters

  /** A listable root is the first directory the walk enters. */
  lemma VisitedRoot(n: Node, at: Path, cfg: Config)
    requires n.Dir? && n.readable
    ensures |Visited(n, at, cfg)| > 0 && Visited(n, at, cfg)[0] == Frame(at, n)
  {
  }

  lemma {:induction false} VisitedAllMembers(parent: Node, ks: seq<Node>, at: Path, cfg: Config)
    requires parent.Dir? && forall x :: x in ks ==> x in parent.children
    ensures forall v :: v in VisitedAll(parent, ks, at, cfg) <==> exists k :: k in ks && v in Visited(k, at + [k.name], cfg)
    decreases |ks|
  {
    if ks != [] {
      VisitedAllMembers(parent, ks[1..], at, cfg);
      forall v ensures v in VisitedAll(parent, ks, at, cfg) <==> exists k :: k in ks && v in Visited(k, at + [k.name], cfg) {
        if v in Visited(ks[0], at + [ks[0].name], cfg) {
          assert ks[0] in ks;
        }
        if k :| k in ks && v in Visited(k, at + [k.name], cfg) {
          if k != ks[0] {
            assert k in ks[1..];
          }
        }
      }
    }
  }

  /** From every directory it enters, the walk enters each listable subdirectory that no folder pattern matched. */
  lemma {:induction false} VisitedClosed(n: Node, at: Path, cfg: Config, v: Frame, d: Node)
    requires v in Visited(n, at, cfg) && v.node.Dir?
    requires d in SubDirs(v.node.children) && d.readable && !Pruned(d, cfg)
    ensures Frame(v.at + [d.name], d) in Visited(n, at, cfg)
    decreases n
  {
    assert n.Dir? && n.readable;
    var ks := KeptDirs(SubDirs(n.children), cfg);
    VisitedAllMembers(n, ks, at, cfg);
    if v == Frame(at, n) {
      KeptDirsMembers(SubDirs(n.children), cfg);
      assert d in ks;
      assert Visited(d, at + [d.name], cfg)[0] == Frame(at + [d.name], d);
    } else {
      var k :| k in ks && v in Visited(k, at + [k.name], cfg);
      assert k in n.children;
      VisitedClosed(k, at + [k.name], cfg, v, d);
    }
  }

  // ------------------------------------------------------------ names and paths

  /** No two entries of a listing share a name. */
  predicate DistinctNames(cs: seq<Node>) {
    forall i, j :: 0 <= i < j < |cs| ==> cs[i].name != cs[j].name
  }

  /** No directory of the tree lists two entries under one name. */
  predicate UniqueNames(n: Node)
    decreases n
  {
    n.Dir? ==> DistinctNames(n.children) && forall c :: c in n.children ==> UniqueNames(c)
  }

  /** No two records share a path. */
  predicate DistinctPaths(rs: seq<ScanResult>) {
    forall i, j :: 0 <= i < j < |rs| ==> rs[i].path != rs[j].path
  }

  /** Record `r` lies strictly below `p`. */
  predicate Below(p: Path, r: ScanResult) {
    |p| < |r.path| && r.path[..|p|] == p
  }

  lemma DistinctTail(cs: seq<Node>)
    requires cs != [] && DistinctNames(cs)
    ensures DistinctNames(cs[1..])
    ensures forall y :: y in cs[1..] ==> y.name != cs[0].name
  {
    forall i, j | 0 <= i < j < |cs[1..]| ensures cs[1..][i].name != cs[1..][j].name {
      assert cs[1..][i] == cs[i + 1] && cs[1..][j] == cs[j + 1];
    }
    forall y | y in cs[1..] ensures y.name != cs[0].name {
      var j :| 0 <= j < |cs[1..]| && cs[1..][j] == y;
      assert cs[j + 1] == y;
    }
  }

  lemma DistinctCons(h: Node, t: seq<Node>)
    requires DistinctNames(t) && forall y :: y in t ==> y.name != h.name
    ensures DistinctNames([h] + t)
  {
    forall i, j | 0 <= i < j < |[h] + t| ensures ([h] + t)[i].name != ([h] + t)[j].name {
      assert ([h] + t)[j] == t[j - 1];
      if i > 0 {
        assert ([h] + t)[i] == t[i - 1];
      } else {
        assert t[j - 1] in t;
      }
    }
  }

  /** Two different entries of a listing with distinct names have different names. */
  lemma DifferentEntries(cs: seq<Node>, x: Node, y: Node)
    requires DistinctNames(cs) && x in cs && y in cs && x != y
    ensures x.name != y.name
  {
    var i :| 0 <= i < |cs| && cs[i] == x;
    var j :| 0 <= j < |cs| && cs[j] == y;
    assert i != j;
    if i < j {
      assert cs[i].name != cs[j].name;
    } else {
      assert cs[j].name != cs[i].name;
    }
  }

  lemma {:induction false} SubDirsDistinct(cs: seq<Node>)
    requires DistinctNames(cs)
    ensures DistinctNames(SubDirs(cs))
  {
    if cs != [] {
      DistinctTail(cs);
      SubDirsDistinct(cs[1..]);
      if cs[0].Dir? {
        DistinctCons(cs[0], SubDirs(cs[1..]));
      } else {
        assert SubDirs(cs) == SubDirs(cs[1..]);
      }
    }
  }

  lemma {:induction false} FilesDistinct(cs: seq<Node>)
    requires DistinctNames(cs)
    ensures DistinctNames(Files(cs))
  {
    if cs != [] {
      DistinctTail(cs);
      FilesDistinct(cs[1..]);
      if cs[0].File? {
        DistinctCons(cs[0], Files(cs[1..]));
      } else {
        assert Files(cs) == Files(cs[1..]);
      }
    }
  }

  lemma {:induction false} KeptDirsDistinct(ds: seq<Node>, cfg: Config)
    requires DistinctNames(ds)
    ensures DistinctNames(KeptDirs(ds, cfg))
  {
    if ds != [] {
      DistinctTail(ds);
      KeptDirsDistinct(ds[1..], cfg);
      if !Pruned(ds[0], cfg) {
        assert KeptDirs(ds, cfg) == [ds[0]] + KeptDirs(ds[1..], cfg);
        DistinctCons(ds[0], KeptDirs(ds[1..], cfg));
      } else {
        assert KeptDirs(ds, cfg) == KeptDirs(ds[1..], cfg);
      }
    }
  }

  lemma DistinctAppend(a: seq<ScanResult>, b: seq<ScanResult>)
    requires DistinctPaths(a) && DistinctPaths(b)
    requires forall x, y :: x in a && y in b ==> x.path != y.path
    ensures DistinctPaths(a + b)
  {
    forall i, j | 0 <= i < j < |a + b| ensures (a + b)[i].path != (a + b)[j].path {
      if j < |a| {
        assert (a + b)[i] == a[i] && (a + b)[j] == a[j];
      } else if i >= |a| {
        assert (a + b)[i] == b[i - |a|] && (a + b)[j] == b[j - |a|];
      } else {
        assert (a + b)[i] == a[i] && (a + b)[j] == b[j - |a|];
        assert a[i] in a && b[j - |a|] in b;
      }
    }
  }

  lemma DistinctPrefix(rs: seq<ScanResult>, m: nat)
    requires DistinctPaths(rs) && m <= |rs|
    ensures DistinctPaths(rs[..m])
  {
    forall i, j | 0 <= i < j < m ensures rs[..m][i].path != rs[..m][j].path {
      assert rs[..m][i] == rs[i] && rs[..m][j] == rs[j];
    }
  }

  /** The component a record adds right after `p`, when it lies below `p`. */
  lemma ComponentAfter(p: Path, name: string, r: ScanResult)
    requires |p| < |r.path| && r.path[..|p| + 1] == p + [name]
    ensures r.path[|p|] == name
  {
    assert r.path[..|p| + 1][|p|] == r.path[|p|];
  }

  // ------------------------------------------------------------ one directory reports each path once

  /** Testing one subdirectory reports at most its own path. */
  lemma FolderEventsPath(at: Path, d: Node, cfg: Config)
    ensures DistinctPaths(Records(FolderEvents(at, d, cfg)))
    ensures forall r :: r in Records(FolderEvents(at, d, cfg)) ==> r.path == at + [d.name]
  {
    FolderEventsRecords(at, d, cfg);
  }

  /** Testing one file reports at most its own path. */
  lemma FileEventsPath(at: Path, f: Node, cfg: Config)
    ensures DistinctPaths(Records(FileEvents(at, f, cfg)))
    ensures forall r :: r in Records(FileEvents(at, f, cfg)) ==> r.path == at + [f.name]
  {
    FileEventsRecords(at, f, cfg);
  }

  /** The records of one loop iteration followed by the rest of the loop. */
  lemma PhaseRecords(head: seq<Event>, rest: seq<Event>)
    ensures Records([Poll] + head + rest) == Records(head) + Records(rest)
  {
    RecordsAppend([Poll] + head, rest);
    RecordsAppend([Poll], head);
    assert Records([Poll]) == [];
  }

  /** The folder loop reports distinct paths, each one a subdirectory's. */
  lemma {:induction false} DirPhaseDistinct(at: Path, ds: seq<Node>, cfg: Config)
    requires DistinctNames(ds)
    ensures DistinctPaths(Records(DirPhase(at, ds, cfg)))
    ensures forall r :: r in Records(DirPhase(at, ds, cfg)) ==> exists d :: d in ds && r.path == at + [d.name]
  {
    if ds != [] {
      DistinctTail(ds);
      DirPhaseDistinct(at, ds[1..], cfg);
      var head := FolderEvents(at, ds[0], cfg);
      FolderEventsPath(at, ds[0], cfg);
      PhaseRecords(head, DirPhase(at, ds[1..], cfg));
      var a, b := Records(head), Records(DirPhase(at, ds[1..], cfg));
      forall x, y | x in a && y in b ensures x.path != y.path {
        var d :| d in ds[1..] && y.path == at + [d.name];
        ComponentAfter(at, ds[0].name, x);
        ComponentAfter(at, d.name, y);
      }
      DistinctAppend(a, b);
      forall r | r in a + b ensures exists d :: d in ds && r.path == at + [d.name] {
        if r in a {
          assert ds[0] in ds;
        } else {
          var d :| d in ds[1..] && r.path == at + [d.name];
          assert d in ds;
        }
      }
    }
  }

  /** The file loop reports distinct paths, each one a file's. */
  lemma {:induction false} FilePhaseDistinct(at: Path, fs: seq<Node>, cfg: Config)
    requires DistinctNames(fs)
    ensures DistinctPaths(Records(FilePhase(at, fs, cfg)))
    ensures forall r :: r in Records(FilePhase(at, fs, cfg)) ==> exists f :: f in fs && r.path == at + [f.name]
  {
    if fs != [] {
      DistinctTail(fs);
      FilePhaseDistinct(at, fs[1..], cfg);
      var head := FileEvents(at, fs[0], cfg);
      FileEventsPath(at, fs[0], cfg);
      PhaseRecords(head, FilePhase(at, fs[1..], cfg));
      var a, b := Records(head), Records(FilePhase(at, fs[1..], cfg));
      forall x, y | x in a && y in b ensures x.path != y.path {
        var f :| f in fs[1..] && y.path == at + [f.name];
        ComponentAfter(at, fs[0].name, x);
        ComponentAfter(at, f.name, y);
      }
      DistinctAppend(a, b);
      forall r | r in a + b ensures exists f :: f in fs && r.path == at + [f.name] {
        if r in a {
          assert fs[0] in fs;
        } else {
          var f :| f in fs[1..] && r.path == at + [f.name];
          assert f in fs;
        }
      }
    }
  }

  /** A directory's step reports its folder loop's records, then its file loop's. */
  lemma OwnSplit(at: Path, n: Node, cfg: Config)
    requires n.Dir?
    ensures Records(Own(at, n, cfg)) ==
              Records(DirPhase(at, SubDirs(n.children), cfg)) + Records(FilePhase(at, Files(n.children), cfg))
  {
    var ds, fs := DirPhase(at, SubDirs(n.children), cfg), FilePhase(at, Files(n.children), cfg);
    RecordsAppend(ds, fs);
    RecordsAppend([Poll], ds + fs);
    assert Records([Poll]) == [];
  }

  /** No subdirectory shares its path with a file of the same directory. */
  lemma PhasesApart(at: Path, cs: seq<Node>, a: seq<ScanResult>, b: seq<ScanResult>)
    requires DistinctNames(cs)
    requires forall r :: r in a ==> exists d :: d in SubDirs(cs) && r.path == at + [d.name]
    requires forall r :: r in b ==> exists f :: f in Files(cs) && r.path == at + [f.name]
    ensures forall x, y :: x in a && y in b ==> x.path != y.path
  {
    forall x, y | x in a && y in b ensures x.path != y.path {
      var d :| d in SubDirs(cs) && x.path == at + [d.name];
      var f :| f in Files(cs) && y.path == at + [f.name];
      DifferentEntries(cs, d, f);
      ComponentAfter(at, d.name, x);
      ComponentAfter(at, f.name, y);
    }
  }

  /** One directory's step reports distinct paths, all of them one level below it. */
  lemma OwnDistinct(at: Path, n: Node, cfg: Config)
    requires n.Dir? && DistinctNames(n.children)
    ensures DistinctPaths(Records(Own(at, n, cfg)))
    ensures forall r :: r in Records(Own(at, n, cfg)) ==> |r.path| == |at| + 1
  {
    var cs := n.children;
    SubDirsDistinct(cs);
    FilesDistinct(cs);
    DirPhaseDistinct(at, SubDirs(cs), cfg);
    FilePhaseDistinct(at, Files(cs), cfg);
    var a, b := Records(DirPhase(at, SubDirs(cs), cfg)), Records(FilePhase(at, Files(cs), cfg));
    OwnSplit(at, n, cfg);
    PhasesApart(at, cs, a, b);
    DistinctAppend(a, b);
  }

  // ------------------------------------------------------------ the whole walk

  /** Everything the walk of `n` reports lies strictly below `at`. */
  lemma TraceBelow(n: Node, at: Path, cfg: Config)
    ensures forall r :: r in Records(Trace(n, at, cfg)) ==> Below(at, r)
  {
    ScanFindsExactlyTheMatches(n, at, cfg);
    VisitedPaths(n, at, cfg);
    forall r | r in Records(Trace(n, at, cfg)) ensures Below(at, r) {
      var v :| v in Visited(n, at, cfg) && RecordAt(v, r, cfg);
      RecordPath(v, r, cfg);
      assert r.path[..|at|] == r.path[..|v.at|][..|at|];
    }
  }

  /** The walks of the subdirectories `ks` report only paths below one of them. */
  lemma {:induction false} TracesBelow(parent: Node, ks: seq<Node>, at: Path, cfg: Config)
    requires parent.Dir? && forall x :: x in ks ==> x in parent.children
    ensures forall r :: r in Records(Traces(parent, ks, at, cfg)) ==> exists k :: k in ks && Below(at + [k.name], r)
    decreases |ks|
  {
    if ks != [] {
      TraceBelow(ks[0], at + [ks[0].name], cfg);
      TracesBelow(parent, ks[1..], at, cfg);
      RecordsAppend(Trace(ks[0], at + [ks[0].name], cfg), Traces(parent, ks[1..], at, cfg));
      forall r | r in Records(Traces(parent, ks, at, cfg)) ensures exists k :: k in ks && Below(at + [k.name], r) {
        if r in Records(Trace(ks[0], at + [ks[0].name], cfg)) {
          assert ks[0] in ks;
        } else {
          var k :| k in ks[1..] && Below(at + [k.name], r);
          assert k in ks;
        }
      }
    }
  }

  /** On a tree with unique names, the walk of `n` reports each path at most once. */
  lemma {:induction false} TraceDistinct(n: Node, at: Path, cfg: Config)
    requires UniqueNames(n)
    ensures DistinctPaths(Records(Trace(n, at, cfg)))
    decreases n, 1
  {
    if n.Dir? && n.readable {
      var ks := KeptDirs(SubDirs(n.children), cfg);
      SubDirsDistinct(n.children);
      KeptDirsDistinct(SubDirs(n.children), cfg);
      OwnDistinct(at, n, cfg);
      TracesDistinct(n, ks, at, cfg);
      TracesBelow(n, ks, at, cfg);
      RecordsAppend(Own(at, n, cfg), Traces(n, ks, at, cfg));
      forall x, y | x in Records(Own(at, n, cfg)) && y in Records(Traces(n, ks, at, cfg)) ensures x.path != y.path {
        var k :| k in ks && Below(at + [k.name], y);
      }
      DistinctAppend(Records(Own(at, n, cfg)), Records(Traces(n, ks, at, cfg)));
    }
  }

  lemma {:induction false} TracesDistinct(parent: Node, ks: seq<Node>, at: Path, cfg: Config)
    requires parent.Dir? && forall x :: x in ks ==> x in parent.children
    requires DistinctNames(ks) && forall x :: x in ks ==> UniqueNames(x)
    ensures DistinctPaths(Records(Traces(parent, ks, at, cfg)))
    decreases parent, 0, |ks|
  {
    if ks != [] {
      var k := ks[0];
      assert k in parent.children;
      DistinctTail(ks);
      TraceDistinct(k, at + [k.name], cfg);
      TracesDistinct(parent, ks[1..], at, cfg);
      TraceBelow(k, at + [k.name], cfg);
      TracesBelow(parent, ks[1..], at, cfg);
      var a, b := Records(Trace(k, at + [k.name], cfg)), Records(Traces(parent, ks[1..], at, cfg));
      RecordsAppend(Trace(k, at + [k.name], cfg), Traces(parent, ks[1..], at, cfg));
      forall x, y | x in a && y in b ensures x.path != y.path {
        var k2 :| k2 in ks[1..] && Below(at + [k2.name], y);
        assert x.path[..|at| + 1] == at + [k.name];
        assert y.path[..|at| + 1] == at + [k2.name];
        ComponentAfter(at, k.name, x);
        ComponentAfter(at, k2.name, y);
      }
      DistinctAppend(a, b);
    }
  }

  /**
   * `scan_directory` over a tree with unique names yields no path twice,
   * whether it runs to the end or is cancelled part-way.
   */
  lemma ScanYieldsEachPathOnce(root: Node, at: Path, cfg: Config, cancelAt: Option<nat>)
    requires UniqueNames(root)
    ensures DistinctPaths(Observed(Trace(root, at, cfg), cancelAt))
  {
    var t := Trace(root, at, cfg);
    TraceDistinct(root, at, cfg);
    if cancelAt.Some? {
      BeforeIsPrefix(t, cancelAt.value);
      DistinctPrefix(Records(t), |Before(t, cancelAt.value)|);
    }
  }
}
