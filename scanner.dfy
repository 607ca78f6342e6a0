/**
 * The `Scanner` object: its result list and its two flags, and the walk
 * that fills the list. `os.walk` is written out as the explicit stack it
 * keeps (top-down: a directory is listed, handed to the caller, which may
 * shrink `dirnames`, and the remaining subdirectories are then walked in
 * listing order). When `cancel` is called, and so which check of the flag
 * first sees it, is a parameter: `cancelAt == Some(k)` means the call
 * comes before check number `k`, counting from 0; `None` means it never comes.
 */
module ScanEngine {
  import opened Wrappers
  import opened FileTree
  import opened Patterns
  import opened ScanSpec

  class Scanner {
    var results: seq<ScanResult>
    var scanning: bool
    var cancelled: bool

    constructor()
      ensures results == [] && !scanning && !cancelled
    {
      results := [];
      scanning := false;
      cancelled := false;
    }

    /** `cancel`: only raises the flag. */
    method Cancel()
      modifies this
      ensures cancelled
      ensures results == old(results) && scanning == old(scanning)
    {
      cancelled := true;
    }

    /** The `is_scanning` property. */
    function IsScanning(): bool
      reads this
    {
      scanning
    }

    /** `get_size`: a file's stat size, or the stat sizes of every file `os.walk` finds below a directory. */
    static method GetSize(n: Node) returns (total: nat)
      ensures total == TreeSize(n)
    {
      if n.File? {
        return StatSize(n);
      }
      total := 0;
      var stack := [n];
      while stack != []
        invariant forall i :: 0 <= i < |stack| ==> stack[i].Dir?
        invariant total + ForestSize(stack) == TreeSize(n)
        decreases ForestWeight(stack)
      {
        var d := stack[0];
        stack := stack[1..];
        if d.readable {
          var fs := Files(d.children);
          var ds := SubDirs(d.children);
          DirSize(d);
          ForestSizeSplit(d.children);
          var i := 0;
          while i < |fs|
            invariant 0 <= i <= |fs|
            invariant total + ForestSize(fs[i..]) + ForestSize(ds) + ForestSize(stack) == TreeSize(n)
          {
            assert fs[i] in fs;
            total := total + StatSize(fs[i]);
            i := i + 1;
          }
          ForestSizeAppend(ds, stack);
          ForestWeightAppend(ds, stack);
          DirWeight(d);
          stack := ds + stack;
        }
      }
    }

    /** One check of `_cancelled`; the cancellation meant to land before check `polls` is seen here. */
    method CheckCancelled(cancelAt: Option<nat>, polls: nat) returns (stop: bool)
      requires cancelled == Landed(cancelAt, polls)
      modifies this
      ensures cancelled == Landed(cancelAt, polls + 1)
      ensures stop == cancelled
      ensures results == old(results) && scanning == old(scanning)
    {
      if cancelAt == Some(polls) {
        Cancel();
      }
      stop := cancelled;
    }

    /** The body of the `dirnames` loop after its check: the record of a matching folder, with its size only when asked for. */
    static method TestFolder(at: Path, d: Node, cfg: Config) returns (found: seq<ScanResult>, matched: bool)
      ensures found == Records(FolderEvents(at, d, cfg))
      ensures matched == Pruned(d, cfg)
    {
      FolderEventsRecords(at, d, cfg);
      var m := MatchFolder(d.name, cfg.folderPatterns);
      found, matched := [], Truthy(m);
      if Truthy(m) {
        var size := 0;
        if cfg.includeSizes {
          size := GetSize(d);
        }
        found := [ScanResult(at + [d.name], "folder", size, m.value)];
      }
    }

    /** The body of the `filenames` loop after its check: the record of a matching file; a failing `stat` gives size 0. */
    static method TestFile(at: Path, f: Node, cfg: Config) returns (found: seq<ScanResult>)
      ensures found == Records(FileEvents(at, f, cfg))
    {
      FileEventsRecords(at, f, cfg);
      var m := MatchFile(f.name, cfg.extensionPatterns);
      found := [];
      if Truthy(m) {
        var size := if cfg.includeSizes then StatSize(f) else 0;
        found := [ScanResult(at + [f.name], "file", size, m.value)];
      }
    }

    /**
     * The loop over `dirnames` (one directory's folder matches): a check
     * before each entry, and for each match a record with the folder's size
     * appended and yielded, its name noted for removal.
     */
    method ScanDirNames(at: Path, ds: seq<Node>, cfg: Config, cancelAt: Option<nat>, polls0: nat, ghost seen: seq<Event>)
      returns (added: seq<ScanResult>, toRemove: seq<string>, polls: nat)
      requires cancelled == Landed(cancelAt, polls0)
      requires !cancelled ==> polls0 == PollCount(seen) && results == Records(seen)
      requires cancelled ==> Cut(seen, cancelAt, results)
      modifies this
      ensures results == old(results) + added
      ensures cancelled == Landed(cancelAt, polls)
      ensures old(cancelled) ==> cancelled
      ensures !cancelled ==> && polls == PollCount(seen + DirPhase(at, ds, cfg))
                             && results == Records(seen + DirPhase(at, ds, cfg))
                             && toRemove == MatchedNames(ds, cfg)
      ensures cancelled ==> Cut(seen + DirPhase(at, ds, cfg), cancelAt, results)
      ensures old(cancelled) ==> added == []
    {
      added, toRemove, polls := [], [], polls0;
      ghost var full := seen + DirPhase(at, ds, cfg);
      ghost var consumed := seen;
      if cancelled {
        CutExtends(seen, DirPhase(at, ds, cfg), cancelAt, results);
      }
      var i := 0;
      while i < |ds|
        invariant 0 <= i <= |ds|
        invariant results == old(results) + added
        invariant cancelled == Landed(cancelAt, polls)
        invariant !cancelled ==> && consumed + DirPhase(at, ds[i..], cfg) == full
                                 && polls == PollCount(consumed) && results == Records(consumed)
                                 && toRemove + MatchedNames(ds[i..], cfg) == MatchedNames(ds, cfg)
        invariant cancelled == old(cancelled)
        invariant old(cancelled) ==> added == []
      {
        ghost var wasCancelled := cancelled;
        var stop := CheckCancelled(cancelAt, polls);
        polls := polls + 1;
        if stop {
          if !wasCancelled {
            DirLanding(at, ds, i, cfg, consumed, full, cancelAt);
          }
          break;
        }
        var found, matched := TestFolder(at, ds[i], cfg);
        AppendAssoc(old(results), added, found);
        results := results + found;
        added := added + found;
        DirStep(at, ds, i, cfg, consumed, toRemove, full);
        if matched {
          toRemove := toRemove + [ds[i].name];
        }
        consumed := consumed + [Poll] + FolderEvents(at, ds[i], cfg);
        i := i + 1;
      }
      if !cancelled {
        assert ds[i..] == [];
        PhaseDone(consumed, DirPhase(at, ds[i..], cfg), full);
      }
    }

    /**
     * The loop over `filenames` (one directory's file matches): a check
     * before each entry, and for each match a record with the file's stat
     * size appended and yielded.
     */
    method ScanFileNames(at: Path, fs: seq<Node>, cfg: Config, cancelAt: Option<nat>, polls0: nat, ghost seen: seq<Event>)
      returns (added: seq<ScanResult>, polls: nat)
      requires cancelled == Landed(cancelAt, polls0)
      requires !cancelled ==> polls0 == PollCount(seen) && results == Records(seen)
      requires cancelled ==> Cut(seen, cancelAt, results)
      modifies this
      ensures results == old(results) + added
      ensures cancelled == Landed(cancelAt, polls)
      ensures old(cancelled) ==> cancelled
      ensures !cancelled ==> && polls == PollCount(seen + FilePhase(at, fs, cfg))
                             && results == Records(seen + FilePhase(at, fs, cfg))
      ensures cancelled ==> Cut(seen + FilePhase(at, fs, cfg), cancelAt, results)
      ensures old(cancelled) ==> added == []
    {
      added, polls := [], polls0;
      ghost var full := seen + FilePhase(at, fs, cfg);
      ghost var consumed := seen;
      if cancelled {
        CutExtends(seen, FilePhase(at, fs, cfg), cancelAt, results);
      }
      var k := 0;
      while k < |fs|
        invariant 0 <= k <= |fs|
        invariant results == old(results) + added
        invariant cancelled == Landed(cancelAt, polls)
        invariant !cancelled ==> && consumed + FilePhase(at, fs[k..], cfg) == full
                                 && polls == PollCount(consumed) && results == Records(consumed)
        invariant cancelled == old(cancelled)
        invariant old(cancelled) ==> added == []
      {
        ghost var wasCancelled := cancelled;
        var stop := CheckCancelled(cancelAt, polls);
        polls := polls + 1;
        if stop {
          if !wasCancelled {
            FileLanding(at, fs, k, cfg, consumed, full, cancelAt);
          }
          break;
        }
        var found := TestFile(at, fs[k], cfg);
        AppendAssoc(old(results), added, found);
        results := results + found;
        added := added + found;
        FileStep(at, fs, k, cfg, consumed, full);
        consumed := consumed + [Poll] + FileEvents(at, fs[k], cfg);
        k := k + 1;
      }
      if !cancelled {
        assert fs[k..] == [];
        PhaseDone(consumed, FilePhase(at, fs[k..], cfg), full);
      }
    }

    /** `dirnames.remove(name)` for each noted name, in order. */
    static method Prune(ds: seq<Node>, toRemove: seq<string>) returns (remaining: seq<Node>)
      ensures remaining == RemoveAll(ds, toRemove)
    {
      remaining := ds;
      var j := 0;
      while j < |toRemove|
        invariant 0 <= j <= |toRemove|
        invariant RemoveAll(remaining, toRemove[j..]) == RemoveAll(ds, toRemove)
      {
        assert toRemove[j..][1..] == toRemove[j + 1..];
        remaining := RemoveFirst(remaining, toRemove[j]);
        j := j + 1;
      }
      assert toRemove[|toRemove|..] == [];
    }

    /**
     * One step of the `os.walk` loop for a directory that can be listed: the
     * check at its head, the folder loop, the pruning of `dirnames`, and the
     * file loop. It returns the frames of the subdirectories left in
     * `dirnames`, which the walk visits next.
     */
    method VisitDir(at: Path, n: Node, cfg: Config, cancelAt: Option<nat>, polls0: nat, ghost seen: seq<Event>)
      returns (added: seq<ScanResult>, pushed: seq<Frame>, polls: nat, stopped: bool)
      requires n.Dir? && n.readable
      requires cancelled == Landed(cancelAt, polls0)
      requires !cancelled ==> polls0 == PollCount(seen) && results == Records(seen)
      requires cancelled ==> Cut(seen, cancelAt, results)
      modifies this
      ensures results == old(results) + added
      ensures cancelled == Landed(cancelAt, polls)
      ensures stopped ==> cancelled
      ensures old(cancelled) ==> cancelled
      ensures !cancelled ==> && polls == PollCount(seen + Own(at, n, cfg))
                             && results == Records(seen + Own(at, n, cfg))
                             && pushed == Entries(at, KeptDirs(SubDirs(n.children), cfg))
      ensures cancelled ==> Cut(seen + Own(at, n, cfg), cancelAt, results)
      ensures old(cancelled) ==> added == []
      ensures StackWeight(pushed) < Weight(n)
    {
      DirWeight(n);
      OwnHead(seen, at, n, cfg, cancelAt, results);
      stopped := CheckCancelled(cancelAt, polls0);
      polls := polls0 + 1;
      if stopped {
        added, pushed := [], [];
        assert results == old(results) + added;
      } else {
        var remaining;
        added, remaining, polls := ScanPhases(at, SubDirs(n.children), Files(n.children), cfg, cancelAt, polls, seen + [Poll], seen + Own(at, n, cfg));
        EntriesWeight(at, remaining);
        pushed := Entries(at, remaining);
      }
    }

    /**
     * The folder loop, the removal of the matched names from `dirnames`, and
     * the file loop of one directory; what is left in `dirnames` is what the
     * walk descends into.
     */
    method ScanPhases(at: Path, ds: seq<Node>, fs: seq<Node>, cfg: Config, cancelAt: Option<nat>, polls0: nat,
                      ghost seen: seq<Event>, ghost total: seq<Event>)
      returns (added: seq<ScanResult>, remaining: seq<Node>, polls: nat)
      requires seen + DirPhase(at, ds, cfg) + FilePhase(at, fs, cfg) == total
      requires cancelled == Landed(cancelAt, polls0)
      requires !cancelled ==> polls0 == PollCount(seen) && results == Records(seen)
      requires cancelled ==> Cut(seen, cancelAt, results)
      modifies this
      ensures results == old(results) + added
      ensures cancelled == Landed(cancelAt, polls)
      ensures old(cancelled) ==> cancelled
      ensures !cancelled ==> polls == PollCount(total) && results == Records(total) && remaining == KeptDirs(ds, cfg)
      ensures cancelled ==> Cut(total, cancelAt, results)
      ensures old(cancelled) ==> added == []
      ensures ForestWeight(remaining) <= ForestWeight(ds)
    {
      var found, toRemove;
      found, toRemove, polls := ScanDirNames(at, ds, cfg, cancelAt, polls0, seen);
      added := found;
      remaining := Prune(ds, toRemove);
      found, polls := ScanFileNames(at, fs, cfg, cancelAt, polls, seen + DirPhase(at, ds, cfg));
      AppendAssoc(old(results), added, found);
      added := added + found;
      if !cancelled {
        RemovingMatchedKeepsTheRest(ds, cfg);
      }
    }

    /**
     * The walk's turn at a directory it can list, on top of the stack:
     * `VisitDir`, and how far the walk has got through the trace `T`.
     * Its subdirectories' frames go in front of the rest of the stack.
     */
    method WalkDir(stack: seq<Frame>, cfg: Config, cancelAt: Option<nat>, polls0: nat,
                   ghost consumed0: seq<Event>, ghost T: seq<Event>)
      returns (added: seq<ScanResult>, pushed: seq<Frame>, polls: nat, stopped: bool, ghost consumed: seq<Event>)
      requires stack != [] && stack[0].node.Dir? && stack[0].node.readable
      requires cancelled == Landed(cancelAt, polls0)
      requires !cancelled ==> consumed0 + StackTrace(stack, cfg) == T && polls0 == PollCount(consumed0) && results == Records(consumed0)
      requires cancelled ==> Cut(T, cancelAt, results)
      modifies this
      ensures results == old(results) + added
      ensures cancelled == Landed(cancelAt, polls)
      ensures stopped ==> cancelled
      ensures !cancelled ==> consumed + StackTrace(pushed + stack[1..], cfg) == T && polls == PollCount(consumed) && results == Records(consumed)
      ensures cancelled ==> Cut(T, cancelAt, results)
      ensures StackWeight(pushed + stack[1..]) < StackWeight(stack)
    {
      var top, rest := stack[0], stack[1..];
      assert stack == [top] + rest;
      ghost var wasCancelled := cancelled;
      ghost var before := results;
      ghost var own := Own(top.at, top.node, cfg);
      ghost var after := StackTrace(Entries(top.at, KeptDirs(SubDirs(top.node.children), cfg)) + rest, cfg);
      if !cancelled {
        VisitSplit(consumed0, top, rest, cfg, T);
      }
      added, pushed, polls, stopped := VisitDir(top.at, top.node, cfg, cancelAt, polls0, if cancelled then T else consumed0);
      consumed := consumed0;
      if wasCancelled {
        assert results == before + [] == before;
      } else if cancelled {
        CutExtends(consumed0 + own, after, cancelAt, results);
      } else {
        consumed := consumed0 + own;
      }
      StackWeightAppend(pushed, rest);
    }

    /**
     * `scan_directory`: the records yielded are the ones appended to
     * `results`, and they are exactly the records of the walk's trace that
     * precede the check the cancellation lands at (all of them when it
     * never lands). The flag ends raised exactly when a check saw it, and
     * `is_scanning` ends false.
     */
    method ScanDirectory(rootPath: Path, root: Node, cfg: Config, cancelAt: Option<nat>) returns (yielded: seq<ScanResult>)
      modifies this
      ensures yielded == results
      ensures results == Observed(Trace(root, rootPath, cfg), cancelAt)
      ensures cancelled <==> Landed(cancelAt, PollCount(Trace(root, rootPath, cfg)))
      ensures !IsScanning()
    {
      scanning := true;
      cancelled := false;
      results := [];
      yielded := [];
      ghost var T := Trace(root, rootPath, cfg);
      ghost var consumed: seq<Event> := [];
      var polls: nat := 0;
      var stack := [Frame(rootPath, root)];
      assert StackTrace(stack, cfg) == T;
      while stack != []
        invariant yielded == results
        invariant cancelled == Landed(cancelAt, polls)
        invariant !cancelled ==> consumed + StackTrace(stack, cfg) == T && polls == PollCount(consumed) && results == Records(consumed)
        invariant cancelled ==> Cut(T, cancelAt, results)
        decreases StackWeight(stack)
      {
        var top := stack[0];
        var rest := stack[1..];
        assert stack == [top] + rest;
        if top.node.File? || !top.node.readable {
          if !cancelled {
            SkipFrame(consumed, top, rest, cfg, T);
          }
          stack := rest;
          continue;
        }
        var added, pushed, stopped;
        added, pushed, polls, stopped, consumed := WalkDir(stack, cfg, cancelAt, polls, consumed, T);
        yielded := yielded + added;
        if stopped {
          break;
        }
        stack := pushed + rest;
      }
      TraceEnd(consumed, stack, cfg, T, cancelAt, polls, cancelled);
      scanning := false;
    }
  }
}
