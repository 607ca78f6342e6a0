/**
 * What `Scanner.scan_directory` does, as a sequence of events. A scan
 * checks its `_cancelled` flag once before each directory it walks and
 * once before each entry it tests (at scanner.py lines 105, 113 and 137),
 * and appends and yields a record for every match. `Trace` lists these
 * events for an uncancelled scan; a cancellation that arrives before the
 * k-th check (counting from 0) leaves exactly the records that precede
 * that check (`Before`).
 */
module ScanSpec {
  import opened Wrappers
  import opened FileTree
  import opened Patterns

  /** `ScanResult`: `itemType` is `"folder"` or `"file"`. */
  datatype ScanResult = ScanResult(path: Path, itemType: string, size: int, matchedPattern: string)

  /** The arguments of a scan besides the root. */
  datatype Config = Config(folderPatterns: seq<string>, extensionPatterns: seq<string>, includeSizes: bool)

  /** One observable step: a check of the cancel flag, or a record appended and yielded. */
  datatype Event = Poll | Emit(record: ScanResult)

  /** A directory waiting on the walk's stack, with its path. */
  datatype Frame = Frame(at: Path, node: Node)

  // ------------------------------------------------------------ one directory

  function FolderRecord(at: Path, d: Node, pattern: string, cfg: Config): ScanResult {
    ScanResult(at + [d.name], "folder", if cfg.includeSizes then TreeSize(d) else 0, pattern)
  }

  function FileRecord(at: Path, f: Node, pattern: string, cfg: Config): ScanResult {
    ScanResult(at + [f.name], "file", if cfg.includeSizes then StatSize(f) else 0, pattern)
  }

  /** A directory entry whose name matches a folder pattern is recorded and not descended into. */
  predicate Pruned(d: Node, cfg: Config) {
    Truthy(MatchFolder(d.name, cfg.folderPatterns))
  }

  /** What testing one subdirectory adds after its check: its record when it matches. */
  function FolderEvents(at: Path, d: Node, cfg: Config): seq<Event> {
    var m := MatchFolder(d.name, cfg.folderPatterns);
    if Truthy(m) then [Emit(FolderRecord(at, d, m.value, cfg))] else []
  }

  /** What testing one file adds after its check: its record when it matches. */
  function FileEvents(at: Path, f: Node, cfg: Config): seq<Event> {
    var m := MatchFile(f.name, cfg.extensionPatterns);
    if Truthy(m) then [Emit(FileRecord(at, f, m.value, cfg))] else []
  }

  /** The events for the `dirnames` of the directory at `at`. */
  function DirPhase(at: Path, ds: seq<Node>, cfg: Config): seq<Event> {
    if ds == [] then [] else [Poll] + FolderEvents(at, ds[0], cfg) + DirPhase(at, ds[1..], cfg)
  }

  /** The events for the `filenames` of the directory at `at`. */
  function FilePhase(at: Path, fs: seq<Node>, cfg: Config): seq<Event> {
    if fs == [] then [] else [Poll] + FileEvents(at, fs[0], cfg) + FilePhase(at, fs[1..], cfg)
  }

  lemma DirPhaseStep(at: Path, ds: seq<Node>, i: nat, cfg: Config)
    requires i < |ds|
    ensures DirPhase(at, ds[i..], cfg) == [Poll] + FolderEvents(at, ds[i], cfg) + DirPhase(at, ds[i + 1..], cfg)
  {
    assert ds[i..][1..] == ds[i + 1..];
  }

  lemma FilePhaseStep(at: Path, fs: seq<Node>, i: nat, cfg: Config)
    requires i < |fs|
    ensures FilePhase(at, fs[i..], cfg) == [Poll] + FileEvents(at, fs[i], cfg) + FilePhase(at, fs[i + 1..], cfg)
  {
    assert fs[i..][1..] == fs[i + 1..];
  }

  /** The subdirectories the walk descends into: those not pruned, in order. */
  function KeptDirs(ds: seq<Node>, cfg: Config): (r: seq<Node>)
    ensures forall x :: x in r ==> x in ds
  {
    if ds == [] then []
    else (if Pruned(ds[0], cfg) then [] else [ds[0]]) + KeptDirs(ds[1..], cfg)
  }

  /** The walk descends into exactly the listed subdirectories that are not pruned. */
  lemma {:induction false} KeptDirsMembers(ds: seq<Node>, cfg: Config)
    ensures forall x :: x in KeptDirs(ds, cfg) <==> x in ds && !Pruned(x, cfg)
  {
    if ds != [] {
      KeptDirsMembers(ds[1..], cfg);
      assert forall x :: x in ds <==> x == ds[0] || x in ds[1..];
    }
  }

  // ------------------------------------------------------------ pruning by list.remove

  /** `list.remove(name)` on the `dirnames` list: drops the first entry with that name. */
  function RemoveFirst(ds: seq<Node>, name: string): (r: seq<Node>)
    ensures ForestWeight(r) <= ForestWeight(ds)
  {
    if ds == [] then []
    else if ds[0].name == name then ds[1..]
    else
      var rest := RemoveFirst(ds[1..], name);
      ForestWeightAppend([ds[0]], rest);
      [ds[0]] + rest
  }

  /** Removing each name of `names` in turn. */
  function RemoveAll(ds: seq<Node>, names: seq<string>): (r: seq<Node>)
    ensures ForestWeight(r) <= ForestWeight(ds)
    decreases |names|
  {
    if names == [] then ds else RemoveAll(RemoveFirst(ds, names[0]), names[1..])
  }

  /** The names the directory loop puts on `dirs_to_remove`, in order. */
  function MatchedNames(ds: seq<Node>, cfg: Config): seq<string> {
    if ds == [] then []
    else (if Pruned(ds[0], cfg) then [ds[0].name] else []) + MatchedNames(ds[1..], cfg)
  }

  lemma {:induction false} RemoveNamesNotAtHead(d: Node, ds: seq<Node>, names: seq<string>)
    requires forall i :: 0 <= i < |names| ==> names[i] != d.name
    ensures RemoveAll([d] + ds, names) == [d] + RemoveAll(ds, names)
    decreases |names|
  {
    if names != [] {
      assert ([d] + ds)[1..] == ds;
      RemoveNamesNotAtHead(d, RemoveFirst(ds, names[0]), names[1..]);
    }
  }

  lemma {:induction false} MatchedNamesArePruned(ds: seq<Node>, cfg: Config, name: string)
    requires name in MatchedNames(ds, cfg)
    ensures Truthy(MatchFolder(name, cfg.folderPatterns))
  {
    if ds != [] && !(Pruned(ds[0], cfg) && name == ds[0].name) {
      MatchedNamesArePruned(ds[1..], cfg, name);
    }
  }

  lemma PrunedHead(ds: seq<Node>, cfg: Config)
    requires ds != [] && Pruned(ds[0], cfg)
    ensures MatchedNames(ds, cfg) == [ds[0].name] + MatchedNames(ds[1..], cfg)
    ensures KeptDirs(ds, cfg) == KeptDirs(ds[1..], cfg)
    ensures RemoveAll(ds, MatchedNames(ds, cfg)) == RemoveAll(ds[1..], MatchedNames(ds[1..], cfg))
  {
    var names := MatchedNames(ds[1..], cfg);
    assert ([ds[0].name] + names)[0] == ds[0].name;
    assert ([ds[0].name] + names)[1..] == names;
    assert RemoveFirst(ds, ds[0].name) == ds[1..];
  }

  lemma KeptHead(ds: seq<Node>, cfg: Config)
    requires ds != [] && !Pruned(ds[0], cfg)
    ensures MatchedNames(ds, cfg) == MatchedNames(ds[1..], cfg)
    ensures KeptDirs(ds, cfg) == [ds[0]] + KeptDirs(ds[1..], cfg)
    ensures RemoveAll(ds, MatchedNames(ds, cfg)) == [ds[0]] + RemoveAll(ds[1..], MatchedNames(ds[1..], cfg))
  {
    var names := MatchedNames(ds[1..], cfg);
    KeptNameNotMatched(ds[0], ds[1..], cfg);
    RemoveNamesNotAtHead(ds[0], ds[1..], names);
    assert [ds[0]] + ds[1..] == ds;
  }

  /** A directory that is not pruned shares its name with no pruned one. */
  lemma KeptNameNotMatched(d: Node, ds: seq<Node>, cfg: Config)
    requires !Pruned(d, cfg)
    ensures forall i :: 0 <= i < |MatchedNames(ds, cfg)| ==> MatchedNames(ds, cfg)[i] != d.name
  {
    var names := MatchedNames(ds, cfg);
    forall i | 0 <= i < |names| ensures names[i] != d.name {
      if names[i] == d.name {
        MatchedNamesArePruned(ds, cfg, names[i]);
      }
    }
  }

  /**
   * Removing the matched names one by one from `dirnames` leaves exactly the
   * directories that are not pruned, in their order. This holds even when
   * names repeat, because whether a directory is pruned depends on its name only.
   */
  lemma {:induction false} RemovingMatchedKeepsTheRest(ds: seq<Node>, cfg: Config)
    ensures RemoveAll(ds, MatchedNames(ds, cfg)) == KeptDirs(ds, cfg)
  {
    if ds != [] {
      RemovingMatchedKeepsTheRest(ds[1..], cfg);
      if Pruned(ds[0], cfg) {
        PrunedHead(ds, cfg);
      } else {
        KeptHead(ds, cfg);
      }
    }
  }

  // ------------------------------------------------------------ the walk

  /**
   * The events of walking `n`, found at `at`: nothing for a file or a
   * directory that cannot be listed; otherwise a check, the directory
   * phase, the file phase, and then the walks of the kept subdirectories
   * in listing order (top-down, pre-order).
   */
  function Trace(n: Node, at: Path, cfg: Config): seq<Event>
    decreases n, 1
  {
    match n
    case File(_, _, _) => []
    case Dir(_, cs, readable) =>
      if !readable then [] else Own(at, n, cfg) + Traces(n, KeptDirs(SubDirs(cs), cfg), at, cfg)
  }

  /** The events of the walk's step at one directory: its check, then its folder and file phases. */
  function Own(at: Path, n: Node, cfg: Config): seq<Event>
    requires n.Dir?
  {
    [Poll] + (DirPhase(at, SubDirs(n.children), cfg) + FilePhase(at, Files(n.children), cfg))
  }

  function Traces(parent: Node, ks: seq<Node>, at: Path, cfg: Config): seq<Event>
    requires parent.Dir? && forall x :: x in ks ==> x in parent.children
    decreases parent, 0, |ks|
  {
    if ks == [] then []
    else
      assert ks[0] in parent.children;
      Trace(ks[0], at + [ks[0].name], cfg) + Traces(parent, ks[1..], at, cfg)
  }

  /** The frames the walk pushes for the subdirectories `ks` of the directory at `at`. */
  function Entries(at: Path, ks: seq<Node>): seq<Frame> {
    if ks == [] then [] else [Frame(at + [ks[0].name], ks[0])] + Entries(at, ks[1..])
  }

  /** The events still to come for the frames on a stack, top first. */
  function StackTrace(st: seq<Frame>, cfg: Config): seq<Event> {
    if st == [] then [] else Trace(st[0].node, st[0].at, cfg) + StackTrace(st[1..], cfg)
  }

  function StackWeight(st: seq<Frame>): nat {
    if st == [] then 0 else Weight(st[0].node) + StackWeight(st[1..])
  }

  lemma {:induction false} StackTraceAppend(a: seq<Frame>, b: seq<Frame>, cfg: Config)
    ensures StackTrace(a + b, cfg) == StackTrace(a, cfg) + StackTrace(b, cfg)
  {
    if a == [] {
      assert a + b == b;
    } else {
      assert (a + b)[0] == a[0];
      assert (a + b)[1..] == a[1..] + b;
      StackTraceAppend(a[1..], b, cfg);
      EventsAssoc(Trace(a[0].node, a[0].at, cfg), StackTrace(a[1..], cfg), StackTrace(b, cfg));
    }
  }

  lemma {:induction false} StackWeightAppend(a: seq<Frame>, b: seq<Frame>)
    ensures StackWeight(a + b) == StackWeight(a) + StackWeight(b)
  {
    if a == [] {
      assert a + b == b;
    } else {
      assert (a + b)[0] == a[0];
      assert (a + b)[1..] == a[1..] + b;
      StackWeightAppend(a[1..], b);
    }
  }

  lemma {:induction false} TracesAsStack(parent: Node, ks: seq<Node>, at: Path, cfg: Config)
    requires parent.Dir? && forall x :: x in ks ==> x in parent.children
    ensures Traces(parent, ks, at, cfg) == StackTrace(Entries(at, ks), cfg)
    decreases |ks|
  {
    if ks != [] {
      TracesAsStack(parent, ks[1..], at, cfg);
      assert Entries(at, ks)[1..] == Entries(at, ks[1..]);
    }
  }

  lemma {:induction false} EntriesWeight(at: Path, ks: seq<Node>)
    ensures StackWeight(Entries(at, ks)) == ForestWeight(ks)
  {
    if ks != [] {
      EntriesWeight(at, ks[1..]);
      assert Entries(at, ks)[1..] == Entries(at, ks[1..]);
    }
  }

  // ------------------------------------------------------------ observing a trace

  /** The records of a trace, in yield order. */
  function Records(t: seq<Event>): (r: seq<ScanResult>)
    ensures |r| <= |t|
  {
    if t == [] then []
    else (if t[0].Emit? then [t[0].record] else []) + Records(t[1..])
  }

  function PollCount(t: seq<Event>): nat {
    if t == [] then 0 else (if t[0].Poll? then 1 else 0) + PollCount(t[1..])
  }

  /** The records that precede check number `k` (from 0) of `t`; all of them when `t` has no such check. */
  function Before(t: seq<Event>, k: nat): seq<ScanResult> {
    if t == [] then []
    else if t[0].Poll? then (if k == 0 then [] else Before(t[1..], k - 1))
    else [t[0].record] + Before(t[1..], k)
  }

  /** What a scan yields: everything, or what precedes the check a cancellation lands at. */
  function Observed(t: seq<Event>, cancelAt: Option<nat>): seq<ScanResult> {
    if cancelAt.Some? then Before(t, cancelAt.value) else Records(t)
  }

  /** The cancellation requested before check `cancelAt.value` has been seen once `polls` checks have run. */
  predicate Landed(cancelAt: Option<nat>, polls: nat) {
    cancelAt.Some? && cancelAt.value < polls
  }

  lemma {:induction false} RecordsAppend(a: seq<Event>, b: seq<Event>)
    ensures Records(a + b) == Records(a) + Records(b)
  {
    if a == [] {
      assert a + b == b;
    } else {
      assert (a + b)[0] == a[0];
      assert (a + b)[1..] == a[1..] + b;
      RecordsAppend(a[1..], b);
    }
  }

  lemma {:induction false} PollCountAppend(a: seq<Event>, b: seq<Event>)
    ensures PollCount(a + b) == PollCount(a) + PollCount(b)
  {
    if a == [] {
      assert a + b == b;
    } else {
      assert (a + b)[0] == a[0];
      assert (a + b)[1..] == a[1..] + b;
      PollCountAppend(a[1..], b);
    }
  }

  /** A check preceded by `c` sees exactly the records of `c`. */
  lemma {:induction false} BeforeAtPoll(c: seq<Event>, rest: seq<Event>)
    ensures Before(c + [Poll] + rest, PollCount(c)) == Records(c)
  {
    if c == [] {
      assert c + [Poll] + rest == [Poll] + rest;
    } else {
      assert (c + [Poll] + rest)[0] == c[0];
      assert (c + [Poll] + rest)[1..] == c[1..] + [Poll] + rest;
      BeforeAtPoll(c[1..], rest);
    }
  }

  /** A cancellation after the last check changes nothing. */
  lemma {:induction false} BeforeBeyond(t: seq<Event>, k: nat)
    requires k >= PollCount(t)
    ensures Before(t, k) == Records(t)
  {
    if t != [] {
      BeforeBeyond(t[1..], if t[0].Poll? then k - 1 else k);
    }
  }

  /** What a cancelled scan yields is a prefix of what the full scan yields. */
  lemma {:induction false} BeforeIsPrefix(t: seq<Event>, k: nat)
    ensures |Before(t, k)| <= |Records(t)|
    ensures Before(t, k) == Records(t)[..|Before(t, k)|]
  {
    if t != [] {
      if t[0].Poll? {
        if k > 0 {
          BeforeIsPrefix(t[1..], k - 1);
        }
      } else {
        BeforeIsPrefix(t[1..], k);
      }
    }
  }

  /** A later cancellation yields at least the records of an earlier one, in the same order. */
  lemma {:induction false} BeforeMonotone(t: seq<Event>, k: nat)
    ensures |Before(t, k)| <= |Before(t, k + 1)|
    ensures Before(t, k) == Before(t, k + 1)[..|Before(t, k)|]
  {
    if t != [] {
      if t[0].Poll? {
        if k > 0 {
          BeforeMonotone(t[1..], k - 1);
        }
      } else {
        BeforeMonotone(t[1..], k);
      }
    }
  }

  /** The records before check `k` do not depend on what comes after that check. */
  lemma {:induction false} BeforeWithin(a: seq<Event>, b: seq<Event>, k: nat)
    requires k < PollCount(a)
    ensures Before(a + b, k) == Before(a, k)
  {
    assert (a + b)[0] == a[0];
    assert (a + b)[1..] == a[1..] + b;
    if a[0].Poll? {
      if k > 0 {
        BeforeWithin(a[1..], b, k - 1);
      }
    } else {
      BeforeWithin(a[1..], b, k);
    }
  }

  /** The cancellation landed at a check within `t`, and `rs` are the records that precede it. */
  predicate Cut(t: seq<Event>, cancelAt: Option<nat>, rs: seq<ScanResult>) {
    Landed(cancelAt, PollCount(t)) && rs == Before(t, cancelAt.value)
  }

  /** Whatever follows a cut is never observed. */
  lemma CutExtends(a: seq<Event>, b: seq<Event>, cancelAt: Option<nat>, rs: seq<ScanResult>)
    requires Cut(a, cancelAt, rs)
    ensures Cut(a + b, cancelAt, rs)
  {
    BeforeWithin(a, b, cancelAt.value);
    PollCountAppend(a, b);
  }

  /** A cancellation that lands at a check leaves what preceded it. */
  lemma LandingAt(t: seq<Event>, c: seq<Event>, rest: seq<Event>, cancelAt: Option<nat>)
    requires t == c + [Poll] + rest && cancelAt == Some(PollCount(c))
    ensures Cut(t, cancelAt, Records(c))
  {
    BeforeAtPoll(c, rest);
    PollCountAppend(c + [Poll], rest);
    PollCountAppend(c, [Poll]);
  }

  /** A scan that ran all its checks unseen yields the whole trace. */
  lemma NotLanded(t: seq<Event>, cancelAt: Option<nat>)
    requires !Landed(cancelAt, PollCount(t))
    ensures Observed(t, cancelAt) == Records(t)
  {
    if cancelAt.Some? {
      BeforeBeyond(t, cancelAt.value);
    }
  }

  lemma FolderEventsRecords(at: Path, d: Node, cfg: Config)
    ensures PollCount(FolderEvents(at, d, cfg)) == 0
    ensures Records(FolderEvents(at, d, cfg)) ==
              (var m := MatchFolder(d.name, cfg.folderPatterns);
               if Truthy(m) then [FolderRecord(at, d, m.value, cfg)] else [])
  {
  }

  lemma FileEventsRecords(at: Path, f: Node, cfg: Config)
    ensures PollCount(FileEvents(at, f, cfg)) == 0
    ensures Records(FileEvents(at, f, cfg)) ==
              (var m := MatchFile(f.name, cfg.extensionPatterns);
               if Truthy(m) then [FileRecord(at, f, m.value, cfg)] else [])
  {
  }

  /** Consuming one check and what follows it, up to the next check. */
  lemma PollStep(consumed: seq<Event>, emit: seq<Event>, rest: seq<Event>, full: seq<Event>)
    requires consumed + ([Poll] + emit + rest) == full && PollCount(emit) == 0
    ensures consumed + [Poll] + emit + rest == full
    ensures PollCount(consumed + [Poll] + emit) == PollCount(consumed) + 1
    ensures Records(consumed + [Poll] + emit) == Records(consumed) + Records(emit)
  {
    StepRegroup(consumed, emit, rest);
    PollCountAppend(consumed + [Poll], emit);
    PollCountAppend(consumed, [Poll]);
    RecordsAppend(consumed + [Poll], emit);
    RecordsAppend(consumed, [Poll]);
  }

  /** One entry of the `dirnames` loop, with the check passed. */
  lemma DirStep(at: Path, ds: seq<Node>, i: nat, cfg: Config, consumed: seq<Event>, names: seq<string>, full: seq<Event>)
    requires i < |ds| && consumed + DirPhase(at, ds[i..], cfg) == full
    requires names + MatchedNames(ds[i..], cfg) == MatchedNames(ds, cfg)
    ensures consumed + [Poll] + FolderEvents(at, ds[i], cfg) + DirPhase(at, ds[i + 1..], cfg) == full
    ensures PollCount(consumed + [Poll] + FolderEvents(at, ds[i], cfg)) == PollCount(consumed) + 1
    ensures Records(consumed + [Poll] + FolderEvents(at, ds[i], cfg)) == Records(consumed) + Records(FolderEvents(at, ds[i], cfg))
    ensures (names + if Pruned(ds[i], cfg) then [ds[i].name] else []) + MatchedNames(ds[i + 1..], cfg) == MatchedNames(ds, cfg)
  {
    DirPhaseStep(at, ds, i, cfg);
    FolderEventsRecords(at, ds[i], cfg);
    PollStep(consumed, FolderEvents(at, ds[i], cfg), DirPhase(at, ds[i + 1..], cfg), full);
    assert ds[i..][0] == ds[i] && ds[i..][1..] == ds[i + 1..];
    NamesAssoc(names, if Pruned(ds[i], cfg) then [ds[i].name] else [], MatchedNames(ds[i + 1..], cfg));
  }

  /** One entry of the `filenames` loop, with the check passed. */
  lemma FileStep(at: Path, fs: seq<Node>, k: nat, cfg: Config, consumed: seq<Event>, full: seq<Event>)
    requires k < |fs| && consumed + FilePhase(at, fs[k..], cfg) == full
    ensures consumed + [Poll] + FileEvents(at, fs[k], cfg) + FilePhase(at, fs[k + 1..], cfg) == full
    ensures PollCount(consumed + [Poll] + FileEvents(at, fs[k], cfg)) == PollCount(consumed) + 1
    ensures Records(consumed + [Poll] + FileEvents(at, fs[k], cfg)) == Records(consumed) + Records(FileEvents(at, fs[k], cfg))
  {
    FilePhaseStep(at, fs, k, cfg);
    FileEventsRecords(at, fs[k], cfg);
    PollStep(consumed, FileEvents(at, fs[k], cfg), FilePhase(at, fs[k + 1..], cfg), full);
  }

  /** A cancellation landing at the check before `ds[i]` leaves what was consumed so far. */
  lemma DirLanding(at: Path, ds: seq<Node>, i: nat, cfg: Config, consumed: seq<Event>, full: seq<Event>, cancelAt: Option<nat>)
    requires i < |ds| && consumed + DirPhase(at, ds[i..], cfg) == full
    requires cancelAt == Some(PollCount(consumed))
    ensures Cut(full, cancelAt, Records(consumed))
  {
    DirPhaseStep(at, ds, i, cfg);
    LandingRegroup(consumed, FolderEvents(at, ds[i], cfg), DirPhase(at, ds[i + 1..], cfg), full);
    LandingAt(full, consumed, FolderEvents(at, ds[i], cfg) + DirPhase(at, ds[i + 1..], cfg), cancelAt);
  }

  /** A cancellation landing at the check before `fs[k]` leaves what was consumed so far. */
  lemma FileLanding(at: Path, fs: seq<Node>, k: nat, cfg: Config, consumed: seq<Event>, full: seq<Event>, cancelAt: Option<nat>)
    requires k < |fs| && consumed + FilePhase(at, fs[k..], cfg) == full
    requires cancelAt == Some(PollCount(consumed))
    ensures Cut(full, cancelAt, Records(consumed))
  {
    FilePhaseStep(at, fs, k, cfg);
    LandingRegroup(consumed, FileEvents(at, fs[k], cfg), FilePhase(at, fs[k + 1..], cfg), full);
    LandingAt(full, consumed, FileEvents(at, fs[k], cfg) + FilePhase(at, fs[k + 1..], cfg), cancelAt);
  }

  /** At the end of a phase everything has been consumed. */
  lemma PhaseDone(consumed: seq<Event>, tail: seq<Event>, full: seq<Event>)
    requires consumed + tail == full && tail == []
    ensures consumed == full
  {
  }

  /** A readable directory's trace after one unfolding, with its subdirectory walks as stack frames. */
  lemma TraceOfReadable(n: Node, at: Path, cfg: Config)
    requires n.Dir? && n.readable
    ensures Trace(n, at, cfg) == Own(at, n, cfg) + StackTrace(Entries(at, KeptDirs(SubDirs(n.children), cfg)), cfg)
  {
    TracesAsStack(n, KeptDirs(SubDirs(n.children), cfg), at, cfg);
  }

  lemma StackTraceCons(top: Frame, rest: seq<Frame>, cfg: Config)
    ensures StackTrace([top] + rest, cfg) == Trace(top.node, top.at, cfg) + StackTrace(rest, cfg)
  {
    assert ([top] + rest)[0] == top;
    assert ([top] + rest)[1..] == rest;
  }

  /**
   * Visiting the readable directory on top of the stack: its own events,
   * and then its kept subdirectories pushed in front of the rest.
   */
  lemma VisitSplit(consumed: seq<Event>, top: Frame, rest: seq<Frame>, cfg: Config, T: seq<Event>)
    requires top.node.Dir? && top.node.readable
    requires consumed + StackTrace([top] + rest, cfg) == T
    ensures consumed + Own(top.at, top.node, cfg)
              + StackTrace(Entries(top.at, KeptDirs(SubDirs(top.node.children), cfg)) + rest, cfg) == T
  {
    var kids := Entries(top.at, KeptDirs(SubDirs(top.node.children), cfg));
    StackTraceCons(top, rest, cfg);
    TraceOfReadable(top.node, top.at, cfg);
    StackTraceAppend(kids, rest, cfg);
    Regroup3(consumed, Own(top.at, top.node, cfg), StackTrace(kids, cfg), StackTrace(rest, cfg));
  }

  /** The check at the head of a directory's step. */
  lemma OwnHead(seen: seq<Event>, at: Path, n: Node, cfg: Config, cancelAt: Option<nat>, rs: seq<ScanResult>)
    requires n.Dir?
    ensures seen + Own(at, n, cfg) == seen + [Poll] + DirPhase(at, SubDirs(n.children), cfg) + FilePhase(at, Files(n.children), cfg)
    ensures PollCount(seen + [Poll]) == PollCount(seen) + 1
    ensures Records(seen + [Poll]) == Records(seen)
    ensures cancelAt == Some(PollCount(seen)) ==> Cut(seen + Own(at, n, cfg), cancelAt, Records(seen))
    ensures Cut(seen, cancelAt, rs) ==> Cut(seen + Own(at, n, cfg), cancelAt, rs)
  {
    if Cut(seen, cancelAt, rs) {
      CutExtends(seen, Own(at, n, cfg), cancelAt, rs);
    }
    var p, q := DirPhase(at, SubDirs(n.children), cfg), FilePhase(at, Files(n.children), cfg);
    HeadRegroup(seen, p, q);
    PollCountAppend(seen, [Poll]);
    RecordsAppend(seen, [Poll]);
    if cancelAt == Some(PollCount(seen)) {
      LandingAt(seen + Own(at, n, cfg), seen, p + q, cancelAt);
    }
  }

  /** Skipping a file or an unreadable directory on the stack consumes nothing. */
  lemma SkipFrame(consumed: seq<Event>, top: Frame, rest: seq<Frame>, cfg: Config, T: seq<Event>)
    requires top.node.File? || !top.node.readable
    requires consumed + StackTrace([top] + rest, cfg) == T
    ensures consumed + StackTrace(rest, cfg) == T
  {
    StackTraceCons(top, rest, cfg);
    assert Trace(top.node, top.at, cfg) == [];
    assert [] + StackTrace(rest, cfg) == StackTrace(rest, cfg);
  }

  /** When the stack is empty, the scan has observed what `Observed` says. */
  lemma TraceEnd(consumed: seq<Event>, stack: seq<Frame>, cfg: Config, T: seq<Event>, cancelAt: Option<nat>,
                 polls: nat, cancelled: bool)
    requires cancelled == Landed(cancelAt, polls)
    requires !cancelled ==> stack == [] && consumed + StackTrace(stack, cfg) == T && polls == PollCount(consumed)
    requires cancelled ==> Landed(cancelAt, PollCount(T))
    ensures cancelled <==> Landed(cancelAt, PollCount(T))
    ensures !cancelled ==> Observed(T, cancelAt) == Records(consumed)
  {
    if !cancelled {
      assert consumed + [] == consumed;
      NotLanded(T, cancelAt);
    }
  }

  // ------------------------------------------------------------ regrouping
  // Associativity steps on concatenations that the solver does not take by itself.

  lemma EventsAssoc(x: seq<Event>, y: seq<Event>, z: seq<Event>)
    ensures x + (y + z) == x + y + z
  {
  }

  lemma AppendAssoc(a: seq<ScanResult>, b: seq<ScanResult>, c: seq<ScanResult>)
    ensures a + b + c == a + (b + c)
  {
  }

  lemma StepRegroup(consumed: seq<Event>, emit: seq<Event>, rest: seq<Event>)
    ensures consumed + ([Poll] + emit + rest) == consumed + [Poll] + emit + rest
  {
  }

  lemma NamesAssoc(names: seq<string>, x: seq<string>, y: seq<string>)
    ensures (names + x) + y == names + (x + y)
  {
  }

  lemma LandingRegroup(consumed: seq<Event>, e: seq<Event>, r: seq<Event>, full: seq<Event>)
    requires consumed + ([Poll] + e + r) == full
    ensures full == consumed + [Poll] + (e + r)
  {
  }

  lemma Regroup3(a: seq<Event>, b: seq<Event>, c: seq<Event>, d: seq<Event>)
    ensures a + ((b + c) + d) == a + b + (c + d)
  {
  }

  lemma HeadRegroup(a: seq<Event>, p: seq<Event>, q: seq<Event>)
    ensures a + ([Poll] + (p + q)) == a + [Poll] + p + q
    ensures a + ([Poll] + (p + q)) == a + [Poll] + (p + q)
  {
  }
}
