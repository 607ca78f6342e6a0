// The state logic of the terminal front end (app.py): the list of folders to scan, the scan results and the set
// of selected result indices, the scan session that fills them, the deletion batch and the confirmation
// dialog's totals. Widgets, notifications and status lines are not modelled; the filesystem is a set of paths.

module Cleaner {
  import opened Wrappers
  import opened Text
  import opened FileTree
  import opened Patterns
  import opened ScanSpec
  import opened ScanEngine

  // ------------------------------------------------------------ indices and selections

  /** The indices `lo`, ..., `hi - 1`. */
  function IndexRange(lo: int, hi: int): set<int>
    decreases hi - lo
  {
    if hi <= lo then {} else IndexRange(lo, hi - 1) + {hi - 1}
  }

  lemma {:induction false} IndexRangeMembers(lo: int, hi: int)
    ensures forall i :: i in IndexRange(lo, hi) <==> lo <= i < hi
    decreases hi - lo
  {
    if lo < hi {
      IndexRangeMembers(lo, hi - 1);
    }
  }

  /** `set(range(n))`: every index of a list of length `n`. */
  function AllIndices(n: nat): set<int> {
    IndexRange(0, n)
  }

  lemma IndexRangeSnoc(lo: int, hi: int)
    requires lo <= hi
    ensures IndexRange(lo, hi + 1) == IndexRange(lo, hi) + {hi}
  {
  }

  lemma {:induction false} IndexRangeJoin(a: int, b: int, c: int)
    requires a <= b <= c
    ensures IndexRange(a, b) + IndexRange(b, c) == IndexRange(a, c)
    decreases c - b
  {
    if b < c {
      IndexRangeJoin(a, b, c - 1);
    }
  }

  /** A list of length `n` has exactly `n` indices. */
  lemma {:induction false} AllIndicesSize(n: nat)
    ensures |AllIndices(n)| == n
  {
    if n > 0 {
      AllIndicesSize(n - 1);
      IndexRangeMembers(0, n - 1);
      assert n - 1 !in AllIndices(n - 1);
    }
  }

  /** The selection after `toggle_selection(i)`. */
  function Toggled(sel: set<int>, i: int): (r: set<int>)
    ensures i in r <==> i !in sel
    ensures forall j :: j != i ==> (j in r <==> j in sel)
  {
    if i in sel then sel - {i} else sel + {i}
  }

  /** Toggling a row twice restores the selection. */
  lemma ToggleTwice(sel: set<int>, i: int)
    ensures Toggled(Toggled(sel, i), i) == sel
  {
    assert forall j :: j in Toggled(Toggled(sel, i), i) <==> j in sel;
  }

  /** Toggling changes the number of selected rows by exactly one. */
  lemma ToggleSize(sel: set<int>, i: int)
    ensures i in sel ==> |Toggled(sel, i)| == |sel| - 1
    ensures i !in sel ==> |Toggled(sel, i)| == |sel| + 1
  {
  }

  // ------------------------------------------------------------ the folder list

  predicate NoDuplicates(s: seq<Path>) {
    forall i, j :: 0 <= i < j < |s| ==> s[i] != s[j]
  }

  /** `list.pop(i)`. */
  function RemoveAt(s: seq<Path>, i: nat): (r: seq<Path>)
    requires i < |s|
    ensures |r| == |s| - 1
    ensures forall k :: 0 <= k < i ==> r[k] == s[k]
    ensures forall k :: i <= k < |r| ==> r[k] == s[k + 1]
  {
    s[..i] + s[i + 1..]
  }

  /** Popping an element keeps every other element, and nothing else comes in. */
  lemma RemoveAtMembers(s: seq<Path>, i: nat)
    requires i < |s|
    ensures multiset(RemoveAt(s, i)) + multiset{s[i]} == multiset(s)
  {
    assert s == s[..i] + [s[i]] + s[i + 1..];
  }

  /** Appending what is not yet in the list keeps it free of duplicates. */
  lemma AppendNewKeepsDistinct(s: seq<Path>, p: Path)
    requires NoDuplicates(s) && p !in s
    ensures NoDuplicates(s + [p])
  {
    forall i, j | 0 <= i < j < |s + [p]|
      ensures (s + [p])[i] != (s + [p])[j]
    {
      if j == |s| {
        assert (s + [p])[i] == s[i];
      }
    }
  }

  /** Popping an element keeps the list free of duplicates. */
  lemma RemoveAtKeepsDistinct(s: seq<Path>, i: nat)
    requires i < |s| && NoDuplicates(s)
    ensures NoDuplicates(RemoveAt(s, i))
  {
    var r := RemoveAt(s, i);
    forall a, b | 0 <= a < b < |r|
      ensures r[a] != r[b]
    {
      var a' := if a < i then a else a + 1;
      var b' := if b < i then b else b + 1;
      assert r[a] == s[a'] && r[b] == s[b'];
    }
  }

  /** What `add_directory` reports; the notification it shows in each case. */
  datatype AddOutcome = EmptyInput | NotFound | NotAFolder | AlreadyAdded | Added

  // ------------------------------------------------------------ one scan session

  /** The records one folder's `scan_directory` produces in full. */
  function ScanOf(dir: Path, disk: Path -> Node, cfg: Config): seq<ScanResult> {
    Records(Trace(disk(dir), dir, cfg))
  }

  /** The results of one folder as `perform_scan` takes them: `worker.is_cancelled` is checked before each one. */
  function ResultEvents(rs: seq<ScanResult>): seq<Event> {
    if rs == [] then [] else [Poll, Emit(rs[0])] + ResultEvents(rs[1..])
  }

  /** A whole scan session: a check before each folder, then that folder's results. */
  function SessionTrace(dirs: seq<Path>, disk: Path -> Node, cfg: Config): seq<Event> {
    if dirs == [] then []
    else [Poll] + ResultEvents(ScanOf(dirs[0], disk, cfg)) + SessionTrace(dirs[1..], disk, cfg)
  }

  /** Every folder's records, folder after folder. */
  function ScanAll(dirs: seq<Path>, disk: Path -> Node, cfg: Config): seq<ScanResult> {
    if dirs == [] then [] else ScanOf(dirs[0], disk, cfg) + ScanAll(dirs[1..], disk, cfg)
  }

  lemma {:induction false} ResultEventsRecords(rs: seq<ScanResult>)
    ensures Records(ResultEvents(rs)) == rs
    ensures PollCount(ResultEvents(rs)) == |rs|
  {
    if rs != [] {
      ResultEventsRecords(rs[1..]);
      RecordsAppend([Poll, Emit(rs[0])], ResultEvents(rs[1..]));
      PollCountAppend([Poll, Emit(rs[0])], ResultEvents(rs[1..]));
      assert [Poll, Emit(rs[0])][1..] == [Emit(rs[0])];
    }
  }

  /** The check before a folder and that folder's results, in front of the rest of a session. */
  lemma HeadCounts(head: seq<Event>, tail: seq<Event>, rs: seq<ScanResult>)
    requires Records(head) == rs && PollCount(head) == |rs|
    ensures Records([Poll] + head + tail) == rs + Records(tail)
    ensures PollCount([Poll] + head + tail) == 1 + |rs| + PollCount(tail)
  {
    RecordsAppend([Poll] + head, tail);
    RecordsAppend([Poll], head);
    PollCountAppend([Poll] + head, tail);
    PollCountAppend([Poll], head);
  }

  /** An uninterrupted session takes every folder's records, in folder order. */
  lemma {:induction false} SessionRecords(dirs: seq<Path>, disk: Path -> Node, cfg: Config)
    ensures Records(SessionTrace(dirs, disk, cfg)) == ScanAll(dirs, disk, cfg)
    ensures PollCount(SessionTrace(dirs, disk, cfg)) == |dirs| + |ScanAll(dirs, disk, cfg)|
  {
    if dirs != [] {
      var rs := ScanOf(dirs[0], disk, cfg);
      SessionRecords(dirs[1..], disk, cfg);
      ResultEventsRecords(rs);
      HeadCounts(ResultEvents(rs), SessionTrace(dirs[1..], disk, cfg), rs);
    }
  }

  /** A session cut short by a cancellation takes a prefix of what the uninterrupted one takes. */
  lemma SessionPrefix(dirs: seq<Path>, disk: Path -> Node, cfg: Config, cancelAt: Option<nat>)
    ensures var found := Observed(SessionTrace(dirs, disk, cfg), cancelAt);
            |found| <= |ScanAll(dirs, disk, cfg)| && found == ScanAll(dirs, disk, cfg)[..|found|]
    ensures cancelAt.None? ==> Observed(SessionTrace(dirs, disk, cfg), cancelAt) == ScanAll(dirs, disk, cfg)
  {
    SessionRecords(dirs, disk, cfg);
    if cancelAt.Some? {
      BeforeIsPrefix(SessionTrace(dirs, disk, cfg), cancelAt.value);
    }
  }

  /** A result of a session comes from one of the listed folders, and every folder's results are taken. */
  lemma {:induction false} ScanAllMembers(dirs: seq<Path>, disk: Path -> Node, cfg: Config, r: ScanResult)
    ensures r in ScanAll(dirs, disk, cfg) <==> exists k :: 0 <= k < |dirs| && r in ScanOf(dirs[k], disk, cfg)
  {
    if dirs != [] {
      ScanAllMembers(dirs[1..], disk, cfg, r);
      if r in ScanOf(dirs[0], disk, cfg) {
        assert r in ScanAll(dirs, disk, cfg);
      }
      if exists k :: 0 <= k < |dirs[1..]| && r in ScanOf(dirs[1..][k], disk, cfg) {
        var k :| 0 <= k < |dirs[1..]| && r in ScanOf(dirs[1..][k], disk, cfg);
        assert dirs[1..][k] == dirs[k + 1];
      }
      if exists k :: 0 <= k < |dirs| && r in ScanOf(dirs[k], disk, cfg) {
        var k :| 0 <= k < |dirs| && r in ScanOf(dirs[k], disk, cfg);
        if k > 0 {
          assert dirs[1..][k - 1] == dirs[k];
        }
      }
    }
  }

  /** Folder `d` of a session: its check, its results, then the folders after it. */
  lemma SessionUnfold(dirs: seq<Path>, d: nat, disk: Path -> Node, cfg: Config)
    requires d < |dirs|
    ensures SessionTrace(dirs[d..], disk, cfg)
         == [Poll] + ResultEvents(ScanOf(dirs[d], disk, cfg)) + SessionTrace(dirs[d + 1..], disk, cfg)
  {
    assert dirs[d..][0] == dirs[d];
    assert dirs[d..][1..] == dirs[d + 1..];
  }

  /** Result `j` of a folder: its check, the result, then the results after it. */
  lemma ResultUnfold(ys: seq<ScanResult>, j: nat)
    requires j < |ys|
    ensures ResultEvents(ys[j..]) == [Poll, Emit(ys[j])] + ResultEvents(ys[j + 1..])
  {
    assert ys[j..][0] == ys[j];
    assert ys[j..][1..] == ys[j + 1..];
  }

  /** A check that is passed moves from what remains of a trace to what has been seen. */
  lemma CheckStep(seen: seq<Event>, head: seq<Event>, tail: seq<Event>, T: seq<Event>)
    requires seen + ([Poll] + head + tail) == T
    ensures T == seen + [Poll] + (head + tail)
    ensures T == (seen + [Poll]) + head + tail
    ensures Records(seen + [Poll]) == Records(seen)
    ensures PollCount(seen + [Poll]) == PollCount(seen) + 1
  {
    RecordsAppend(seen, [Poll]);
    PollCountAppend(seen, [Poll]);
  }

  /** A result taken after its check moves from what remains of a trace to what has been seen. */
  lemma EmitStep(seen: seq<Event>, y: ScanResult, rest: seq<Event>, tail: seq<Event>, T: seq<Event>)
    requires seen + ([Poll, Emit(y)] + rest) + tail == T
    ensures T == seen + [Poll] + ([Emit(y)] + rest + tail)
    ensures T == (seen + [Poll, Emit(y)]) + rest + tail
    ensures Records(seen + [Poll, Emit(y)]) == Records(seen) + [y]
    ensures PollCount(seen + [Poll, Emit(y)]) == PollCount(seen) + 1
  {
    assert [Poll, Emit(y)] == [Poll] + [Emit(y)];
    assert [Poll, Emit(y)][1..] == [Emit(y)];
    assert [Emit(y)][1..] == [];
    assert PollCount([Emit(y)]) == 0;
    assert PollCount([Poll, Emit(y)]) == 1;
    RecordsAppend(seen, [Poll, Emit(y)]);
    PollCountAppend(seen, [Poll, Emit(y)]);
  }

  /**
   * Where a session stands after `checks` checks: once the cancellation has landed, `found` are the results
   * before it; until then `seen` is the part of `T` already run, `rest` the part still to come.
   */
  ghost predicate Progress(T: seq<Event>, seen: seq<Event>, rest: seq<Event>, checks: nat, found: seq<ScanResult>,
                           cancelAt: Option<nat>)
  {
    if Landed(cancelAt, checks) then Cut(T, cancelAt, found)
    else seen + rest == T && checks == PollCount(seen) && found == Records(seen)
  }

  /** A check that does not see the cancellation moves on; one that sees it ends the session where it stands. */
  lemma PassCheck(T: seq<Event>, seen: seq<Event>, rest: seq<Event>, checks: nat, found: seq<ScanResult>,
                  cancelAt: Option<nat>)
    requires Progress(T, seen, [Poll] + rest, checks, found, cancelAt)
    ensures Progress(T, seen + [Poll], rest, checks + 1, found, cancelAt)
  {
    if !Landed(cancelAt, checks) {
      CheckStep(seen, [], rest, T);
      if Landed(cancelAt, checks + 1) {
        LandingAt(T, seen, rest, cancelAt);
      }
    }
  }

  /** A check before a result: one that sees the cancellation ends the session, otherwise the result is taken. */
  lemma TakeStep(T: seq<Event>, seen: seq<Event>, y: ScanResult, rest: seq<Event>, checks: nat,
                 found: seq<ScanResult>, cancelAt: Option<nat>)
    requires Progress(T, seen, [Poll, Emit(y)] + rest, checks, found, cancelAt)
    ensures Landed(cancelAt, checks + 1) ==> Cut(T, cancelAt, found)
    ensures !Landed(cancelAt, checks + 1) ==> Progress(T, seen + [Poll, Emit(y)], rest, checks + 1, found + [y], cancelAt)
  {
    if !Landed(cancelAt, checks) {
      EmitStep(seen, y, rest, [], T);
      assert rest + [] == rest;
      if Landed(cancelAt, checks + 1) {
        LandingAt(T, seen, [Emit(y)] + rest, cancelAt);
      }
    }
  }

  // ------------------------------------------------------------ the deletion batch

  /** `sorted(selected, reverse=True)` for a selection of indices below `n`. */
  function DescendingIndices(sel: set<int>, n: nat): (r: seq<int>)
    ensures forall k :: 0 <= k < |r| ==> 0 <= r[k] < n
  {
    if n == 0 then [] else (if n - 1 in sel then [n - 1] else []) + DescendingIndices(sel, n - 1)
  }

  /** The indices come highest first, each selected one exactly once. */
  lemma {:induction false} DescendingIndicesSpec(sel: set<int>, n: nat)
    ensures var r := DescendingIndices(sel, n);
            && (forall a, b :: 0 <= a < b < |r| ==> r[a] > r[b])
            && (forall i :: i in r <==> i in sel && 0 <= i < n)
  {
    if n > 0 {
      DescendingIndicesSpec(sel, n - 1);
    }
  }

  /** The deletion batch: the selected results, highest index first. */
  function Batch(results: seq<ScanResult>, sel: set<int>): seq<ScanResult> {
    var idx := DescendingIndices(sel, |results|);
    seq(|idx|, k requires 0 <= k < |idx| => results[idx[k]])
  }

  /** With every selected index in range, the batch holds each selected result once, highest index first. */
  lemma BatchOrder(results: seq<ScanResult>, sel: set<int>)
    requires forall i :: i in sel ==> 0 <= i < |results|
    ensures var idx := DescendingIndices(sel, |results|);
            && |Batch(results, sel)| == |idx| == |sel|
            && (forall k :: 0 <= k < |idx| ==> Batch(results, sel)[k] == results[idx[k]])
            && (forall a, b :: 0 <= a < b < |idx| ==> idx[a] > idx[b])
            && (forall i :: i in idx <==> i in sel)
  {
    var idx := DescendingIndices(sel, |results|);
    DescendingIndicesSpec(sel, |results|);
    DistinctCount(idx, sel);
  }

  /** A strictly decreasing sequence whose elements are those of `s` is as long as `s` is large. */
  lemma {:induction false} DistinctCount(idx: seq<int>, s: set<int>)
    requires forall a, b :: 0 <= a < b < |idx| ==> idx[a] > idx[b]
    requires forall i :: i in idx <==> i in s
    ensures |idx| == |s|
  {
    if idx != [] {
      assert idx[0] in idx;
      forall i | i in idx[1..]
        ensures i in s - {idx[0]}
      {
        var k :| 0 <= k < |idx[1..]| && idx[1..][k] == i;
        assert idx[k + 1] == i;
      }
      forall i | i in s - {idx[0]}
        ensures i in idx[1..]
      {
        var k :| 0 <= k < |idx| && idx[k] == i;
        assert k != 0;
        assert idx[1..][k - 1] == i;
      }
      DistinctCount(idx[1..], s - {idx[0]});
      assert |s - {idx[0]}| == |s| - 1;
    } else {
      assert forall i :: i !in s;
      assert s == {};
    }
  }

  /** What happened to one item of a deletion batch. */
  datatype Outcome = Deleted | Failed | Vanished

  /** `p` is `root` or lies below it. */
  predicate Within(root: Path, p: Path) {
    |root| <= |p| && p[..|root|] == root
  }

  /** What removing an item takes off the disk: `shutil.rmtree` for a folder, `unlink` for a file. */
  function Removed(item: ScanResult, disk: set<Path>): (r: set<Path>)
    ensures r <= disk + {item.path}
    ensures item.path in disk ==> item.path in r
    ensures item.itemType == "folder" ==> forall p :: p in disk && Within(item.path, p) ==> p in r
    ensures forall p :: p in r ==> Within(item.path, p)
  {
    assert item.path[..|item.path|] == item.path;
    if item.itemType == "folder" then set p | p in disk && Within(item.path, p) else {item.path}
  }

  /**
   * One iteration of the deletion loop: an item already gone counts nowhere, a raising removal is an error.
   * `partial` is `Some(gone)` when the removal raises, `gone` being what it had taken off the disk by then:
   * `rmtree` deletes a folder's contents before the folder itself, so a raising `rmtree` may leave some of
   * them removed but keeps the folder, and a raising `unlink` removes nothing.
   */
  function Step(item: ScanResult, disk: set<Path>, partial: Option<set<Path>>): (r: (Outcome, set<Path>))
    ensures r.1 <= disk
    ensures r.0 == Vanished <==> item.path !in disk
    ensures r.0 == Failed <==> item.path in disk && partial.Some?
    ensures r.0 == Deleted ==> item.path !in r.1
    ensures r.0 == Failed ==> item.path in r.1
  {
    if item.path !in disk then (Vanished, disk)
    else if partial.Some? then (Failed, disk - (Removed(item, disk) * partial.value - {item.path}))
    else (Deleted, disk - Removed(item, disk))
  }

  /** Whether the removal of batch position `k` raises, and what it has removed when it does. */
  function Raised(failing: map<nat, set<Path>>, k: nat): (r: Option<set<Path>>)
    ensures r.Some? <==> k in failing
  {
    if k in failing then Some(failing[k]) else None
  }

  datatype RunState = RunState(outcomes: seq<Outcome>, disk: set<Path>)

  /** A batch processed in order; `failing` maps the positions whose removal raises to what each took off first. */
  function Run(items: seq<ScanResult>, present: set<Path>, failing: map<nat, set<Path>>): (s: RunState)
    ensures |s.outcomes| == |items|
  {
    if items == [] then RunState([], present)
    else
      var before := Run(items[..|items| - 1], present, failing);
      var step := Step(items[|items| - 1], before.disk, Raised(failing, |items| - 1));
      RunState(before.outcomes + [step.0], step.1)
  }

  /** How many items ended with outcome `o`. */
  function Count(outs: seq<Outcome>, o: Outcome): nat {
    if outs == [] then 0 else Count(outs[..|outs| - 1], o) + (if outs[|outs| - 1] == o then 1 else 0)
  }

  /** Processing one more item of a batch. */
  lemma RunSnoc(items: seq<ScanResult>, present: set<Path>, failing: map<nat, set<Path>>, k: nat)
    requires k < |items|
    ensures var before := Run(items[..k], present, failing);
            var step := Step(items[k], before.disk, Raised(failing, k));
            Run(items[..k + 1], present, failing) == RunState(before.outcomes + [step.0], step.1)
  {
    assert items[..k + 1][..k] == items[..k];
    assert items[..k + 1][k] == items[k];
  }

  lemma CountSnoc(outs: seq<Outcome>, o: Outcome, x: Outcome)
    ensures Count(outs + [o], x) == Count(outs, x) + (if o == x then 1 else 0)
  {
    assert (outs + [o])[..|outs|] == outs;
  }

  /** The items a batch gets to: every one before the check the cancellation lands at. */
  function Processed(n: nat, cancelAt: Option<nat>): (m: nat)
    ensures m <= n
    ensures cancelAt.None? ==> m == n
  {
    if cancelAt.Some? && cancelAt.value < n then cancelAt.value else n
  }

  /** Every item is deleted, failed or vanished. */
  lemma {:induction false} CountsAddUp(outs: seq<Outcome>)
    ensures Count(outs, Deleted) + Count(outs, Failed) + Count(outs, Vanished) == |outs|
  {
    if outs != [] {
      CountsAddUp(outs[..|outs| - 1]);
    }
  }

  /** So the two counters never exceed the batch: items that vanished before their turn count in neither. */
  lemma CountersBounded(items: seq<ScanResult>, present: set<Path>, failing: map<nat, set<Path>>)
    ensures var outs := Run(items, present, failing).outcomes;
            Count(outs, Deleted) + Count(outs, Failed) <= |items|
  {
    CountsAddUp(Run(items, present, failing).outcomes);
  }

  /** Processing a longer batch first processes its prefix in the same way. */
  lemma {:induction false} RunPrefix(items: seq<ScanResult>, present: set<Path>, failing: map<nat, set<Path>>, k: nat)
    requires k <= |items|
    ensures Run(items, present, failing).outcomes[..k] == Run(items[..k], present, failing).outcomes
    decreases |items|
  {
    if k < |items| {
      assert items[..|items| - 1][..k] == items[..k];
      RunPrefix(items[..|items| - 1], present, failing, k);
    } else {
      assert items[..k] == items;
    }
  }

  /** Item `k`'s outcome is decided by whether its path still exists when its turn comes and whether its removal raises. */
  lemma OutcomeAt(items: seq<ScanResult>, present: set<Path>, failing: map<nat, set<Path>>, k: nat)
    requires k < |items|
    ensures var disk := Run(items[..k], present, failing).disk;
            var o := Run(items, present, failing).outcomes[k];
            && (o == Vanished <==> items[k].path !in disk)
            && (o == Failed <==> items[k].path in disk && k in failing)
            && (o == Deleted <==> items[k].path in disk && k !in failing)
  {
    RunPrefix(items, present, failing, k + 1);
    assert items[..k + 1][..k] == items[..k];
    assert (Run(items, present, failing).outcomes[..k + 1])[k] == Run(items, present, failing).outcomes[k];
  }

  /** Deletion only ever takes paths away. */
  lemma {:induction false} RunShrinks(items: seq<ScanResult>, present: set<Path>, failing: map<nat, set<Path>>)
    ensures Run(items, present, failing).disk <= present
  {
    if items != [] {
      RunShrinks(items[..|items| - 1], present, failing);
    }
  }

  /** A deleted item's path is gone at the end of the batch. */
  lemma {:induction false} DeletedAreGone(items: seq<ScanResult>, present: set<Path>, failing: map<nat, set<Path>>, k: nat)
    requires k < |items| && Run(items, present, failing).outcomes[k] == Deleted
    ensures items[k].path !in Run(items, present, failing).disk
    decreases |items|
  {
    var prev := items[..|items| - 1];
    if k < |items| - 1 {
      RunPrefix(items, present, failing, |items| - 1);
      assert Run(items, present, failing).outcomes[..|items| - 1][k] == Run(prev, present, failing).outcomes[k];
      DeletedAreGone(prev, present, failing, k);
    } else {
      assert Run(items, present, failing).outcomes[k] == Step(items[k], Run(prev, present, failing).disk, Raised(failing, k)).0;
    }
  }

  /**
   * Item `item`, ending with outcome `o`, accounts for path `p` having gone: `p` lies within it and the
   * removal succeeded, or it was an `rmtree` that raised part-way, which never takes the folder itself.
   */
  predicate TakenBy(item: ScanResult, o: Outcome, p: Path) {
    Within(item.path, p) && (o == Deleted || (o == Failed && item.itemType == "folder" && p != item.path))
  }

  /** One step takes a path away only when it removes an item the path lies within. */
  lemma StepRemoves(item: ScanResult, disk: set<Path>, partial: Option<set<Path>>, p: Path)
    requires p in disk && p !in Step(item, disk, partial).1
    ensures TakenBy(item, Step(item, disk, partial).0, p)
  {
    assert item.path in disk;
    if item.itemType != "folder" {
      assert p == item.path;
      assert p[..|p|] == p;
    }
  }

  /** The last item of a batch is processed against the disk its prefix left. */
  lemma RunLast(items: seq<ScanResult>, present: set<Path>, failing: map<nat, set<Path>>)
    requires items != []
    ensures var prev := Run(items[..|items| - 1], present, failing);
            var step := Step(items[|items| - 1], prev.disk, Raised(failing, |items| - 1));
            && Run(items, present, failing).disk == step.1
            && Run(items, present, failing).outcomes == prev.outcomes + [step.0]
  {
  }

  /** A path disappears only when it lies within an item whose removal succeeded or raised part-way. */
  lemma {:induction false} OnlyWithinRemoved(items: seq<ScanResult>, present: set<Path>, failing: map<nat, set<Path>>, p: Path)
    requires p in present && p !in Run(items, present, failing).disk
    ensures exists k :: 0 <= k < |items| && TakenBy(items[k], Run(items, present, failing).outcomes[k], p)
    decreases |items|
  {
    if items != [] {
      var last := |items| - 1;
      var prev := Run(items[..last], present, failing);
      var outs := Run(items, present, failing).outcomes;
      RunLast(items, present, failing);
      if p !in prev.disk {
        OnlyWithinRemoved(items[..last], present, failing, p);
        var k :| 0 <= k < last && TakenBy(items[..last][k], prev.outcomes[k], p);
        assert outs[k] == prev.outcomes[k] && items[..last][k] == items[k];
      } else {
        StepRemoves(items[last], prev.disk, Raised(failing, last), p);
        assert outs[last] == Step(items[last], prev.disk, Raised(failing, last)).0;
      }
    }
  }

  /** With no removal raising, every path that disappeared lies within an item that was counted as deleted. */
  lemma OnlyWithinDeleted(items: seq<ScanResult>, present: set<Path>, failing: map<nat, set<Path>>, p: Path)
    requires forall k :: 0 <= k < |items| ==> k !in failing
    requires p in present && p !in Run(items, present, failing).disk
    ensures exists k :: 0 <= k < |items| && Run(items, present, failing).outcomes[k] == Deleted && Within(items[k].path, p)
  {
    OnlyWithinRemoved(items, present, failing, p);
    var k :| 0 <= k < |items| && TakenBy(items[k], Run(items, present, failing).outcomes[k], p);
    OutcomeAt(items, present, failing, k);
  }

  /** With no removal raising, the batch reports no errors. */
  lemma {:induction false} NoFailureNoErrors(items: seq<ScanResult>, present: set<Path>, failing: map<nat, set<Path>>)
    requires forall k :: 0 <= k < |items| ==> k !in failing
    ensures Count(Run(items, present, failing).outcomes, Failed) == 0
  {
    if items != [] {
      var prev := items[..|items| - 1];
      NoFailureNoErrors(prev, present, failing);
      assert Run(items, present, failing).outcomes[..|items| - 1] == Run(prev, present, failing).outcomes;
    }
  }

  // ------------------------------------------------------------ the confirmation dialog

  /** `sum(item.size for item in items)`. */
  function TotalSize(items: seq<ScanResult>): int {
    if items == [] then 0 else items[0].size + TotalSize(items[1..])
  }

  /** `sum(1 for item in items if item.item_type == t)`. */
  function CountType(items: seq<ScanResult>, t: string): nat {
    if items == [] then 0 else (if items[0].itemType == t then 1 else 0) + CountType(items[1..], t)
  }

  /** Folders and files together never outnumber the items, and match them when every item is one or the other. */
  lemma {:induction false} FolderAndFileCounts(items: seq<ScanResult>)
    ensures CountType(items, "folder") + CountType(items, "file") <= |items|
    ensures (forall i :: 0 <= i < |items| ==> items[i].itemType in {"folder", "file"}) ==>
              CountType(items, "folder") + CountType(items, "file") == |items|
  {
    if items != [] {
      FolderAndFileCounts(items[1..]);
      assert "folder" != "file" by {
        assert "folder"[1] != "file"[1];
      }
      if forall i :: 0 <= i < |items| ==> items[i].itemType in {"folder", "file"} {
        assert items[0].itemType in {"folder", "file"};
        assert forall i :: 0 <= i < |items[1..]| ==> items[1..][i] == items[i + 1];
      }
    }
  }

  /** Sizes are counted once each, wherever the list is split. */
  lemma {:induction false} TotalSizeAppend(a: seq<ScanResult>, b: seq<ScanResult>)
    ensures TotalSize(a + b) == TotalSize(a) + TotalSize(b)
  {
    if a == [] {
      assert a + b == b;
    } else {
      assert (a + b)[1..] == a[1..] + b;
      TotalSizeAppend(a[1..], b);
    }
  }

  /** With no negative sizes (as the scanner never produces), the total is at least every single size. */
  lemma {:induction false} TotalSizeBounds(items: seq<ScanResult>)
    requires forall i :: 0 <= i < |items| ==> items[i].size >= 0
    ensures TotalSize(items) >= 0
    ensures forall i :: 0 <= i < |items| ==> items[i].size <= TotalSize(items)
  {
    if items != [] {
      assert forall i :: 0 <= i < |items[1..]| ==> items[1..][i] == items[i + 1];
      TotalSizeBounds(items[1..]);
    }
  }

  /** `ConfirmModal`: the items to delete and the totals it shows. */
  class ConfirmModal {
    const items: seq<ScanResult>
    const totalSize: int
    const folderCount: nat
    const fileCount: nat

    constructor(items: seq<ScanResult>)
      ensures this.items == items
      ensures totalSize == TotalSize(items)
      ensures folderCount == CountType(items, "folder") && fileCount == CountType(items, "file")
    {
      this.items := items;
      totalSize := TotalSize(items);
      folderCount := CountType(items, "folder");
      fileCount := CountType(items, "file");
    }
  }

  // ------------------------------------------------------------ the application state

  /** `DirectoryCleanerApp`: its scanner, its results, its selection and its folder list. */
  class CleanerApp {
    const scanner: Scanner
    var scanResults: seq<ScanResult>
    var selectedIndices: set<int>
    var scanDirectories: seq<Path>

    /** Every selected index names a result. */
    predicate SelectionInRange()
      reads this
    {
      forall i :: i in selectedIndices ==> 0 <= i < |scanResults|
    }

    constructor()
      ensures scanResults == [] && selectedIndices == {} && scanDirectories == []
      ensures fresh(scanner) && !scanner.IsScanning()
      ensures SelectionInRange()
    {
      scanner := new Scanner();
      scanResults := [];
      selectedIndices := {};
      scanDirectories := [];
    }

    /** `toggle_selection`: flips one index and leaves the rest alone. */
    method ToggleSelection(index: int)
      modifies this
      ensures selectedIndices == Toggled(old(selectedIndices), index)
      ensures scanResults == old(scanResults) && scanDirectories == old(scanDirectories)
      ensures old(SelectionInRange()) && 0 <= index < |scanResults| ==> SelectionInRange()
    {
      if index in selectedIndices {
        selectedIndices := selectedIndices - {index};
      } else {
        selectedIndices := selectedIndices + {index};
      }
      assert forall i :: i in selectedIndices ==> i in old(selectedIndices) || i == index;
    }

    /** `action_select_all`: selects every result; with no results it does nothing. */
    method SelectAll()
      modifies this
      ensures scanResults == [] ==> selectedIndices == old(selectedIndices)
      ensures scanResults != [] ==> selectedIndices == AllIndices(|scanResults|)
      ensures scanResults == old(scanResults) && scanDirectories == old(scanDirectories)
      ensures old(SelectionInRange()) ==> SelectionInRange()
    {
      if scanResults == [] {
        return;
      }
      selectedIndices := AllIndices(|scanResults|);
      IndexRangeMembers(0, |scanResults|);
    }

    /** `action_deselect_all`. */
    method DeselectAll()
      modifies this
      ensures selectedIndices == {}
      ensures scanResults == old(scanResults) && scanDirectories == old(scanDirectories)
      ensures SelectionInRange()
    {
      selectedIndices := {};
    }

    /**
     * `add_directory`: the input is stripped and resolved (`resolve` stands for `expanduser().resolve()`), and
     * the path is added only if it exists, is a folder and is not listed yet.
     */
    method AddDirectory(input: string, resolve: string -> Path, existing: set<Path>, folders: set<Path>)
      returns (outcome: AddOutcome)
      modifies this
      ensures var p := resolve(Strip(input));
              && (outcome == EmptyInput <==> Strip(input) == [])
              && (outcome == NotFound <==> Strip(input) != [] && p !in existing)
              && (outcome == NotAFolder <==> Strip(input) != [] && p in existing && p !in folders)
              && (outcome == AlreadyAdded <==> Strip(input) != [] && p in existing && p in folders && p in old(scanDirectories))
              && (outcome == Added ==> scanDirectories == old(scanDirectories) + [p])
      ensures outcome != Added ==> scanDirectories == old(scanDirectories)
      ensures old(NoDuplicates(scanDirectories)) ==> NoDuplicates(scanDirectories)
      ensures scanResults == old(scanResults) && selectedIndices == old(selectedIndices)
    {
      var pathStr := Strip(input);
      if pathStr == [] {
        return EmptyInput;
      }
      var path := resolve(pathStr);
      if path !in existing {
        return NotFound;
      }
      if path !in folders {
        return NotAFolder;
      }
      if path in scanDirectories {
        return AlreadyAdded;
      }
      if NoDuplicates(scanDirectories) {
        AppendNewKeepsDistinct(scanDirectories, path);
      }
      scanDirectories := scanDirectories + [path];
      outcome := Added;
    }

    /** `on_directory_tree_directory_selected`: a folder picked in the tree is added unless already listed. */
    method DirectorySelected(path: Path)
      modifies this
      ensures path in old(scanDirectories) ==> scanDirectories == old(scanDirectories)
      ensures path !in old(scanDirectories) ==> scanDirectories == old(scanDirectories) + [path]
      ensures old(NoDuplicates(scanDirectories)) ==> NoDuplicates(scanDirectories)
      ensures scanResults == old(scanResults) && selectedIndices == old(selectedIndices)
    {
      if path !in scanDirectories {
        if NoDuplicates(scanDirectories) {
          AppendNewKeepsDistinct(scanDirectories, path);
        }
        scanDirectories := scanDirectories + [path];
      }
    }

    /** `remove_selected_directory`: pops the folder under the table cursor, if the cursor is on one. */
    method RemoveSelectedDirectory(cursor: Option<nat>)
      modifies this
      ensures cursor.Some? && cursor.value < |old(scanDirectories)| ==>
                scanDirectories == RemoveAt(old(scanDirectories), cursor.value)
      ensures !(cursor.Some? && cursor.value < |old(scanDirectories)|) ==> scanDirectories == old(scanDirectories)
      ensures old(NoDuplicates(scanDirectories)) ==> NoDuplicates(scanDirectories)
      ensures scanResults == old(scanResults) && selectedIndices == old(selectedIndices)
    {
      if cursor.Some? && cursor.value < |scanDirectories| {
        if NoDuplicates(scanDirectories) {
          RemoveAtKeepsDistinct(scanDirectories, cursor.value);
        }
        scanDirectories := RemoveAt(scanDirectories, cursor.value);
      }
    }

    /** `clear_directory_list`. */
    method ClearDirectoryList()
      modifies this
      ensures scanDirectories == []
      ensures scanResults == old(scanResults) && selectedIndices == old(selectedIndices)
    {
      scanDirectories := [];
    }

    /**
     * `action_scan`: with folders listed and some pattern given, clears the results and the selection and runs
     * `perform_scan`; otherwise it changes nothing.
     */
    method ActionScan(folderInput: string, fileInput: string, disk: Path -> Node, cancelAt: Option<nat>)
      returns (started: bool)
      modifies this, scanner
      ensures started <==> old(scanDirectories) != [] && (ParsePatterns(folderInput) != [] || ParsePatterns(fileInput) != [])
      ensures !started ==> scanResults == old(scanResults) && selectedIndices == old(selectedIndices)
      ensures started ==>
                && scanResults == Observed(SessionTrace(scanDirectories, disk,
                                              Config(ParsePatterns(folderInput), ParsePatterns(fileInput), true)), cancelAt)
                && selectedIndices == AllIndices(|scanResults|)
      ensures scanDirectories == old(scanDirectories)
      ensures old(SelectionInRange()) ==> SelectionInRange()
    {
      if scanDirectories == [] {
        return false;
      }
      var folderPatterns := ParsePatterns(folderInput);
      var filePatterns := ParsePatterns(fileInput);
      started := StartScan(folderPatterns, filePatterns, disk, cancelAt);
    }

    /** The rest of `action_scan` once the two pattern lists are read: nothing happens when both are empty. */
    method StartScan(folderPatterns: seq<string>, filePatterns: seq<string>, disk: Path -> Node, cancelAt: Option<nat>)
      returns (started: bool)
      modifies this, scanner
      ensures started <==> folderPatterns != [] || filePatterns != []
      ensures !started ==> scanResults == old(scanResults) && selectedIndices == old(selectedIndices)
      ensures started ==>
                && scanResults == Observed(SessionTrace(scanDirectories, disk,
                                              Config(folderPatterns, filePatterns, true)), cancelAt)
                && selectedIndices == AllIndices(|scanResults|)
      ensures scanDirectories == old(scanDirectories)
      ensures old(SelectionInRange()) ==> SelectionInRange()
    {
      if folderPatterns == [] && filePatterns == [] {
        return false;
      }
      scanResults := [];
      selectedIndices := {};
      PerformScan(folderPatterns, filePatterns, disk, cancelAt);
      started := true;
    }

    /**
     * `perform_scan`: scans the listed folders in order and appends each result, selecting it. `cancelAt` is
     * the `worker.is_cancelled` check (counted from 0 over the whole session) that first sees the cancellation.
     */
    method PerformScan(folderPatterns: seq<string>, extensionPatterns: seq<string>, disk: Path -> Node,
                       cancelAt: Option<nat>)
      modifies this, scanner
      ensures scanResults == old(scanResults) + Observed(SessionTrace(scanDirectories, disk,
                                                            Config(folderPatterns, extensionPatterns, true)), cancelAt)
      ensures selectedIndices == old(selectedIndices) + IndexRange(|old(scanResults)|, |scanResults|)
      ensures scanDirectories == old(scanDirectories)
      ensures old(SelectionInRange()) ==> SelectionInRange()
    {
      var cfg := Config(folderPatterns, extensionPatterns, true);
      ghost var T := SessionTrace(scanDirectories, disk, cfg);
      ghost var base := scanResults;
      ghost var found: seq<ScanResult> := [];
      ghost var seen: seq<Event> := [];
      var checks: nat := 0;
      var d := 0;
      assert scanDirectories[0..] == scanDirectories;
      while d < |scanDirectories|
        invariant d <= |scanDirectories|
        invariant scanDirectories == old(scanDirectories)
        invariant scanResults == base + found
        invariant selectedIndices == old(selectedIndices) + IndexRange(|base|, |scanResults|)
        invariant Progress(T, seen, SessionTrace(scanDirectories[d..], disk, cfg), checks, found, cancelAt)
      {
        SessionUnfold(scanDirectories, d, disk, cfg);
        var stop;
        stop, checks, seen, found := ScanFolder(scanDirectories[d], disk, cfg, cancelAt, checks, T, seen,
                                                SessionTrace(scanDirectories[d + 1..], disk, cfg), found, base,
                                                old(selectedIndices));
        if stop {
          break;
        }
        d := d + 1;
      }
      if !Landed(cancelAt, checks) {
        assert seen == T;
        NotLanded(T, cancelAt);
      }
      IndexRangeMembers(|base|, |scanResults|);
    }

    /**
     * One turn of `perform_scan`'s loop over the folders: the `worker.is_cancelled` check, which ends the
     * session when it sees the cancellation, then the folder's `scan_directory` and its results.
     */
    method ScanFolder(dir: Path, disk: Path -> Node, cfg: Config, cancelAt: Option<nat>, checks0: nat,
                      ghost T: seq<Event>, ghost seen0: seq<Event>, ghost tail: seq<Event>,
                      ghost found0: seq<ScanResult>, ghost base: seq<ScanResult>, ghost sel0: set<int>)
      returns (stop: bool, checks: nat, ghost seen: seq<Event>, ghost found: seq<ScanResult>)
      requires scanResults == base + found0
      requires selectedIndices == sel0 + IndexRange(|base|, |scanResults|)
      requires Progress(T, seen0, [Poll] + ResultEvents(ScanOf(dir, disk, cfg)) + tail, checks0, found0, cancelAt)
      modifies this`scanResults, this`selectedIndices, scanner
      ensures scanResults == base + found
      ensures selectedIndices == sel0 + IndexRange(|base|, |scanResults|)
      ensures Progress(T, seen, tail, checks, found, cancelAt)
      ensures stop ==> Landed(cancelAt, checks)
    {
      ghost var head := ResultEvents(ScanOf(dir, disk, cfg));
      assert [Poll] + head + tail == [Poll] + (head + tail);
      PassCheck(T, seen0, head + tail, checks0, found0, cancelAt);
      stop := Landed(cancelAt, checks0 + 1);
      checks, seen, found := checks0 + 1, seen0 + [Poll], found0;
      if stop {
        return;
      }
      var ys := scanner.ScanDirectory(dir, disk(dir), cfg, None);
      checks, seen, found := TakeResults(ys, cancelAt, checks, T, seen, tail, found, base, sel0);
    }

    /** The inner loop of `perform_scan`: one folder's results, each taken after a `worker.is_cancelled` check. */
    method TakeResults(ys: seq<ScanResult>, cancelAt: Option<nat>, checks0: nat, ghost T: seq<Event>,
                       ghost seen0: seq<Event>, ghost tail: seq<Event>, ghost found0: seq<ScanResult>,
                       ghost base: seq<ScanResult>, ghost sel0: set<int>)
      returns (checks: nat, ghost seen: seq<Event>, ghost found: seq<ScanResult>)
      requires scanResults == base + found0
      requires selectedIndices == sel0 + IndexRange(|base|, |scanResults|)
      requires Progress(T, seen0, ResultEvents(ys) + tail, checks0, found0, cancelAt)
      modifies this`scanResults, this`selectedIndices
      ensures scanResults == base + found
      ensures selectedIndices == sel0 + IndexRange(|base|, |scanResults|)
      ensures Progress(T, seen, tail, checks, found, cancelAt)
    {
      checks, seen, found := checks0, seen0, found0;
      assert ys[0..] == ys;
      var j := 0;
      while j < |ys|
        invariant j <= |ys|
        invariant scanResults == base + found
        invariant selectedIndices == sel0 + IndexRange(|base|, |scanResults|)
        invariant Progress(T, seen, ResultEvents(ys[j..]) + tail, checks, found, cancelAt)
      {
        ResultUnfold(ys, j);
        assert [Poll, Emit(ys[j])] + ResultEvents(ys[j + 1..]) + tail
            == [Poll, Emit(ys[j])] + (ResultEvents(ys[j + 1..]) + tail);
        TakeStep(T, seen, ys[j], ResultEvents(ys[j + 1..]) + tail, checks, found, cancelAt);
        var stop := Landed(cancelAt, checks + 1);
        checks := checks + 1;
        if stop {
          break;
        }
        IndexRangeSnoc(|base|, |scanResults|);
        AppendAssoc(base, found, [ys[j]]);
        scanResults := scanResults + [ys[j]];
        selectedIndices := selectedIndices + {|scanResults| - 1};
        found := found + [ys[j]];
        seen := seen + [Poll, Emit(ys[j])];
        j := j + 1;
      }
      if j == |ys| && !Landed(cancelAt, checks) {
        assert ys[j..] == [];
      }
    }

    /**
     * `perform_deletion`: removes the selected items highest index first, checking for cancellation before each,
     * then empties the results and the selection. `present` is the filesystem before, `disk` the one after.
     */
    method PerformDeletion(present: set<Path>, failing: map<nat, set<Path>>, cancelAt: Option<nat>)
      returns (deleted: nat, errors: nat, disk: set<Path>)
      requires SelectionInRange()
      modifies this
      ensures var items := Batch(old(scanResults), old(selectedIndices));
              var run := Run(items[..Processed(|items|, cancelAt)], present, failing);
              && deleted == Count(run.outcomes, Deleted)
              && errors == Count(run.outcomes, Failed)
              && disk == run.disk
      ensures scanResults == [] && selectedIndices == {}
      ensures scanDirectories == old(scanDirectories)
      ensures SelectionInRange()
    {
      var items := Batch(scanResults, selectedIndices);
      deleted, errors, disk := 0, 0, present;
      var idx := 0;
      while idx < |items|
        invariant idx <= |items|
        invariant !Landed(cancelAt, idx)
        invariant scanResults == old(scanResults) && selectedIndices == old(selectedIndices)
        invariant scanDirectories == old(scanDirectories)
        invariant var run := Run(items[..idx], present, failing);
                  deleted == Count(run.outcomes, Deleted) && errors == Count(run.outcomes, Failed) && disk == run.disk
      {
        if Landed(cancelAt, idx + 1) {
          break;
        }
        var item := items[idx];
        ghost var before := Run(items[..idx], present, failing);
        ghost var step := Step(item, disk, Raised(failing, idx));
        RunSnoc(items, present, failing, idx);
        CountSnoc(before.outcomes, step.0, Deleted);
        CountSnoc(before.outcomes, step.0, Failed);
        if item.path in disk {
          if idx in failing {
            disk := disk - (Removed(item, disk) * failing[idx] - {item.path});
            errors := errors + 1;
          } else {
            disk := disk - Removed(item, disk);
            deleted := deleted + 1;
          }
        }
        assert disk == step.1 && deleted == Count(before.outcomes + [step.0], Deleted);
        idx := idx + 1;
      }
      assert idx == Processed(|items|, cancelAt);
      scanResults := [];
      selectedIndices := {};
    }
  }
}
