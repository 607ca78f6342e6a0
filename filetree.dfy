/**
 * The file system as the scanner sees it: a tree of directories and files.
 * A directory whose listing fails (`readable == false`) shows no children
 * to `os.walk`; a file whose `stat` fails (`statOk == false`) has no size.
 * Children are listed in the order `os.scandir` returns them.
 */
module FileTree {

  /** A path as its sequence of components; `p + [name]` is `p / name`. */
  type Path = seq<string>

  datatype Node =
    | Dir(name: string, children: seq<Node>, readable: bool)
    | File(name: string, size: nat, statOk: bool)

  /** `stat().st_size` with a failing `stat` counted as 0. */
  function StatSize(n: Node): nat {
    if n.File? && n.statOk then n.size else 0
  }

  /** The entries `os.walk` lists as `dirnames`, in listing order. */
  function SubDirs(cs: seq<Node>): (r: seq<Node>)
    ensures forall x :: x in r ==> x in cs && x.Dir?
    ensures forall x :: x in cs && x.Dir? ==> x in r
    ensures |r| <= |cs|
  {
    if cs == [] then []
    else (if cs[0].Dir? then [cs[0]] else []) + SubDirs(cs[1..])
  }

  /** The entries `os.walk` lists as `filenames`, in listing order. */
  function Files(cs: seq<Node>): (r: seq<Node>)
    ensures forall x :: x in r ==> x in cs && x.File?
    ensures forall x :: x in cs && x.File? ==> x in r
  {
    if cs == [] then []
    else (if cs[0].File? then [cs[0]] else []) + Files(cs[1..])
  }

  /**
   * What `get_size` adds up for a node: the stat size of a file, and for a
   * directory the sizes of all files in the directories `os.walk` can list.
   */
  function TreeSize(n: Node): nat
    decreases n, 1
  {
    match n
    case File(_, _, _) => StatSize(n)
    case Dir(_, cs, readable) => if readable then SizeOfChildren(n, cs) else 0
  }

  function SizeOfChildren(parent: Node, ks: seq<Node>): nat
    requires parent.Dir? && forall x :: x in ks ==> x in parent.children
    decreases parent, 0, |ks|
  {
    if ks == [] then 0
    else
      assert ks[0] in parent.children;
      TreeSize(ks[0]) + SizeOfChildren(parent, ks[1..])
  }

  /** The total size of a sequence of nodes. */
  function ForestSize(ns: seq<Node>): nat {
    if ns == [] then 0 else TreeSize(ns[0]) + ForestSize(ns[1..])
  }

  lemma {:induction false} SizeOfChildrenIsForest(parent: Node, ks: seq<Node>)
    requires parent.Dir? && forall x :: x in ks ==> x in parent.children
    ensures SizeOfChildren(parent, ks) == ForestSize(ks)
    decreases |ks|
  {
    if ks != [] {
      SizeOfChildrenIsForest(parent, ks[1..]);
    }
  }

  /** A readable directory's size is the size of everything it lists. */
  lemma DirSize(n: Node)
    requires n.Dir? && n.readable
    ensures TreeSize(n) == ForestSize(n.children)
  {
    SizeOfChildrenIsForest(n, n.children);
  }

  lemma {:induction false} ForestSizeAppend(a: seq<Node>, b: seq<Node>)
    ensures ForestSize(a + b) == ForestSize(a) + ForestSize(b)
  {
    if a == [] {
      assert a + b == b;
    } else {
      assert (a + b)[0] == a[0];
      assert (a + b)[1..] == a[1..] + b;
      ForestSizeAppend(a[1..], b);
    }
  }

  /** Listing splits a directory's size into its files' and its subdirectories' sizes. */
  lemma {:induction false} ForestSizeSplit(cs: seq<Node>)
    ensures ForestSize(cs) == ForestSize(Files(cs)) + ForestSize(SubDirs(cs))
  {
    if cs != [] {
      ForestSizeSplit(cs[1..]);
      var f := if cs[0].File? then [cs[0]] else [];
      var d := if cs[0].Dir? then [cs[0]] else [];
      ForestSizeAppend(f, Files(cs[1..]));
      ForestSizeAppend(d, SubDirs(cs[1..]));
    }
  }

  // ------------------------------------------------------------ termination measure

  /** The number of nodes in a tree; it bounds how often a walk can pop. */
  function Weight(n: Node): nat
    decreases n, 1
  {
    match n
    case File(_, _, _) => 1
    case Dir(_, cs, _) => 1 + WeightOfChildren(n, cs)
  }

  function WeightOfChildren(parent: Node, ks: seq<Node>): nat
    requires parent.Dir? && forall x :: x in ks ==> x in parent.children
    decreases parent, 0, |ks|
  {
    if ks == [] then 0
    else
      assert ks[0] in parent.children;
      Weight(ks[0]) + WeightOfChildren(parent, ks[1..])
  }

  function ForestWeight(ns: seq<Node>): nat {
    if ns == [] then 0 else Weight(ns[0]) + ForestWeight(ns[1..])
  }

  lemma {:induction false} WeightOfChildrenIsForest(parent: Node, ks: seq<Node>)
    requires parent.Dir? && forall x :: x in ks ==> x in parent.children
    ensures WeightOfChildren(parent, ks) == ForestWeight(ks)
    decreases |ks|
  {
    if ks != [] {
      WeightOfChildrenIsForest(parent, ks[1..]);
    }
  }

  lemma {:induction false} ForestWeightAppend(a: seq<Node>, b: seq<Node>)
    ensures ForestWeight(a + b) == ForestWeight(a) + ForestWeight(b)
  {
    if a == [] {
      assert a + b == b;
    } else {
      assert (a + b)[0] == a[0];
      assert (a + b)[1..] == a[1..] + b;
      ForestWeightAppend(a[1..], b);
    }
  }

  lemma {:induction false} SubDirsWeight(cs: seq<Node>)
    ensures ForestWeight(SubDirs(cs)) <= ForestWeight(cs)
  {
    if cs != [] {
      SubDirsWeight(cs[1..]);
      ForestWeightAppend(if cs[0].Dir? then [cs[0]] else [], SubDirs(cs[1..]));
    }
  }

  /** A directory weighs more than all of its subdirectories together. */
  lemma DirWeight(n: Node)
    requires n.Dir?
    ensures ForestWeight(SubDirs(n.children)) < Weight(n)
  {
    WeightOfChildrenIsForest(n, n.children);
    SubDirsWeight(n.children);
  }
}
