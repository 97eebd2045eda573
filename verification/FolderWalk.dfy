/**
 The list a compute node sends its results from: a walk of a folder, each folder before what is in
 it, the entries of a folder in whatever order the file system has them.
 */
module FolderWalk {
  import opened Types
  import opened Framing
  import opened FileTransfer

  datatype Node = Leaf(content: Bytes) | Folder(listing: Listing)

  datatype Listing = End | Next(name: string, node: Node, rest: Listing)

  function Names(l: Listing): set<string> {
    match l
    case End => {}
    case Next(name, _, rest) => {name} + Names(rest)
  }

  /** No folder has two entries of one name. */
  predicate WellNamed(n: Node) {
    n.Leaf? || WellNamedIn(n.listing)
  }

  predicate WellNamedIn(l: Listing) {
    match l
    case End => true
    case Next(name, node, rest) => name !in Names(rest) && WellNamed(node) && WellNamedIn(rest)
  }

  function EntryOf(n: Node): Entry {
    match n
    case Leaf(content) => File(content)
    case Folder(_) => Dir
  }

  /** What is at a path below a node. */
  function Lookup(n: Node, p: Path): Option<Entry> {
    match n
    case Leaf(content) => if p == [] then Some(File(content)) else None
    case Folder(listing) => if p == [] then Some(Dir) else LookupIn(listing, p)
  }

  function LookupIn(l: Listing, p: Path): Option<Entry>
    requires p != []
  {
    match l
    case End => None
    case Next(name, node, rest) => if p[0] == name then Lookup(node, p[1..]) else LookupIn(rest, p)
  }

  /** The walk of a node at `at`, the node itself first. */
  function Walk(n: Node, at: Path): (r: seq<Item>)
    ensures r != [] && r[0] == Item(at, EntryOf(n))
  {
    [Item(at, EntryOf(n))] + (if n.Leaf? then [] else WalkIn(n.listing, at))
  }

  function WalkIn(l: Listing, at: Path): seq<Item> {
    match l
    case End => []
    case Next(name, node, rest) => Walk(node, at + [name]) + WalkIn(rest, at)
  }

  /** `p` is `at` or below it. */
  predicate Under(p: Path, at: Path) {
    |at| <= |p| && p[..|at|] == at
  }

  lemma {:induction false} WalkIsThere(n: Node, at: Path, i: nat)
    requires WellNamed(n) && i < |Walk(n, at)|
    ensures var item := Walk(n, at)[i];
            Under(item.path, at) && Lookup(n, item.path[|at|..]) == Some(item.entry) && (i > 0 ==> |item.path| > |at|)
    decreases n
  {
    if i == 0 {
      assert at[|at|..] == [];
    } else {
      WalkInIsThere(n.listing, at, i - 1);
    }
  }

  lemma {:induction false} WalkInIsThere(l: Listing, at: Path, i: nat)
    requires WellNamedIn(l) && i < |WalkIn(l, at)|
    ensures var item := WalkIn(l, at)[i];
            && Under(item.path, at) && |item.path| > |at| && item.path[|at|] in Names(l)
            && LookupIn(l, item.path[|at|..]) == Some(item.entry)
    decreases l
  {
    var below := at + [l.name];
    var item := WalkIn(l, at)[i];
    if i < |Walk(l.node, below)| {
      WalkIsThere(l.node, below, i);
      assert item.path[..|at|] == item.path[..|below|][..|at|] == at;
      assert item.path[|at|] == item.path[..|below|][|at|];
      assert item.path[|at|..][1..] == item.path[|below|..];
    } else {
      WalkInIsThere(l.rest, at, i - |Walk(l.node, below)|);
    }
  }

  lemma {:induction false} WalkFinds(n: Node, at: Path, q: Path) returns (i: nat)
    requires Lookup(n, q).Some?
    ensures i < |Walk(n, at)| && Walk(n, at)[i] == Item(at + q, Lookup(n, q).value)
    decreases n
  {
    if q == [] {
      assert at + q == at;
      i := 0;
    } else {
      var j := WalkInFinds(n.listing, at, q);
      i := j + 1;
    }
  }

  lemma {:induction false} WalkInFinds(l: Listing, at: Path, q: Path) returns (i: nat)
    requires q != [] && LookupIn(l, q).Some?
    ensures i < |WalkIn(l, at)| && WalkIn(l, at)[i] == Item(at + q, LookupIn(l, q).value)
    decreases l
  {
    if q[0] == l.name {
      i := WalkFinds(l.node, at + [l.name], q[1..]);
      assert at + q == at + [l.name] + q[1..];
    } else {
      var j := WalkInFinds(l.rest, at, q);
      i := |Walk(l.node, at + [l.name])| + j;
    }
  }

  lemma {:induction false} WalkIsDistinct(n: Node, at: Path, i: nat, j: nat)
    requires WellNamed(n) && i < j < |Walk(n, at)|
    ensures Walk(n, at)[i].path != Walk(n, at)[j].path
    decreases n
  {
    if i == 0 {
      WalkIsThere(n, at, j);
    } else {
      WalkInIsDistinct(n.listing, at, i - 1, j - 1);
    }
  }

  lemma {:induction false} WalkInIsDistinct(l: Listing, at: Path, i: nat, j: nat)
    requires WellNamedIn(l) && i < j < |WalkIn(l, at)|
    ensures WalkIn(l, at)[i].path != WalkIn(l, at)[j].path
    decreases l
  {
    var below := at + [l.name];
    var n := |Walk(l.node, below)|;
    if j < n {
      WalkIsDistinct(l.node, below, i, j);
    } else if n <= i {
      WalkInIsDistinct(l.rest, at, i - n, j - n);
    } else {
      WalkIsThere(l.node, below, i);
      WalkInIsThere(l.rest, at, j - n);
      assert WalkIn(l, at)[i].path[|at|] == WalkIn(l, at)[i].path[..|below|][|at|] == l.name;
      assert WalkIn(l, at)[j].path[|at|] in Names(l.rest);
    }
  }

  /** Everything but the root comes after the folder it is in. */
  lemma {:induction false} WalkIsTopDown(n: Node, at: Path, i: nat)
    requires WellNamed(n) && 0 < i < |Walk(n, at)|
    ensures var p := Walk(n, at)[i].path; p != [] && Listed(Walk(n, at), i, Parent(p))
    decreases n
  {
    var p := Walk(n, at)[i].path;
    WalkIsThere(n, at, i);
    WalkInIsTopDown(n.listing, at, i - 1);
    if Parent(p) == at {
      assert Walk(n, at)[0].path == at;
    } else {
      var j :| 0 <= j < i - 1 && WalkIn(n.listing, at)[j].path == Parent(p);
      assert Walk(n, at)[j + 1].path == Parent(p);
    }
  }

  lemma {:induction false} WalkInIsTopDown(l: Listing, at: Path, i: nat)
    requires WellNamedIn(l) && i < |WalkIn(l, at)|
    ensures var p := WalkIn(l, at)[i].path; p != [] && (Parent(p) == at || Listed(WalkIn(l, at), i, Parent(p)))
    decreases l
  {
    var below := at + [l.name];
    var here := Walk(l.node, below);
    var p := WalkIn(l, at)[i].path;
    if i == 0 {
      assert Parent(below) == at;
    } else if i < |here| {
      WalkIsTopDown(l.node, below, i);
      var j :| 0 <= j < i && here[j].path == Parent(p);
      assert WalkIn(l, at)[j].path == Parent(p);
    } else {
      WalkInIsTopDown(l.rest, at, i - |here|);
      if Parent(p) != at {
        var j :| 0 <= j < i - |here| && WalkIn(l.rest, at)[j].path == Parent(p);
        assert WalkIn(l, at)[j + |here|].path == Parent(p);
      }
    }
  }

  // ---------------------------------------------------------------- the folder as a tree

  ghost function TreeOf(n: Node): Tree {
    var walk := Walk(n, []);
    var paths := set i | 0 <= i < |walk| :: walk[i].path;
    map p | p in paths && Lookup(n, p).Some? :: Lookup(n, p).value
  }

  lemma TreeIsLookup(n: Node, p: Path)
    ensures At(TreeOf(n), p) == Lookup(n, p)
  {
    if Lookup(n, p).Some? {
      var i := WalkFinds(n, [], p);
      assert [] + p == p;
      assert Walk(n, [])[i].path == p;
    }
  }

  /** A path that leads somewhere leads through folders. */
  lemma {:induction false} LookupParent(n: Node, p: Path)
    requires p != [] && Lookup(n, p).Some?
    ensures Lookup(n, Parent(p)) == Some(Dir)
    decreases n
  {
    if |p| > 1 {
      LookupParentIn(n.listing, p);
    }
  }

  lemma {:induction false} LookupParentIn(l: Listing, p: Path)
    requires |p| > 1 && LookupIn(l, p).Some?
    ensures LookupIn(l, Parent(p)) == Some(Dir)
    decreases l
  {
    if p[0] == l.name {
      LookupParent(l.node, p[1..]);
      assert Parent(p)[1..] == Parent(p[1..]);
    } else {
      LookupParentIn(l.rest, p);
    }
  }

  lemma TreeIsWellFormed(n: Node)
    requires n.Folder?
    ensures WellFormed(TreeOf(n))
  {
    TreeIsLookup(n, []);
    forall p <- TreeOf(n) | p != [] ensures HasParent(TreeOf(n), p) {
      TreeIsLookup(n, p);
      LookupParent(n, p);
      TreeIsLookup(n, Parent(p));
    }
  }

  lemma WalkItemIsThere(n: Node, i: nat)
    requires WellNamed(n) && 0 < i < |Walk(n, [])|
    ensures var item := Walk(n, [])[i];
            item.path != [] && item.path in TreeOf(n) && TreeOf(n)[item.path] == item.entry
  {
    var item := Walk(n, [])[i];
    WalkIsThere(n, [], i);
    assert item.path[0..] == item.path;
    TreeIsLookup(n, item.path);
  }

  lemma WalkHasAll(n: Node, p: Path) returns (i: nat)
    requires p in TreeOf(n) && p != []
    ensures 0 < i < |Walk(n, [])| && Walk(n, [])[i].path == p
  {
    TreeIsLookup(n, p);
    i := WalkFinds(n, [], p);
    assert [] + p == p;
  }

  /** `items` is the walk without the root. */
  ghost predicate IsTail(items: seq<Item>, walk: seq<Item>) {
    |walk| == |items| + 1 && forall i :: 0 <= i < |items| ==> items[i] == walk[i + 1]
  }

  /** The walk without the root lists the tree. */
  lemma WalkLists(n: Node, items: seq<Item>)
    requires WellNamed(n) && IsTail(items, Walk(n, []))
    ensures Lists(items, TreeOf(n))
  {
    forall i | 0 <= i < |items|
      ensures items[i].path != [] && items[i].path in TreeOf(n) && TreeOf(n)[items[i].path] == items[i].entry
    {
      WalkItemIsThere(n, i + 1);
    }
    forall p <- TreeOf(n) | p != [] ensures exists i :: 0 <= i < |items| && items[i].path == p {
      var i := WalkHasAll(n, p);
      assert items[i - 1].path == p;
    }
    forall i, j | 0 <= i < j < |items| ensures items[i].path != items[j].path {
      WalkIsDistinct(n, [], i + 1, j + 1);
    }
  }

  lemma WalkHasParentsFirst(n: Node)
    requires WellNamed(n)
    ensures ParentsFirst(Walk(n, [])[1..])
  {
    var walk, items := Walk(n, []), Walk(n, [])[1..];
    forall i | 0 <= i < |items| && |items[i].path| > 1 ensures Listed(items, i, Parent(items[i].path)) {
      WalkIsTopDown(n, [], i + 1);
      var j :| 0 <= j < i + 1 && walk[j].path == Parent(items[i].path);
      assert items[j - 1].path == Parent(items[i].path);
    }
  }

  /**
   Results arrive whole: the walk of a folder, sent into a fresh save location, rebuilds the folder
   with every file's content at its path and nothing else.
   */
  lemma ResultsAreRebuilt(n: Node, p: Path)
    requires n.Folder? && WellNamed(n)
    ensures At(Deliver(FRESH, Walk(n, [])[1..], NO_FAULTS), p) == Lookup(n, p)
  {
    TreeIsWellFormed(n);
    WalkLists(n, Walk(n, [])[1..]);
    WalkHasParentsFirst(n);
    RebuiltIffParentsFirst(TreeOf(n), Walk(n, [])[1..]);
    TreeIsLookup(n, p);
  }

  /** What is at a path of the folder if neither it nor a folder above it is lost, as far as it was written. */
  ghost function Surviving(n: Node, f: Faults, p: Path): Option<Entry> {
    if Intact(f.lost, p) && Lookup(n, p).Some? then Some(if p == [] then Dir else Kept(f, p, Lookup(n, p).value)) else None
  }

  lemma SurvivingArrives(n: Node, f: Faults, p: Path)
    requires n.Folder?
    ensures At(FRESH + Arriving(FRESH, TreeOf(n), f), p) == Surviving(n, f, p)
  {
    TreeIsLookup(n, p);
    TreeIsWellFormed(n);
    if p != [] && p in TreeOf(n) {
      ArrivesFresh(TreeOf(n), f.lost, p);
    }
  }

  /** With losses, what is missing is what was lost and everything below it. */
  lemma LossesAreSubtrees(n: Node, f: Faults, p: Path)
    requires n.Folder? && WellNamed(n)
    ensures At(Deliver(FRESH, Walk(n, [])[1..], f), p) == Surviving(n, f, p)
  {
    var items := Walk(n, [])[1..];
    TreeIsWellFormed(n);
    WalkLists(n, items);
    WalkHasParentsFirst(n);
    DeliveredTree(FRESH, TreeOf(n), items, f);
    SurvivingArrives(n, f, p);
  }

  /** Whatever the save location holds, it is overlaid with what arrives of the folder. */
  lemma ResultsOverlay(n: Node, base: Tree, f: Faults)
    requires n.Folder? && WellNamed(n) && WellFormed(base)
    ensures Deliver(base, Walk(n, [])[1..], f) == base + Arriving(base, TreeOf(n), f)
  {
    TreeIsWellFormed(n);
    WalkLists(n, Walk(n, [])[1..]);
    WalkHasParentsFirst(n);
    DeliveredTree(base, TreeOf(n), Walk(n, [])[1..], f);
  }

  /**
   The node's end: walk the folder the job left its results in, skip the root, and send.  The save
   location may hold the results of an earlier run of the job.
   */
  method SendResults(n: Node, unreadable: set<Path>, receiver: Receiver, conn: ByteStream, back: ByteStream,
                     c: Codec, chunks: nat -> nat)
    returns (done: bool)
    requires n.Folder? && WellNamed(n) && TransfersFaithfully(c, Walk(n, [])[1..])
    requires conn != back && Between(receiver, conn, back) && WellFormed(receiver.files)
    modifies receiver, conn, back
    ensures var f := receiver.faults.(lost := receiver.faults.lost + unreadable);
            && (done ==> receiver.files == old(receiver.files) + Arriving(old(receiver.files), TreeOf(n), f))
            && (!done ==> exists p :: p in TreeOf(n) && IsLarge(TreeOf(n)[p]) && p in f.torn)
  {
    var items := Walk(n, [])[1..];
    ghost var base, f := receiver.files, receiver.faults.(lost := receiver.faults.lost + unreadable);
    done := SendFiles(items, unreadable, receiver, conn, back, c, chunks);
    ghost var k := TransferDelivers(base, items, f);
    if done {
      assert items[..k] == items;
      ResultsOverlay(n, base, f);
    } else {
      WalkItemIsThere(n, k);
    }
  }
}
