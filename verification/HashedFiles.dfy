/**
 A batch's files on their two hops: from the user to the server under names made of hashes, and
 from the server to a node under their own names again.  The hashes are arbitrary: nothing here
 depends on two of them being different.
 */
module HashedFiles {
  import opened Types
  import opened Text
  import opened Framing
  import opened FileTransfer

  // ---------------------------------------------------------------- names

  const HASH_LENGTH: nat := 40

  predicate IsHexDigit(c: char) {
    '0' <= c <= '9' || 'a' <= c <= 'f'
  }

  predicate IsHash(h: string) {
    |h| == HASH_LENGTH && forall i :: 0 <= i < |h| ==> IsHexDigit(h[i])
  }

  /** A file's place in a batch. */
  datatype Slot = Sif | Init(index: nat) | JobFile(job: nat, file: nat)

  /** One hash for the initialization and one for each job. */
  datatype Hashes = Hashes(init: string, jobs: nat -> string)

  ghost predicate AreHashes(h: Hashes) {
    IsHash(h.init) && forall k :: IsHash(h.jobs(k))
  }

  function Tail(slot: Slot): string {
    match slot
    case Sif => ".dist"
    case Init(i) => "_" + (Decimal(i) + ".dist")
    case JobFile(j, f) => "_" + (Decimal(j) + ("_" + (Decimal(f) + ".dist")))
  }

  function NameOf(slot: Slot, h: Hashes): string {
    match slot
    case Sif => "setup_sif_" + h.init + Tail(slot)
    case Init(_) => h.init + Tail(slot)
    case JobFile(j, _) => h.jobs(j) + Tail(slot)
  }

  /** The names as they are written: the image, the first file of the initialization, the twelfth file of the third job. */
  lemma NamesAsWritten(h: Hashes)
    ensures NameOf(Sif, h) == "setup_sif_" + h.init + ".dist"
    ensures NameOf(Init(0), h) == h.init + "_0.dist"
    ensures NameOf(JobFile(2, 11), h) == h.jobs(2) + "_2_11.dist"
  {
    TailsAsWritten();
  }

  lemma TailsAsWritten()
    ensures Tail(Init(0)) == "_0.dist" && Tail(JobFile(2, 11)) == "_2_11.dist"
  {
    var zero, two, eleven := Decimal(0), Decimal(2), Decimal(11);
    assert zero == "0" && two == "2";
    assert eleven == "1" + "1";
  }

  lemma DecimalIsInjective(i: nat, j: nat)
    requires Decimal(i) == Decimal(j)
    ensures i == j
  {
    DecimalDenotes(i);
    DecimalDenotes(j);
  }

  /** The digits in front of a text end at one place. */
  lemma OneEndOfDigits(s: string, n: nat, m: nat)
    requires Digits(s, 0, n) && n < |s| && !IsDigit(s[n])
    requires Digits(s, 0, m) && m < |s| && !IsDigit(s[m])
    ensures n == m
  {
    DigitsStop(s, 0, n, m);
    DigitsStop(s, 0, m, n);
  }

  /** A number in front of something that is not a digit can be read off. */
  lemma NumberInFront(i: nat, x: string, j: nat, y: string)
    requires x != [] && y != [] && !IsDigit(x[0]) && !IsDigit(y[0])
    requires Decimal(i) + x == Decimal(j) + y
    ensures i == j && x == y
  {
    var a, b, s := Decimal(i), Decimal(j), Decimal(i) + x;
    DecimalDenotes(i);
    DecimalDenotes(j);
    SameDigits(s, 0, a, 0, |a|);
    SameDigits(s, 0, b, 0, |b|);
    OneEndOfDigits(s, |a|, |b|);
    assert a == s[..|a|] && b == s[..|b|] && x == s[|a|..] && y == s[|b|..];
    DecimalIsInjective(i, j);
  }

  /** The text after the hash tells which slot a name is for. */
  lemma TailsAreDistinct(a: Slot, b: Slot)
    requires Tail(a) == Tail(b)
    ensures a == b
  {
    if a.Sif? || b.Sif? {
      assert Tail(a)[0] == Tail(b)[0];
    } else {
      var i, j := if a.Init? then a.index else a.job, if b.Init? then b.index else b.job;
      var x := if a.Init? then ".dist" else "_" + (Decimal(a.file) + ".dist");
      var y := if b.Init? then ".dist" else "_" + (Decimal(b.file) + ".dist");
      assert Tail(a)[1..] == Decimal(i) + x && Tail(b)[1..] == Decimal(j) + y;
      NumberInFront(i, x, j, y);
      if a.JobFile? && b.JobFile? {
        assert x[1..] == Decimal(a.file) + ".dist" && y[1..] == Decimal(b.file) + ".dist";
        NumberInFront(a.file, ".dist", b.file, ".dist");
      } else {
        assert x[0] == y[0];
      }
    }
  }

  /** Within a batch two files never get the same name, even if all the hashes are the same. */
  lemma NamesAreDistinct(a: Slot, b: Slot, h: Hashes)
    requires AreHashes(h) && NameOf(a, h) == NameOf(b, h)
    ensures a == b
  {
    assert NameOf(Sif, h)[0] == 's';
    if !a.Sif? {
      NameSplits(a, h);
    }
    if !b.Sif? {
      NameSplits(b, h);
    }
    if !a.Sif? && !b.Sif? {
      TailsAreDistinct(a, b);
    }
  }

  lemma NameSplits(slot: Slot, h: Hashes)
    requires AreHashes(h) && !slot.Sif?
    ensures var s := NameOf(slot, h);
            |s| > HASH_LENGTH && IsHexDigit(s[0]) && s[HASH_LENGTH..] == Tail(slot)
  {
    var hash := if slot.Init? then h.init else h.jobs(slot.job);
    assert IsHash(hash) && NameOf(slot, h) == hash + Tail(slot);
  }

  // ---------------------------------------------------------------- host paths

  /** A path as a machine sees it, from its root or from its working directory. */
  datatype HostPath = HostPath(absolute: bool, parts: Path)

  function NormalizePathbuf(p: HostPath, base: HostPath): HostPath {
    if !p.absolute then HostPath(base.absolute, base.parts + p.parts) else p
  }

  /** What a machine reads at a host path when the directory `base` holds `t`; anything outside is not known. */
  function Stored(t: Tree, base: HostPath, p: HostPath): Option<Entry> {
    if p.absolute == base.absolute && |base.parts| <= |p.parts| && p.parts[..|base.parts|] == base.parts
    then At(t, p.parts[|base.parts|..])
    else None
  }

  /** A normalized relative path is read where it was received; normalizing once is enough below an absolute directory. */
  lemma NormalizedIsStored(t: Tree, base: HostPath, p: HostPath, other: HostPath)
    requires !p.absolute
    ensures Stored(t, base, NormalizePathbuf(p, base)) == At(t, p.parts)
    ensures base.absolute ==> NormalizePathbuf(NormalizePathbuf(p, base), other) == NormalizePathbuf(p, base)
    ensures NormalizePathbuf(p, base) == HostPath(base.absolute, base.parts + p.parts)
  {
    var q := base.parts + p.parts;
    assert q[..|base.parts|] == base.parts && q[|base.parts|..] == p.parts;
  }

  // ---------------------------------------------------------------- batches

  /** A file of the user: where it is, and the name (or alias) it is to have on the node. */
  datatype UserFile = UserFile(location: Path, name: string)

  datatype HashedFile = HashedFile(hashedPath: HostPath, unhashedPathUser: Path, originalFilename: string)

  datatype Batch = Batch(sif: UserFile, initFiles: seq<UserFile>, jobs: seq<seq<UserFile>>)

  type Listing = seq<(Slot, UserFile)>

  function HashFile(slot: Slot, file: UserFile, h: Hashes): HashedFile {
    HashedFile(HostPath(false, [NameOf(slot, h)]), file.location, file.name)
  }

  function Hashed(l: Listing, h: Hashes): seq<HashedFile> {
    seq(|l|, i requires 0 <= i < |l| => HashFile(l[i].0, l[i].1, h))
  }

  function Normalized(files: seq<HashedFile>, base: HostPath): seq<HashedFile> {
    seq(|files|, i requires 0 <= i < |files| => files[i].(hashedPath := NormalizePathbuf(files[i].hashedPath, base)))
  }

  /** What the server does to the files of a batch before it stores the batch. */
  method NormalizePaths(files: array<HashedFile>, base: HostPath)
    modifies files
    ensures files[..] == Normalized(old(files[..]), base)
  {
    for i := 0 to files.Length
      invariant forall k :: 0 <= k < i ==>
        files[k] == old(files[k]).(hashedPath := NormalizePathbuf(old(files[k]).hashedPath, base))
      invariant forall k :: i <= k < files.Length ==> files[k] == old(files[k])
    {
      files[i] := files[i].(hashedPath := NormalizePathbuf(files[i].hashedPath, base));
    }
  }

  /** The files a node needs for compiling. */
  function InitGroup(b: Batch): Listing {
    [(Sif, b.sif)] + seq(|b.initFiles|, i requires 0 <= i < |b.initFiles| => (Init(i), b.initFiles[i]))
  }

  /** The files of one job. */
  function JobGroup(b: Batch, k: nat): Listing
    requires k < |b.jobs|
  {
    seq(|b.jobs[k]|, f requires 0 <= f < |b.jobs[k]| => (JobFile(k, f), b.jobs[k][f]))
  }

  function JobGroups(b: Batch, n: nat): Listing
    requires n <= |b.jobs|
  {
    if n == 0 then [] else JobGroups(b, n - 1) + JobGroup(b, n - 1)
  }

  /** All files of a batch in the order in which the user sends them. */
  function AllFiles(b: Batch): Listing {
    InitGroup(b) + JobGroups(b, |b.jobs|)
  }

  function FileAt(b: Batch, slot: Slot): Option<UserFile> {
    match slot
    case Sif => Some(b.sif)
    case Init(i) => if i < |b.initFiles| then Some(b.initFiles[i]) else None
    case JobFile(j, f) => if j < |b.jobs| && f < |b.jobs[j]| then Some(b.jobs[j][f]) else None
  }

  /** The image, then the files of the initialization, then those of each job, in the order of the batch. */
  predicate Precedes(a: Slot, b: Slot) {
    match (a, b)
    case (Sif, _) => !b.Sif?
    case (Init(i), Init(j)) => i < j
    case (Init(_), JobFile(_, _)) => true
    case (JobFile(i, f), JobFile(j, g)) => i < j || (i == j && f < g)
    case _ => false
  }

  ghost predicate InOrder(l: Listing) {
    forall i, j :: 0 <= i < j < |l| ==> Precedes(l[i].0, l[j].0)
  }

  lemma {:induction false} JobGroupsList(b: Batch, n: nat)
    requires n <= |b.jobs|
    ensures var l := JobGroups(b, n);
            && InOrder(l)
            && (forall i :: 0 <= i < |l| ==> l[i].0.JobFile? && l[i].0.job < n && FileAt(b, l[i].0) == Some(l[i].1))
            && (forall k, f :: 0 <= k < n && 0 <= f < |b.jobs[k]| ==> (JobFile(k, f), b.jobs[k][f]) in l)
  {
    if n > 0 {
      JobGroupsList(b, n - 1);
      var front, last := JobGroups(b, n - 1), JobGroup(b, n - 1);
      forall k, f | 0 <= k < n && 0 <= f < |b.jobs[k]| ensures (JobFile(k, f), b.jobs[k][f]) in JobGroups(b, n) {
        if k == n - 1 {
          assert last[f] == (JobFile(k, f), b.jobs[k][f]);
        }
      }
    }
  }

  /** The user sends every file of the batch exactly once, in the order of the batch. */
  lemma AllFilesAreListed(b: Batch)
    ensures var l := AllFiles(b);
            && InOrder(l)
            && (forall i :: 0 <= i < |l| ==> FileAt(b, l[i].0) == Some(l[i].1))
            && (forall slot :: FileAt(b, slot).Some? ==> (slot, FileAt(b, slot).value) in l)
  {
    JobGroupsList(b, |b.jobs|);
    var front := InitGroup(b);
    forall slot | FileAt(b, slot).Some? ensures (slot, FileAt(b, slot).value) in AllFiles(b) {
      if slot.Sif? {
        assert front[0] == (slot, FileAt(b, slot).value);
      } else if slot.Init? {
        assert front[slot.index + 1] == (slot, FileAt(b, slot).value);
      }
    }
  }

  // ---------------------------------------------------------------- the first hop

  /** What the user sends: each file's content, to its hashed path. */
  function UserItems(files: seq<HashedFile>, disk: Path -> Bytes): seq<Item> {
    seq(|files|, i requires 0 <= i < |files| => Item(files[i].hashedPath.parts, File(disk(files[i].unhashedPathUser))))
  }

  /** The server's directory after it received the batch. */
  function Received(server: Tree, b: Batch, h: Hashes, disk: Path -> Bytes): Tree {
    Deliver(server, UserItems(Hashed(AllFiles(b), h), disk), NO_FAULTS)
  }

  /** A directory to receive files in: it is there, and it holds nothing but files. */
  ghost predicate FilesOnly(t: Tree) {
    [] in t && t[[]].Dir? && forall p <- t :: p == [] || t[p].File?
  }

  lemma {:induction false} LastIsOnly(items: seq<Item>, i: nat)
    requires i < |items| && forall j :: 0 <= j < |items| && j != i ==> items[j].path != items[i].path
    ensures Last(items, items[i].path) == Some(items[i].entry)
    decreases |items|
  {
    if i < |items| - 1 {
      LastIsOnly(items[..|items| - 1], i);
    }
  }

  lemma {:induction false} LastIsNone(items: seq<Item>, p: Path)
    requires forall j :: 0 <= j < |items| ==> items[j].path != p
    ensures Last(items, p) == None
    decreases |items|
  {
    if items != [] {
      LastIsNone(items[..|items| - 1], p);
    }
  }

  /** No two files of a batch are sent to one path. */
  lemma SentToItsOwnPath(b: Batch, h: Hashes, disk: Path -> Bytes, i: nat)
    requires AreHashes(h) && i < |AllFiles(b)|
    ensures var items := UserItems(Hashed(AllFiles(b), h), disk);
            forall j :: 0 <= j < |items| && j != i ==> items[j].path != items[i].path
  {
    var l := AllFiles(b);
    var items := UserItems(Hashed(l, h), disk);
    AllFilesAreListed(b);
    forall j | 0 <= j < |items| && j != i ensures items[j].path != items[i].path {
      assert items[j].path == items[i].path ==> items[j].path[0] == items[i].path[0];
      assert Precedes(l[j].0, l[i].0) || Precedes(l[i].0, l[j].0);
      if NameOf(l[j].0, h) == NameOf(l[i].0, h) {
        NamesAreDistinct(l[j].0, l[i].0, h);
      }
    }
  }

  lemma HashedNamesAreReceived(b: Batch, h: Hashes, disk: Path -> Bytes, server: Tree, slot: Slot, other: Path)
    requires AreHashes(h) && FilesOnly(server) && FileAt(b, slot).Some?
    requires forall s :: other != [NameOf(s, h)]
    ensures At(Received(server, b, h, disk), [NameOf(slot, h)]) == Some(File(disk(FileAt(b, slot).value.location)))
    ensures At(Received(server, b, h, disk), other) == At(server, other)
  {
    var l := AllFiles(b);
    var items := UserItems(Hashed(l, h), disk);
    AllFilesAreListed(b);
    var i :| 0 <= i < |l| && l[i] == (slot, FileAt(b, slot).value);
    SentToItsOwnPath(b, h, disk, i);
    LastIsOnly(items, i);
    LastIsNone(items, other);
    FlatDelivery(server, items, items[i].path);
    FlatDelivery(server, items, other);
  }

  /** Where the server looks for a file of the batch. */
  function OnServer(slot: Slot, h: Hashes, base: HostPath): HostPath {
    NormalizePathbuf(HostPath(false, [NameOf(slot, h)]), base)
  }

  /** The server has the files of this batch at their normalized hashed paths. */
  ghost predicate Holds(server: Tree, base: HostPath, b: Batch, h: Hashes, disk: Path -> Bytes) {
    forall slot :: FileAt(b, slot).Some? ==>
      Stored(server, base, OnServer(slot, h, base)) == Some(File(disk(FileAt(b, slot).value.location)))
  }

  /**
   After the first hop every normalized hashed path holds the content of its own file, whatever was
   in the directory before, and every path of another name is as it was.
   */
  lemma HashedNamesHoldTheFiles(b: Batch, h: Hashes, disk: Path -> Bytes, server: Tree, base: HostPath, other: Path)
    requires AreHashes(h) && FilesOnly(server)
    requires forall s :: other != [NameOf(s, h)]
    ensures Holds(Received(server, b, h, disk), base, b, h, disk)
    ensures At(Received(server, b, h, disk), other) == At(server, other)
  {
    HashedNamesAreReceived(b, h, disk, server, Sif, other);
    forall slot | FileAt(b, slot).Some?
      ensures Stored(Received(server, b, h, disk), base, OnServer(slot, h, base))
           == Some(File(disk(FileAt(b, slot).value.location)))
    {
      HashedNamesAreReceived(b, h, disk, server, slot, other);
      NormalizedIsStored(Received(server, b, h, disk), base, HostPath(false, [NameOf(slot, h)]), base);
    }
  }

  // ---------------------------------------------------------------- the second hop

  /** The files as the server keeps them with the batch. */
  function OnRecord(l: Listing, h: Hashes, base: HostPath): seq<HashedFile> {
    Normalized(Hashed(l, h), base)
  }

  /** What the server sends to a node: what it has at each hashed path, to the file's own name. */
  function ServerItems(files: seq<HashedFile>, server: Tree, base: HostPath): seq<Item>
    requires forall i :: 0 <= i < |files| ==> Stored(server, base, files[i].hashedPath).Some?
  {
    seq(|files|, i requires 0 <= i < |files| =>
      Item([files[i].originalFilename], Stored(server, base, files[i].hashedPath).value))
  }

  /** The files a node gets together: those of the initialization, or those of one job. */
  function Group(b: Batch, job: Option<nat>): Listing
    requires job.Some? ==> job.value < |b.jobs|
  {
    match job case None => InitGroup(b) case Some(k) => JobGroup(b, k)
  }

  lemma GroupIsListed(b: Batch, job: Option<nat>, i: nat)
    requires (job.Some? ==> job.value < |b.jobs|) && i < |Group(b, job)|
    ensures FileAt(b, Group(b, job)[i].0) == Some(Group(b, job)[i].1)
  {
  }

  lemma GroupIsStored(b: Batch, h: Hashes, disk: Path -> Bytes, server: Tree, base: HostPath, job: Option<nat>)
    requires Holds(server, base, b, h, disk) && (job.Some? ==> job.value < |b.jobs|)
    ensures var l := Group(b, job);
            forall i :: 0 <= i < |l| ==>
              Stored(server, base, OnRecord(l, h, base)[i].hashedPath) == Some(File(disk(l[i].1.location)))
  {
    var l := Group(b, job);
    forall i | 0 <= i < |l|
      ensures Stored(server, base, OnRecord(l, h, base)[i].hashedPath) == Some(File(disk(l[i].1.location)))
    {
      GroupIsListed(b, job, i);
      assert OnRecord(l, h, base)[i].hashedPath == OnServer(l[i].0, h, base);
    }
  }

  /** A node's directory after it received a list of files from the server. */
  function Fetched(node: Tree, l: Listing, h: Hashes, server: Tree, base: HostPath): Tree
    requires forall i :: 0 <= i < |l| ==> Stored(server, base, OnRecord(l, h, base)[i].hashedPath).Some?
  {
    Deliver(node, ServerItems(OnRecord(l, h, base), server, base), NO_FAULTS)
  }

  /** The last file of a list with the name of its `i`-th. */
  ghost predicate IsLastNamed(l: Listing, i: nat, k: nat) {
    && i <= k < |l| && l[k].1.name == l[i].1.name
    && forall j :: k < j < |l| ==> l[j].1.name != l[i].1.name
  }

  lemma {:induction false} LastNamedFrom(l: Listing, i: nat, n: nat)
    requires i < n <= |l| && forall j :: n <= j < |l| ==> l[j].1.name != l[i].1.name
    ensures exists k :: IsLastNamed(l, i, k)
    decreases n
  {
    if l[n - 1].1.name == l[i].1.name {
      assert IsLastNamed(l, i, n - 1);
    } else {
      LastNamedFrom(l, i, n - 1);
    }
  }

  ghost function LastNamed(l: Listing, i: nat): (k: nat)
    requires i < |l|
    ensures IsLastNamed(l, i, k)
  {
    LastNamedFrom(l, i, |l|);
    var k: nat :| IsLastNamed(l, i, k);
    k
  }

  lemma {:induction false} LastAt(items: seq<Item>, k: nat)
    requires k < |items| && forall j :: k < j < |items| ==> items[j].path != items[k].path
    ensures Last(items, items[k].path) == Some(items[k].entry)
    decreases |items|
  {
    if k < |items| - 1 {
      LastAt(items[..|items| - 1], k);
    }
  }

  /** What reaches a node under a file's name is the content of the last file of its group with that name. */
  lemma NamesHoldTheLast(b: Batch, h: Hashes, disk: Path -> Bytes, server: Tree, base: HostPath, job: Option<nat>,
                         node: Tree, i: nat)
    requires (job.Some? ==> job.value < |b.jobs|) && Holds(server, base, b, h, disk) && FilesOnly(node)
    requires i < |Group(b, job)|
    requires forall j :: 0 <= j < |Group(b, job)| ==> Stored(server, base, OnRecord(Group(b, job), h, base)[j].hashedPath).Some?
    ensures var l := Group(b, job);
            At(Fetched(node, l, h, server, base), [l[i].1.name]) == Some(File(disk(l[LastNamed(l, i)].1.location)))
  {
    var l := Group(b, job);
    GroupIsStored(b, h, disk, server, base, job);
    var items, k := ServerItems(OnRecord(l, h, base), server, base), LastNamed(l, i);
    forall j | k < j < |items| ensures items[j].path != items[k].path {
      assert items[j].path[0] == l[j].1.name && items[k].path[0] == l[i].1.name;
    }
    LastAt(items, k);
    FlatDelivery(node, items, [l[i].1.name]);
  }

  /** Every file of the list is in the tree under its own name with its own bytes. */
  ghost predicate ArrivedWhole(l: Listing, disk: Path -> Bytes, got: Tree) {
    forall i :: 0 <= i < |l| ==> At(got, [l[i].1.name]) == Some(File(disk(l[i].1.location)))
  }

  /** Files with the same name have the same bytes. */
  ghost predicate NamesAgree(l: Listing, disk: Path -> Bytes) {
    forall i, j :: 0 <= i < j < |l| && l[i].1.name == l[j].1.name ==> disk(l[i].1.location) == disk(l[j].1.location)
  }

  lemma AgreeWithTheLast(l: Listing, disk: Path -> Bytes, i: nat)
    requires i < |l| && NamesAgree(l, disk)
    ensures disk(l[LastNamed(l, i)].1.location) == disk(l[i].1.location)
  {
    var k := LastNamed(l, i);
    assert i < k ==> l[i].1.name == l[k].1.name;
  }

  lemma ArrivedFilesAgree(l: Listing, disk: Path -> Bytes, got: Tree)
    requires ArrivedWhole(l, disk, got)
    ensures NamesAgree(l, disk)
  {
    forall i, j | 0 <= i < j < |l| && l[i].1.name == l[j].1.name ensures disk(l[i].1.location) == disk(l[j].1.location) {
      assert At(got, [l[i].1.name]) == At(got, [l[j].1.name]);
    }
  }

  /**
   The second hop, from a server which still holds the batch: the files of a job (or of the
   initialization) reach the node under their own names with the user's bytes exactly when any two
   of them with one name have the same bytes.
   */
  lemma SecondHop(b: Batch, h: Hashes, disk: Path -> Bytes, server: Tree, base: HostPath, job: Option<nat>, node: Tree)
    requires Holds(server, base, b, h, disk) && FilesOnly(node) && (job.Some? ==> job.value < |b.jobs|)
    ensures forall i :: 0 <= i < |Group(b, job)| ==> Stored(server, base, OnRecord(Group(b, job), h, base)[i].hashedPath).Some?
    ensures ArrivedWhole(Group(b, job), disk, Fetched(node, Group(b, job), h, server, base))
       <==> NamesAgree(Group(b, job), disk)
  {
    GroupIsStored(b, h, disk, server, base, job);
    var l := Group(b, job);
    var got := Fetched(node, l, h, server, base);
    if NamesAgree(l, disk) {
      forall i | 0 <= i < |l| ensures At(got, [l[i].1.name]) == Some(File(disk(l[i].1.location))) {
        NamesHoldTheLast(b, h, disk, server, base, job, node, i);
        AgreeWithTheLast(l, disk, i);
      }
    }
    if ArrivedWhole(l, disk, got) {
      ArrivedFilesAgree(l, disk, got);
    }
  }

  /** A later batch whose hashed names are others leaves this batch's files on the server alone. */
  lemma OtherBatchesDoNotInterfere(b: Batch, h: Hashes, disk: Path -> Bytes, other: Batch, g: Hashes,
                                   disk': Path -> Bytes, server: Tree, base: HostPath)
    requires Holds(server, base, b, h, disk) && AreHashes(g) && FilesOnly(server)
    requires forall s, t :: FileAt(b, s).Some? ==> NameOf(s, h) != NameOf(t, g)
    ensures Holds(Received(server, other, g, disk'), base, b, h, disk)
  {
    var after := Received(server, other, g, disk');
    forall slot | FileAt(b, slot).Some?
      ensures Stored(after, base, OnServer(slot, h, base)) == Some(File(disk(FileAt(b, slot).value.location)))
    {
      var p := HostPath(false, [NameOf(slot, h)]);
      forall t ensures p.parts != [NameOf(t, g)] {
        assert p.parts[0] != [NameOf(t, g)][0];
      }
      HashedNamesAreReceived(other, g, disk', server, Sif, p.parts);
      NormalizedIsStored(server, base, p, base);
      NormalizedIsStored(after, base, p, base);
    }
  }

  /** Both hops: what the user sent is what each node gets, under the names the user gave. */
  lemma TwoHops(b: Batch, h: Hashes, disk: Path -> Bytes, server: Tree, base: HostPath, job: Option<nat>, node: Tree)
    requires AreHashes(h) && FilesOnly(server) && FilesOnly(node) && (job.Some? ==> job.value < |b.jobs|)
    ensures var stored := Received(server, b, h, disk);
            && (forall i :: 0 <= i < |Group(b, job)| ==>
                  Stored(stored, base, OnRecord(Group(b, job), h, base)[i].hashedPath).Some?)
            && (ArrivedWhole(Group(b, job), disk, Fetched(node, Group(b, job), h, stored, base))
                <==> NamesAgree(Group(b, job), disk))
  {
    HashedNamesHoldTheFiles(b, h, disk, server, base, []);
    SecondHop(b, h, disk, Received(server, b, h, disk), base, job, node);
  }

  /**
   Two files of one name and different bytes in one job are enough for the node to get less than the
   user sent: only the second one's bytes arrive.
   */
  lemma NamesCollide(sif: UserFile, first: UserFile, second: UserFile, h: Hashes, disk: Path -> Bytes, server: Tree,
                     base: HostPath, node: Tree)
    requires AreHashes(h) && FilesOnly(server) && FilesOnly(node)
    requires first.name == second.name && disk(first.location) != disk(second.location)
    ensures var b := Batch(sif, [], [[first, second]]);
            var stored := Received(server, b, h, disk);
            && (forall i :: 0 <= i < |Group(b, Some(0))| ==>
                  Stored(stored, base, OnRecord(Group(b, Some(0)), h, base)[i].hashedPath).Some?)
            && var got := Fetched(node, Group(b, Some(0)), h, stored, base);
               !ArrivedWhole(Group(b, Some(0)), disk, got) && At(got, [first.name]) == Some(File(disk(second.location)))
  {
    var b := Batch(sif, [], [[first, second]]);
    var l := Group(b, Some(0));
    var stored := Received(server, b, h, disk);
    TwoHops(b, h, disk, server, base, Some(0), node);
    assert l == [(JobFile(0, 0), first), (JobFile(0, 1), second)];
    assert l[0].1.name == l[1].1.name && !NamesAgree(l, disk);
    HashedNamesHoldTheFiles(b, h, disk, server, base, []);
    NamesHoldTheLast(b, h, disk, stored, base, Some(0), node, 0);
    assert LastNamed(l, 0) == 1;
  }
}
