/**
 Sending files: the sender walks its list, small files travel in one message, large ones are
 streamed after the receiver agreed, and the receiver creates what it is told below its save
 location.  Every message and every answer is a frame on a stream.  A file or directory that cannot
 be read or created is logged and skipped.
 */
module FileTransfer {
  import opened Types
  import opened Framing

  type Path = seq<string>

  datatype Entry = Dir | File(content: Bytes)

  /** Everything below the save location, which is the empty path. */
  type Tree = map<Path, Entry>

  /** A file or directory to send: its path relative to the save location, and what reading it gives. */
  datatype Item = Item(path: Path, entry: Entry)

  const LARGE_FILE_BYTE_THRESHOLD: nat := 1_000_000_000

  predicate IsLarge(e: Entry) {
    e.File? && |e.content| > LARGE_FILE_BYTE_THRESHOLD
  }

  function Parent(p: Path): Path
    requires p != []
  {
    p[..|p| - 1]
  }

  // ---------------------------------------------------------------- the receiver's file system

  /**
   What goes wrong: `lost` are the paths which one side or the other fails to read or create, `torn`
   those at which a write fails after so many bytes.
   */
  datatype Faults = Faults(lost: set<Path>, torn: map<Path, nat>)

  const NO_FAULTS := Faults({}, map[])

  /** A new entry needs a directory to be in. */
  predicate HasParent(t: Tree, p: Path) {
    p != [] && Parent(p) in t && t[Parent(p)].Dir?
  }

  /** `File::create`: makes or empties a file; a directory in its place is an error. */
  predicate CanCreateFile(t: Tree, p: Path) {
    HasParent(t, p) && (p in t ==> t[p].File?)
  }

  /** Whatever already has the path, creating a directory there is taken as done. */
  function CreateDir(t: Tree, p: Path): Tree {
    if HasParent(t, p) && p !in t then t[p := Dir] else t
  }

  /** What is left of an entry that is written at a path. */
  function Kept(f: Faults, p: Path, e: Entry): (r: Entry)
    ensures r.Dir? <==> e.Dir?
    ensures r.File? ==> r.content <= e.content
    ensures r == e <==> (e.File? && p in f.torn ==> |e.content| <= f.torn[p])
    ensures r != e ==> |r.content| == f.torn[p]
  {
    if e.File? && p in f.torn && f.torn[p] < |e.content| then File(e.content[..f.torn[p]]) else e
  }

  /** What becomes of one item. */
  function Place(t: Tree, item: Item, f: Faults): Tree {
    if item.path in f.lost then t
    else match item.entry
         case Dir => CreateDir(t, item.path)
         case File(_) => if CanCreateFile(t, item.path) then t[item.path := Kept(f, item.path, item.entry)] else t
  }

  function Deliver(t: Tree, items: seq<Item>, f: Faults): Tree
    decreases |items|
  {
    if items == [] then t else Deliver(Place(t, items[0], f), items[1..], f)
  }

  lemma {:induction false} DeliverSnoc(t: Tree, items: seq<Item>, item: Item, f: Faults)
    ensures Deliver(t, items + [item], f) == Place(Deliver(t, items, f), item, f)
    decreases |items|
  {
    if items == [] {
      assert [item][1..] == [];
    } else {
      assert (items + [item])[1..] == items[1..] + [item];
      DeliverSnoc(Place(t, items[0], f), items[1..], item, f);
    }
  }

  /** A large body that cannot be written whole ends the transfer with an error; a small file is only logged. */
  predicate Breaks(t: Tree, item: Item, f: Faults) {
    && IsLarge(item.entry) && item.path !in f.lost && CanCreateFile(t, item.path)
    && Kept(f, item.path, item.entry) != item.entry
  }

  /** What a whole transfer leaves behind, and whether it came to its end. */
  function Transferred(t: Tree, items: seq<Item>, f: Faults): (Tree, bool)
    decreases |items|
  {
    if items == [] then (t, true)
    else if Breaks(t, items[0], f) then (Place(t, items[0], f), false)
    else Transferred(Place(t, items[0], f), items[1..], f)
  }

  /** A transfer delivers the whole list, or the front of it up to the body that could not be written. */
  lemma {:induction false} TransferDelivers(t: Tree, items: seq<Item>, f: Faults) returns (n: nat)
    ensures n <= |items| && Transferred(t, items, f).0 == Deliver(t, items[..n], f)
    ensures Transferred(t, items, f).1 ==> n == |items|
    ensures !Transferred(t, items, f).1 ==> n > 0 && IsLarge(items[n - 1].entry) && items[n - 1].path in f.torn
    decreases |items|
  {
    if items == [] {
      n := 0;
    } else if Breaks(t, items[0], f) {
      n := 1;
      assert items[..1] == [items[0]] && [items[0]][1..] == [];
    } else {
      var m := TransferDelivers(Place(t, items[0], f), items[1..], f);
      n := m + 1;
      assert items[..n][1..] == items[1..][..m];
    }
  }

  /** A file of more than 10 to the 9 bytes which can be created, and not written whole. */
  ghost predicate TornLarge(got: Tree, item: Item, f: Faults) {
    && item.entry.File? && |item.entry.content| > 1_000_000_000 && item.path !in f.lost
    && HasParent(got, item.path) && (item.path in got ==> got[item.path].File?)
    && item.path in f.torn && f.torn[item.path] < |item.entry.content|
  }

  /** The transfer comes to its end exactly if no such file is met on the way. */
  lemma {:induction false} TransferEndsIff(t: Tree, items: seq<Item>, f: Faults)
    ensures Transferred(t, items, f).1
       <==> forall k :: 0 <= k < |items| ==> !TornLarge(Deliver(t, items[..k], f), items[k], f)
    decreases |items|
  {
    if items != [] {
      var next := Place(t, items[0], f);
      assert items[..0] == [] && Deliver(t, [], f) == t;
      assert Breaks(t, items[0], f) <==> TornLarge(Deliver(t, items[..0], f), items[0], f);
      TransferEndsIff(next, items[1..], f);
      forall k | 0 <= k < |items| - 1 ensures Deliver(next, items[1..][..k], f) == Deliver(t, items[..k + 1], f) {
        assert items[..k + 1][0] == items[0] && items[..k + 1][1..] == items[1..][..k];
      }
      if j :| 0 <= j < |items| && TornLarge(Deliver(t, items[..j], f), items[j], f) {
        assert j > 0 ==> items[1..][j - 1] == items[j] && items[1..][..j - 1] == items[..j][1..];
      }
    }
  }

  // ---------------------------------------------------------------- messages

  datatype FileMsg = SaveFile(item: Item) | FileMarker(path: Path) | FinishFiles

  datatype Reply = ReceivedFile | AwaitingLargeFile | DontSendLargeFile

  /** Serialization, of which only this is known: a message of this transfer is read back, and is not empty. */
  datatype Codec = Codec(
    write: FileMsg -> Bytes,
    read: Bytes -> Option<FileMsg>,
    writeReply: Reply -> Bytes,
    readReply: Bytes -> Option<Reply>)
  {
    ghost predicate Carries(m: FileMsg) {
      0 < |write(m)| <= U64_MAX && read(write(m)) == Some(m)
    }

    ghost predicate CarriesReply(r: Reply) {
      0 < |writeReply(r)| <= U64_MAX && readReply(writeReply(r)) == Some(r)
    }

    ghost predicate CarriesReplies() {
      CarriesReply(ReceivedFile) && CarriesReply(AwaitingLargeFile) && CarriesReply(DontSendLargeFile)
    }
  }

  function MessageFor(item: Item): FileMsg {
    if IsLarge(item.entry) then FileMarker(item.path) else SaveFile(item)
  }

  ghost predicate TransfersFaithfully(c: Codec, items: seq<Item>) {
    && c.CarriesReplies() && c.Carries(FinishFiles)
    && forall i :: 0 <= i < |items| ==>
         c.Carries(MessageFor(items[i])) && (items[i].entry.File? ==> |items[i].entry.content| <= U64_MAX)
  }

  lemma FrameIsRead(payload: Bytes)
    requires 0 < |payload| <= U64_MAX
    ensures Unframe(Frame(payload)) == Some((payload, []))
  {
    assert Frame(payload) == Frame(payload) + [];
    UnframeIffFramed(Frame(payload), payload, []);
  }

  /** One message over an idle stream. */
  method SendMessage(conn: ByteStream, data: Bytes)
    requires conn.bytes == []
    modifies conn`bytes
    ensures conn.bytes == Frame(data)
  {
    Transport(conn, data);
    assert [] + Frame(data) == Frame(data);
  }

  // ---------------------------------------------------------------- the two loops

  /** `awaiting` is the path of a large file whose body comes next. */
  class Receiver {
    var files: Tree
    var awaiting: Option<Path>
    var finished: bool
    const faults: Faults

    constructor (files: Tree, faults: Faults)
      ensures this.files == files && this.faults == faults && awaiting == None && !finished
    {
      this.files, this.faults := files, faults;
      awaiting, finished := None, false;
    }

    /** A small file or a directory; acknowledged even if nothing, or not all of it, could be saved. */
    method SaveFile(item: Item) returns (reply: Reply)
      modifies this`files
      ensures files == Place(old(files), item, faults) && reply == ReceivedFile
    {
      if item.entry.File? {
        if item.path !in faults.lost && CanCreateFile(files, item.path) {
          files := files[item.path := File([])];
          files := files[item.path := Kept(faults, item.path, item.entry)];
        }
      } else {
        if item.path !in faults.lost {
          files := CreateDir(files, item.path);
        }
      }
      reply := ReceivedFile;
    }

    /** The announcement of a large file: its file is created before the sender is told to go on. */
    method FileMarker(path: Path) returns (reply: Reply)
      modifies this`files, this`awaiting
      ensures files == Place(old(files), Item(path, File([])), faults)
      ensures if path !in faults.lost && CanCreateFile(old(files), path)
              then reply == AwaitingLargeFile && awaiting == Some(path)
              else reply == DontSendLargeFile && awaiting == old(awaiting)
    {
      if path !in faults.lost && CanCreateFile(files, path) {
        files := files[path := File([])];
        awaiting := Some(path);
        reply := AwaitingLargeFile;
      } else {
        reply := DontSendLargeFile;
      }
    }

    /** One round of the loop: a message comes in, is acted on, and is answered unless it is the last. */
    method HandleMessage(conn: ByteStream, back: ByteStream, c: Codec) returns (ok: bool)
      requires conn != back && awaiting == None
      modifies this`files, this`awaiting, this`finished, conn, back`bytes
      ensures match Decoded(c, old(conn.bytes))
              case None => !ok && files == old(files) && finished == old(finished)
              case Some((m, rest)) =>
                ok && conn.bytes == rest &&
                match m
                case SaveFile(item) =>
                  && files == Place(old(files), item, faults) && awaiting == None && finished == old(finished)
                  && back.bytes == old(back.bytes) + Frame(c.writeReply(ReceivedFile))
                case FileMarker(path) =>
                  && files == Place(old(files), Item(path, File([])), faults) && finished == old(finished)
                  && (if path !in faults.lost && CanCreateFile(old(files), path)
                      then awaiting == Some(path) && back.bytes == old(back.bytes) + Frame(c.writeReply(AwaitingLargeFile))
                      else awaiting == None && back.bytes == old(back.bytes) + Frame(c.writeReply(DontSendLargeFile)))
                case FinishFiles =>
                  finished && files == old(files) && awaiting == None && back.bytes == old(back.bytes)
    {
      var data := Receive(conn);
      if data.None? {
        return false;
      }
      match c.read(data.value) {
        case None => return false;
        case Some(SaveFile(item)) =>
          var reply := SaveFile(item);
          Transport(back, c.writeReply(reply));
        case Some(FileMarker(path)) =>
          var reply := FileMarker(path);
          Transport(back, c.writeReply(reply));
        case Some(FinishFiles) => finished := true;
      }
      return true;
    }

    /** The body that was awaited; if it cannot be written the connection is given up. */
    method HandleBody(body: Bytes, back: ByteStream, c: Codec) returns (ok: bool)
      requires awaiting.Some?
      modifies this`files, this`awaiting, back`bytes
      ensures files == old(files)[old(awaiting).value := Kept(faults, old(awaiting).value, File(body))]
      ensures ok <==> Kept(faults, old(awaiting).value, File(body)) == File(body)
      ensures ok ==> awaiting == None && back.bytes == old(back.bytes) + Frame(c.writeReply(ReceivedFile))
    {
      var path := awaiting.value;
      files := files[path := Kept(faults, path, File(body))];
      if files[path] != File(body) {
        return false;
      }
      awaiting := None;
      Transport(back, c.writeReply(ReceivedFile));
      return true;
    }
  }

  /** The next message of a stream and what is behind it. */
  ghost function Decoded(c: Codec, stream: Bytes): Option<(FileMsg, Bytes)> {
    match Unframe(stream)
    case None => None
    case Some((data, rest)) => if c.read(data).None? then None else Some((c.read(data).value, rest))
  }

  /** The answer the sender waits for, on a stream that holds nothing else. */
  method AwaitReply(back: ByteStream, c: Codec, ghost reply: Reply) returns (r: Reply)
    requires c.CarriesReply(reply) && back.bytes == Frame(c.writeReply(reply))
    modifies back
    ensures r == reply && back.bytes == []
  {
    FrameIsRead(c.writeReply(reply));
    var data := Receive(back);
    return c.readReply(data.value).value;
  }

  /** Sender and receiver between two items: nothing on its way, nothing awaited. */
  ghost predicate Between(receiver: Receiver, conn: ByteStream, back: ByteStream)
    reads receiver, conn, back
  {
    conn.bytes == [] && back.bytes == [] && receiver.awaiting == None && !receiver.finished
  }

  /** One small file or directory: its message, and the answer. */
  method SendSmall(item: Item, receiver: Receiver, conn: ByteStream, back: ByteStream, c: Codec)
    requires conn != back && Between(receiver, conn, back)
    requires c.CarriesReplies() && c.Carries(FileMsg.SaveFile(item))
    modifies receiver, conn, back
    ensures Between(receiver, conn, back)
    ensures receiver.files == Place(old(receiver.files), item, receiver.faults)
  {
    SendMessage(conn, c.write(FileMsg.SaveFile(item)));
    FrameIsRead(c.write(FileMsg.SaveFile(item)));
    var ok := receiver.HandleMessage(conn, back, c);
    assert [] + Frame(c.writeReply(ReceivedFile)) == Frame(c.writeReply(ReceivedFile));
    var reply := AwaitReply(back, c, ReceivedFile);
  }

  /** One large file: the announcement, the answer, and then the body and its answer if it is awaited. */
  method SendLarge(item: Item, receiver: Receiver, conn: ByteStream, back: ByteStream, c: Codec, chunks: nat -> nat)
    returns (ok: bool)
    requires conn != back && Between(receiver, conn, back) && IsLarge(item.entry) && |item.entry.content| <= U64_MAX
    requires c.CarriesReplies() && c.Carries(FileMarker(item.path))
    modifies receiver, conn, back
    ensures ok <==> !Breaks(old(receiver.files), item, receiver.faults)
    ensures ok ==> Between(receiver, conn, back)
    ensures receiver.files == Place(old(receiver.files), item, receiver.faults)
  {
    var created := item.path !in receiver.faults.lost && CanCreateFile(receiver.files, item.path);
    ghost var answer := if created then AwaitingLargeFile else DontSendLargeFile;
    SendMessage(conn, c.write(FileMarker(item.path)));
    FrameIsRead(c.write(FileMarker(item.path)));
    var handled := receiver.HandleMessage(conn, back, c);
    assert [] + Frame(c.writeReply(answer)) == Frame(c.writeReply(answer));
    var reply := AwaitReply(back, c, answer);
    if reply != AwaitingLargeFile {
      return true;
    }
    var file := new ByteStream(item.entry.content, chunks);
    var copied, body := CopyLargeFile(conn, file);
    assert File(body) == item.entry;
    ok := receiver.HandleBody(body, back, c);
    if ok {
      assert [] + Frame(c.writeReply(ReceivedFile)) == Frame(c.writeReply(ReceivedFile));
      reply := AwaitReply(back, c, ReceivedFile);
    }
  }

  /**
   The sender's loop against the receiver's: every message waits for its answer, so the two loops
   take turns.  `unreadable` items are skipped.  Whether a file is large does not show in what
   arrives; it decides only whether a failed write ends the transfer.
   */
  method SendFiles(items: seq<Item>, unreadable: set<Path>, receiver: Receiver, conn: ByteStream, back: ByteStream,
                   c: Codec, chunks: nat -> nat)
    returns (done: bool)
    requires conn != back && Between(receiver, conn, back) && TransfersFaithfully(c, items)
    modifies receiver, conn, back
    ensures (receiver.files, done)
         == Transferred(old(receiver.files), items, receiver.faults.(lost := receiver.faults.lost + unreadable))
    ensures done ==> receiver.finished && conn.bytes == [] && back.bytes == []
  {
    ghost var f := receiver.faults.(lost := receiver.faults.lost + unreadable);
    ghost var all := Transferred(receiver.files, items, f);
    for i := 0 to |items|
      invariant Between(receiver, conn, back)
      invariant Transferred(receiver.files, items[i..], f) == all
    {
      var item := items[i];
      assert c.Carries(MessageFor(item)) && items[i..][0] == item && items[i..][1..] == items[i + 1..];
      if item.path !in unreadable {
        SameFate(receiver.files, item, receiver.faults, f);
        if IsLarge(item.entry) {
          var ok := SendLarge(item, receiver, conn, back, c, chunks);
          if !ok {
            return false;
          }
        } else {
          SendSmall(item, receiver, conn, back, c);
        }
      }
    }
    SendMessage(conn, c.write(FinishFiles));
    FrameIsRead(c.write(FinishFiles));
    done := receiver.HandleMessage(conn, back, c);
  }

  /** An item that is read fares as the receiver's faults say. */
  lemma SameFate(t: Tree, item: Item, f: Faults, g: Faults)
    requires g.torn == f.torn && (item.path in g.lost <==> item.path in f.lost)
    ensures Place(t, item, g) == Place(t, item, f) && (Breaks(t, item, g) <==> Breaks(t, item, f))
  {
  }

  // ---------------------------------------------------------------- rebuilding a tree

  /** A directory tree: the root is a directory and everything is in a directory. */
  ghost predicate WellFormed(t: Tree) {
    [] in t && t[[]].Dir? && forall p {:trigger HasParent(t, p)} :: p in t && p != [] ==> HasParent(t, p)
  }

  /** A list of what is in a tree, the root left out, each path once. */
  ghost predicate Lists(items: seq<Item>, t: Tree) {
    && (forall i :: 0 <= i < |items| ==> items[i].path != [] && items[i].path in t && t[items[i].path] == items[i].entry)
    && (forall p <- t :: p == [] || exists i :: 0 <= i < |items| && items[i].path == p)
    && (forall i, j :: 0 <= i < j < |items| ==> items[i].path != items[j].path)
  }

  ghost predicate Listed(items: seq<Item>, n: nat, p: Path)
    requires n <= |items|
  {
    exists i :: 0 <= i < n && items[i].path == p
  }

  /** A directory is listed before anything in it. */
  ghost predicate ParentsFirst(items: seq<Item>) {
    forall i :: 0 <= i < |items| && |items[i].path| > 1 ==> Listed(items, i, Parent(items[i].path))
  }

  /** A file in the way of a directory, or the other way round. */
  predicate Clashes(base: Tree, t: Tree, p: Path)
    requires p in t
  {
    p in base && base[p].Dir? != t[p].Dir?
  }

  /**
   A path of `t` gets into `base` if it is not lost, nothing of another kind is in its place, and the
   directory it is in is there or gets through.
   */
  predicate Arrives(base: Tree, t: Tree, lost: set<Path>, p: Path)
    decreases |p|
  {
    && p != [] && p in t && p !in lost && !Clashes(base, t, p)
    && ((Parent(p) in base && base[Parent(p)].Dir?) || Arrives(base, t, lost, Parent(p)))
  }

  function At(t: Tree, p: Path): Option<Entry> {
    if p in t then Some(t[p]) else None
  }

  /** What is at `p` once the first `n` items of `t` have been sent. */
  ghost function Expected(base: Tree, t: Tree, items: seq<Item>, n: nat, f: Faults, p: Path): Option<Entry>
    requires n <= |items|
  {
    if p in t && Listed(items, n, p) && Arrives(base, t, f.lost, p) then Some(Kept(f, p, t[p])) else At(base, p)
  }

  ghost predicate Overlaid(base: Tree, t: Tree, items: seq<Item>, n: nat, f: Faults, got: Tree)
    requires n <= |items|
  {
    forall p :: At(got, p) == Expected(base, t, items, n, f, p)
  }

  /** An item is placed exactly if it is not lost, has a directory to be in, and nothing of another kind is there. */
  lemma PlaceAt(got: Tree, item: Item, f: Faults, p: Path)
    ensures At(Place(got, item, f), p)
         == if p == item.path && p !in f.lost && HasParent(got, p) && (p in got ==> got[p].Dir? == item.entry.Dir?)
            then Some(Kept(f, p, item.entry)) else At(got, p)
  {
  }

  lemma ListedStep(items: seq<Item>, n: nat, p: Path)
    requires n < |items|
    ensures Listed(items, n + 1, p) <==> Listed(items, n, p) || p == items[n].path
  {
  }

  lemma NotListedYet(items: seq<Item>, t: Tree, n: nat)
    requires Lists(items, t) && n < |items|
    ensures !Listed(items, n, items[n].path) && items[n].path in t && t[items[n].path] == items[n].entry && items[n].path != []
  {
  }

  /** When an item's turn comes, the directory it belongs in is there exactly if it was, or has arrived. */
  lemma ParentIsThere(base: Tree, t: Tree, items: seq<Item>, n: nat, f: Faults, got: Tree)
    requires WellFormed(base) && WellFormed(t) && Lists(items, t) && ParentsFirst(items)
    requires n < |items| && Overlaid(base, t, items, n, f, got)
    ensures var p := items[n].path;
            p != [] && (HasParent(got, p) <==>
              (Parent(p) in base && base[Parent(p)].Dir?) || Arrives(base, t, f.lost, Parent(p)))
  {
    var p := items[n].path;
    var q := Parent(p);
    assert HasParent(t, p);
    assert At(got, q) == Expected(base, t, items, n, f, q);
    if |p| > 1 {
      assert Listed(items, n, q);
    } else {
      assert q == [];
    }
  }

  lemma OverlayStep(base: Tree, t: Tree, items: seq<Item>, n: nat, f: Faults, got: Tree)
    requires WellFormed(base) && WellFormed(t) && Lists(items, t) && ParentsFirst(items)
    requires n < |items| && Overlaid(base, t, items, n, f, got)
    ensures Overlaid(base, t, items, n + 1, f, Place(got, items[n], f))
  {
    var item := items[n];
    ParentIsThere(base, t, items, n, f, got);
    NotListedYet(items, t, n);
    assert At(got, item.path) == Expected(base, t, items, n, f, item.path);
    ExpectedSteps(base, t, items, n, f, got, Place(got, item, f));
  }

  lemma ExpectedSteps(base: Tree, t: Tree, items: seq<Item>, n: nat, f: Faults, got: Tree, next: Tree)
    requires n < |items| && Overlaid(base, t, items, n, f, got) && next == Place(got, items[n], f)
    requires var p := items[n].path;
             && p in t && t[p] == items[n].entry && !Listed(items, n, p) && At(got, p) == At(base, p)
             && (p !in f.lost && HasParent(got, p) && !Clashes(base, t, p) <==> Arrives(base, t, f.lost, p))
    ensures Overlaid(base, t, items, n + 1, f, next)
  {
    forall p ensures At(next, p) == Expected(base, t, items, n + 1, f, p) {
      PlaceAt(got, items[n], f, p);
      ListedStep(items, n, p);
      assert At(got, p) == Expected(base, t, items, n, f, p);
    }
  }

  lemma {:induction false} Overlay(base: Tree, t: Tree, items: seq<Item>, n: nat, f: Faults)
    requires WellFormed(base) && WellFormed(t) && Lists(items, t) && ParentsFirst(items)
    requires n <= |items|
    ensures Overlaid(base, t, items, n, f, Deliver(base, items[..n], f))
  {
    if n > 0 {
      var got := Deliver(base, items[..n - 1], f);
      Overlay(base, t, items, n - 1, f);
      OverlayStep(base, t, items, n - 1, f, got);
      assert items[..n] == items[..n - 1] + [items[n - 1]];
      DeliverSnoc(base, items[..n - 1], items[n - 1], f);
    }
  }

  function Arriving(base: Tree, t: Tree, f: Faults): Tree {
    map p | p in t && Arrives(base, t, f.lost, p) :: Kept(f, p, t[p])
  }

  /**
   Whatever goes wrong on the way and whatever was there before, the save location ends up as it
   was, overlaid with exactly those entries of the sent tree that arrive.
   */
  lemma DeliveredTree(base: Tree, t: Tree, items: seq<Item>, f: Faults)
    requires WellFormed(base) && WellFormed(t) && Lists(items, t) && ParentsFirst(items)
    ensures Deliver(base, items, f) == base + Arriving(base, t, f)
  {
    var got, want := Deliver(base, items, f), base + Arriving(base, t, f);
    Overlay(base, t, items, |items|, f);
    assert items[..|items|] == items;
    forall p ensures At(got, p) == At(want, p) {
      AllListed(items, t, p);
      assert At(got, p) == Expected(base, t, items, |items|, f, p);
    }
    SameTrees(got, want);
  }

  lemma AllListed(items: seq<Item>, t: Tree, p: Path)
    requires Lists(items, t)
    ensures p in t && p != [] ==> Listed(items, |items|, p)
  {
  }

  lemma SameTrees(a: Tree, b: Tree)
    requires forall p :: At(a, p) == At(b, p)
    ensures a == b
  {
    forall p ensures p in a <==> p in b {
      assert At(a, p) == At(b, p);
    }
    forall p <- a ensures a[p] == b[p] {
      assert At(a, p) == At(b, p);
    }
  }

  const FRESH: Tree := map[[] := Dir]

  /** Neither the path nor any directory above it is lost. */
  ghost predicate Intact(lost: set<Path>, p: Path) {
    forall k {:trigger p[..k]} :: 0 < k <= |p| ==> p[..k] !in lost
  }

  /** In a fresh save location exactly the intact paths arrive. */
  lemma {:induction false} ArrivesFresh(t: Tree, lost: set<Path>, p: Path)
    requires WellFormed(t) && p in t && p != []
    ensures Arrives(FRESH, t, lost, p) <==> Intact(lost, p)
    decreases |p|
  {
    assert p[..|p|] == p;
    assert HasParent(t, p);
    if |p| > 1 {
      ArrivesFresh(t, lost, Parent(p));
      assert forall k :: 0 < k < |p| ==> Parent(p)[..k] == p[..k];
    }
  }

  lemma NothingIsMissing(t: Tree)
    requires WellFormed(t)
    ensures FRESH + Arriving(FRESH, t, NO_FAULTS) == t
  {
    forall p <- t | p != [] ensures Arrives(FRESH, t, {}, p) {
      ArrivesFresh(t, {}, p);
    }
  }

  /**
   A list of a tree rebuilds it in a fresh save location exactly when directories come before what
   is in them: creating an entry never creates the directories above it.
   */
  lemma RebuiltIffParentsFirst(t: Tree, items: seq<Item>)
    requires WellFormed(t) && Lists(items, t)
    ensures Deliver(FRESH, items, NO_FAULTS) == t <==> ParentsFirst(items)
  {
    if ParentsFirst(items) {
      DeliveredTree(FRESH, t, items, NO_FAULTS);
      NothingIsMissing(t);
    } else {
      var i :| 0 <= i < |items| && |items[i].path| > 1 && !Listed(items, i, Parent(items[i].path));
      OrphanIsMissing(items, i);
    }
  }

  lemma {:induction false} NothingElseAppears(t: Tree, items: seq<Item>, p: Path)
    requires p !in t && forall i :: 0 <= i < |items| ==> items[i].path != p
    ensures p !in Deliver(t, items, NO_FAULTS)
    decreases |items|
  {
    if items != [] {
      NothingElseAppears(Place(t, items[0], NO_FAULTS), items[1..], p);
    }
  }

  lemma {:induction false} DeliverConcat(t: Tree, a: seq<Item>, b: seq<Item>, f: Faults)
    ensures Deliver(t, a + b, f) == Deliver(Deliver(t, a, f), b, f)
    decreases |a|
  {
    if a == [] {
      assert a + b == b;
    } else {
      assert (a + b)[1..] == a[1..] + b;
      DeliverConcat(Place(t, a[0], f), a[1..], b, f);
    }
  }

  lemma OrphanIsMissing(items: seq<Item>, i: nat)
    requires i < |items| && |items[i].path| > 1 && !Listed(items, i, Parent(items[i].path))
    requires forall j, k :: 0 <= j < k < |items| ==> items[j].path != items[k].path
    ensures items[i].path !in Deliver(FRESH, items, NO_FAULTS)
  {
    var p := items[i].path;
    var before := Deliver(FRESH, items[..i], NO_FAULTS);
    NothingElseAppears(FRESH, items[..i], Parent(p));
    NothingElseAppears(FRESH, items[..i], p);
    assert Place(before, items[i], NO_FAULTS) == before;
    NothingElseAppears(before, items[i + 1..], p);
    DeliverConcat(FRESH, items[..i], items[i..], NO_FAULTS);
    assert items[..i] + items[i..] == items && items[i..][1..] == items[i + 1..];
  }

  // ---------------------------------------------------------------- flat lists

  /** Plain files directly in the save location. */
  ghost predicate Flat(t: Tree, items: seq<Item>) {
    && [] in t && t[[]].Dir?
    && forall i :: 0 <= i < |items| ==>
         |items[i].path| == 1 && items[i].entry.File? && (items[i].path in t ==> t[items[i].path].File?)
  }

  /** The last item with this path. */
  function Last(items: seq<Item>, p: Path): Option<Entry> {
    if items == [] then None
    else if items[|items| - 1].path == p then Some(items[|items| - 1].entry)
    else Last(items[..|items| - 1], p)
  }

  /** Every path holds what the last item with that path brought, and nothing else changes. */
  lemma {:induction false} FlatDelivery(t: Tree, items: seq<Item>, p: Path)
    requires Flat(t, items)
    ensures var got := Deliver(t, items, NO_FAULTS);
            && [] in got && got[[]].Dir?
            && match Last(items, p)
               case Some(e) => p in got && got[p] == e
               case None => (p in got <==> p in t) && (p in t ==> got[p] == t[p])
    decreases |items|
  {
    if items != [] {
      var n := |items| - 1;
      var before := Deliver(t, items[..n], NO_FAULTS);
      FlatDelivery(t, items[..n], p);
      FlatDelivery(t, items[..n], items[n].path);
      LastIsFile(items[..n], items[n].path);
      assert items == items[..n] + [items[n]];
      DeliverSnoc(t, items[..n], items[n], NO_FAULTS);
      assert Parent(items[n].path) == [];
      assert CanCreateFile(before, items[n].path);
    }
  }

  lemma {:induction false} LastIsFile(items: seq<Item>, p: Path)
    requires forall i :: 0 <= i < |items| ==> items[i].entry.File?
    ensures Last(items, p).Some? ==> Last(items, p).value.File?
    decreases |items|
  {
    if items != [] {
      LastIsFile(items[..|items| - 1], p);
    }
  }
}
