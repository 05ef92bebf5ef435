/** What the tmpfs operations answer, and what they leave alone, in terms of what paths lead to. */
module TmpfsAnswers {
  import opened Wrappers
  import opened TmpfsPaths
  import opened TmpfsTree
  import B = TmpfsBuffer

  /** The names before the last one lead to a directory. */
  predicate DirBefore(fs: Fs, d: nat, p: seq<string>) {
    p != [] && Walk(fs, d, Init(p)).Some? && Walk(fs, d, Init(p)).value.Dir?
  }

  /** One of the names before the last one leads to a file. */
  predicate FileBefore(fs: Fs, d: nat, p: seq<string>) {
    exists k :: 0 < k < |p| && Walk(fs, d, p[..k]).Some? && Walk(fs, d, p[..k]).value.File?
  }

  predicate LeadsToDir(fs: Fs, d: nat, p: seq<string>) { Walk(fs, d, p).Some? && Walk(fs, d, p).value.Dir? }
  predicate LeadsToFile(fs: Fs, d: nat, p: seq<string>) { Walk(fs, d, p).Some? && Walk(fs, d, p).value.File? }

  lemma PrefixAnswer(fs: Fs, d: nat, p: seq<string>)
    requires p != []
    ensures PrefixError(fs, d, p) ==
            if DirBefore(fs, d, p) then Ok else if FileBefore(fs, d, p) then Enotdir else Enoent
    ensures DirBefore(fs, d, p) ==> !FileBefore(fs, d, p)
    ensures Walk(fs, d, p).Some? ==> DirBefore(fs, d, p)
  {
    PrefixOk(fs, d, p);
    PrefixIsFile(fs, d, p);
    WalkSnoc(fs, d, p);
  }

  // Making and removing

  /** A failing mkdir changes nothing, and the answer is exact. */
  lemma MkdirAnswer(fs: Fs, d: nat, p: seq<string>, room: bool)
    ensures var (fs2, err) := MkdirAt(fs, d, p, room);
      && (err == Ok <==> DirBefore(fs, d, p) && Walk(fs, d, p) == None && room)
      && (err == Eexist <==> Walk(fs, d, p).Some?)
      && (err == Enomem <==> DirBefore(fs, d, p) && Walk(fs, d, p) == None && !room)
      && (err == Enotdir <==> FileBefore(fs, d, p))
      && (err == Enoent <==> p != [] && !DirBefore(fs, d, p) && !FileBefore(fs, d, p))
      && (err != Ok ==> fs2 == fs)
  {
    if p != [] { PrefixAnswer(fs, d, p); }
  }

  lemma UnlinkAnswer(fs: Fs, d: nat, p: seq<string>)
    ensures var (fs2, err) := UnlinkAt(fs, d, p);
      && (err == Ok <==> LeadsToFile(fs, d, p))
      && (err == Eisdir <==> LeadsToDir(fs, d, p))
      && (err == Enotdir <==> FileBefore(fs, d, p))
      && (err == Enoent <==> Walk(fs, d, p) == None && !FileBefore(fs, d, p))
      && (err != Ok ==> fs2 == fs)
  {
    if p != [] { PrefixAnswer(fs, d, p); }
  }

  /** Nothing lies below the path. */
  ghost predicate Barren(fs: Fs, d: nat, p: seq<string>) { forall n :: Walk(fs, d, p + [n]) == None }

  lemma BarrenIff(fs: Fs, d: nat, p: seq<string>)
    requires LeadsToDir(fs, d, p)
    ensures Entries(fs, Walk(fs, d, p).value.id) == [] <==> Barren(fs, d, p)
  {
    var e := Walk(fs, d, p).value.id;
    forall n ensures Walk(fs, d, p + [n]) == Child(fs, e, n) {
      WalkSnoc(fs, d, p + [n]);
      assert Init(p + [n]) == p;
    }
    if Entries(fs, e) != [] {
      Found(Entries(fs, e), 0);
      assert Walk(fs, d, p + [Entries(fs, e)[0].name]) != None;
    }
  }

  lemma RmdirAnswer(fs: Fs, d: nat, p: seq<string>)
    ensures var (fs2, err) := RmdirAt(fs, d, p);
      && (err == Ok <==> p != [] && LeadsToDir(fs, d, p) && Barren(fs, d, p))
      && (err == Enotempty <==> p != [] && LeadsToDir(fs, d, p) && !Barren(fs, d, p))
      && (err == Einval <==> p == [])
      && (err == Enotdir <==> LeadsToFile(fs, d, p) || FileBefore(fs, d, p))
      && (err == Enoent <==> Walk(fs, d, p) == None && !FileBefore(fs, d, p))
      && (err != Ok ==> fs2 == fs)
  {
    if p != [] {
      PrefixAnswer(fs, d, p);
      if LeadsToDir(fs, d, p) { BarrenIff(fs, d, p); }
    }
  }

  lemma AccessAnswer(fs: Fs, d: nat, p: seq<string>)
    ensures var err := AccessAt(fs, d, p);
      && (err == Ok <==> Walk(fs, d, p).Some?)
      && (err == Enotdir <==> FileBefore(fs, d, p))
      && (err == Enoent <==> Walk(fs, d, p) == None && !FileBefore(fs, d, p))
  {
    if p != [] { PrefixAnswer(fs, d, p); }
  }

  // Opening

  function HandleOn(node: Node, append: bool): Handle {
    match node case Dir(e) => DirHandle(e) case File(i) => FileHandle(i, append)
  }

  /** A new file is to be made. */
  predicate Creates(fs: Fs, d: nat, p: seq<string>, f: Flags, room: bool) {
    DirBefore(fs, d, p) && Walk(fs, d, p) == None && f.creat && room
  }

  /** When an open succeeds, and why it fails otherwise. */
  lemma OpenAnswer(fs: Fs, d: nat, p: seq<string>, f: Flags, room: bool, slot: bool)
    ensures var err := OpenAt(fs, d, p, f, room, slot).1;
      && (err == Ok <==> LeadsToDir(fs, d, p) || (slot && (LeadsToFile(fs, d, p) || Creates(fs, d, p, f, room))))
      && (err == Enomem <==> || (LeadsToFile(fs, d, p) && !slot)
                             || (DirBefore(fs, d, p) && Walk(fs, d, p) == None && f.creat && !(room && slot)))
      && (err == Enotdir <==> FileBefore(fs, d, p))
      && (err == Enoent <==> Walk(fs, d, p) == None && !FileBefore(fs, d, p) && (DirBefore(fs, d, p) ==> !f.creat))
  {
    if p != [] { PrefixAnswer(fs, d, p); }
  }

  /** The handle is on what the path then leads to, and appends if and only if that was asked for. */
  lemma OpenHandle(fs: Fs, d: nat, p: seq<string>, f: Flags, room: bool, slot: bool)
    requires Inv(fs) && d in fs.dirs
    ensures var (fs2, err, h) := OpenAt(fs, d, p, f, room, slot);
      && (err == Ok <==> h.Some?)
      && (err == Ok ==> Walk(fs2, d, p).Some? && h.value == HandleOn(Walk(fs2, d, p).value, f.append))
  {
    if p != [] && PrefixError(fs, d, p) == Ok {
      match Walk(fs, d, p)
      case None => if f.creat && room { CreateAddsOnePath(fs, d, p, f, slot, p); }
      case Some(File(i)) => SameTree(fs, OpenAt(fs, d, p, f, room, slot).0, d, p);
      case Some(Dir(_)) =>
    }
  }

  lemma {:induction false} SameTree(fs: Fs, fs2: Fs, d: nat, p: seq<string>)
    requires fs2.dirs == fs.dirs
    ensures Walk(fs2, d, p) == Walk(fs, d, p)
    decreases |p|
  {
    if p != [] {
      assert Child(fs2, d, p[0]) == Child(fs, d, p[0]);
      match Child(fs, d, p[0]) {
        case Some(Dir(e)) => SameTree(fs, fs2, e, p[1..]);
        case _ =>
      }
    }
  }

  /** Opening what exists changes no path and no content but that of a file opened for truncation, which becomes
      empty: the content of the opened file stays if and only if that was not asked for or it was empty. */
  lemma OpenExisting(fs: Fs, d: nat, p: seq<string>, f: Flags, room: bool, slot: bool)
    requires Inv(fs) && Walk(fs, d, p).Some?
    ensures var fs2 := OpenAt(fs, d, p, f, room, slot).0;
      && (forall x, q :: Walk(fs2, x, q) == Walk(fs, x, q))
      && fs2.nextDir == fs.nextDir && fs2.nextIno == fs.nextIno
      && (LeadsToDir(fs, d, p) ==> fs2 == fs)
      && (LeadsToFile(fs, d, p) ==>
            var i := Walk(fs, d, p).value.ino;
            && i in fs.inodes && fs2.inodes.Keys == fs.inodes.Keys
            && (forall j :: j in fs.inodes && j != i ==> fs2.inodes[j] == fs.inodes[j])
            && fs2.inodes[i] == (if f.trunc then [] else fs.inodes[i])
            && (fs2.inodes[i] == fs.inodes[i] <==> !f.trunc || fs.inodes[i] == []))
  {
    if p != [] {
      PrefixAnswer(fs, d, p);
      WalkSnoc(fs, d, p);
      var fs2 := OpenAt(fs, d, p, f, room, slot).0;
      forall x, q ensures Walk(fs2, x, q) == Walk(fs, x, q) { SameTree(fs, fs2, x, q); }
      var e := Walk(fs, d, Init(p)).value.id;
      assert Leads(fs, e, Child(fs, e, Last(p)).value);
    }
  }

  /** An open that fails changes something only if no handle could be made at the very end: then the file has
      been created or truncated all the same. */
  lemma FailedOpen(fs: Fs, d: nat, p: seq<string>, f: Flags, room: bool, slot: bool)
    requires Inv(fs) && OpenAt(fs, d, p, f, room, slot).1 != Ok
    ensures OpenAt(fs, d, p, f, room, slot).0 == fs <==>
            || slot
            || !(Creates(fs, d, p, f, room) || (LeadsToFile(fs, d, p) && f.trunc && !IsEmpty(fs, Walk(fs, d, p).value)))
  {
    PrefixAnswer(fs, d, p);
    if LeadsToFile(fs, d, p) {
      OpenExisting(fs, d, p, f, room, slot);
      var i := Walk(fs, d, p).value.ino;
      if fs.inodes[i] == [] { assert fs.inodes[i := []] == fs.inodes; }
    }
  }

  predicate IsEmpty(fs: Fs, node: Node) { node.File? && node.ino in fs.inodes && fs.inodes[node.ino] == [] }
}
