/** The tmpfs directory tree: what names lead to, and what each operation does to that. */
module TmpfsTree {
  import opened Wrappers
  import opened TmpfsPaths
  import B = TmpfsBuffer

  datatype Node = Dir(id: nat) | File(ino: nat)
  datatype Entry = Entry(name: string, node: Node)

  /** All directories and file contents by number, linked or not; 0 is the mounted directory. */
  datatype Fs = Fs(dirs: map<nat, seq<Entry>>, inodes: map<nat, seq<B.Byte>>, nextDir: nat, nextIno: nat)

  datatype Code = Ok | Eexist | Enoent | Enotdir | Eisdir | Einval | Enotempty | Enomem
  datatype Flags = Flags(creat: bool, trunc: bool, append: bool)
  datatype Handle = DirHandle(id: nat) | FileHandle(ino: nat, append: bool)

  const Empty: Fs := Fs(map[0 := []], map[], 1, 0)

  // Looking names up

  function Find(es: seq<Entry>, n: string): Option<Node> {
    if es == [] then None else if es[0].name == n then Some(es[0].node) else Find(es[1..], n)
  }

  function Entries(fs: Fs, d: nat): seq<Entry> {
    if d in fs.dirs then fs.dirs[d] else []
  }

  function Child(fs: Fs, d: nat, n: string): Option<Node> {
    Find(Entries(fs, d), n)
  }

  /** What the component list `p` means, seen from directory `d`. */
  function Walk(fs: Fs, d: nat, p: seq<string>): Option<Node>
    decreases |p|
  {
    if p == [] then Some(Dir(d))
    else match Child(fs, d, p[0])
      case None => None
      case Some(Dir(e)) => Walk(fs, e, p[1..])
      case Some(File(i)) => if |p| == 1 then Some(File(i)) else None
  }

  function Init(p: seq<string>): seq<string>
    requires p != []
  {
    p[..|p| - 1]
  }

  function Last(p: seq<string>): string
    requires p != []
  {
    p[|p| - 1]
  }

  /** What is wrong with the names before the last one. */
  function PrefixError(fs: Fs, d: nat, p: seq<string>): Code
    decreases |p|
  {
    if |p| <= 1 then Ok
    else match Child(fs, d, p[0])
      case None => Enoent
      case Some(File(_)) => Enotdir
      case Some(Dir(e)) => PrefixError(fs, e, p[1..])
  }

  /** The directory that holds the last name. */
  function Parent(fs: Fs, d: nat, p: seq<string>): nat
    requires p != []
  {
    match Walk(fs, d, Init(p)) case Some(Dir(e)) => e case _ => d
  }

  // The operations, by the component list of their path

  function Link(fs: Fs, d: nat, n: string, node: Node): Fs {
    fs.(dirs := fs.dirs[d := [Entry(n, node)] + Entries(fs, d)])
  }

  function Without(es: seq<Entry>, n: string): seq<Entry> {
    if es == [] then [] else if es[0].name == n then es[1..] else [es[0]] + Without(es[1..], n)
  }

  function Unlink(fs: Fs, d: nat, n: string): Fs {
    fs.(dirs := fs.dirs[d := Without(Entries(fs, d), n)])
  }

  function NewDir(fs: Fs, d: nat, n: string): Fs {
    Link(fs.(dirs := fs.dirs[fs.nextDir := []], nextDir := fs.nextDir + 1), d, n, Dir(fs.nextDir))
  }

  function NewFile(fs: Fs, d: nat, n: string): Fs {
    Link(fs.(inodes := fs.inodes[fs.nextIno := []], nextIno := fs.nextIno + 1), d, n, File(fs.nextIno))
  }

  function MkdirAt(fs: Fs, d: nat, p: seq<string>, room: bool): (Fs, Code) {
    if p == [] then (fs, Eexist)
    else if PrefixError(fs, d, p) != Ok then (fs, PrefixError(fs, d, p))
    else if Walk(fs, d, p).Some? then (fs, Eexist)
    else if !room then (fs, Enomem)
    else (NewDir(fs, Parent(fs, d, p), Last(p)), Ok)
  }

  function UnlinkAt(fs: Fs, d: nat, p: seq<string>): (Fs, Code) {
    if p == [] then (fs, Eisdir)
    else if PrefixError(fs, d, p) != Ok then (fs, PrefixError(fs, d, p))
    else match Walk(fs, d, p)
      case None => (fs, Enoent)
      case Some(Dir(_)) => (fs, Eisdir)
      case Some(File(_)) => (Unlink(fs, Parent(fs, d, p), Last(p)), Ok)
  }

  function RmdirAt(fs: Fs, d: nat, p: seq<string>): (Fs, Code) {
    if p == [] then (fs, Einval)
    else if PrefixError(fs, d, p) != Ok then (fs, PrefixError(fs, d, p))
    else match Walk(fs, d, p)
      case None => (fs, Enoent)
      case Some(File(_)) => (fs, Enotdir)
      case Some(Dir(e)) =>
        if Entries(fs, e) != [] then (fs, Enotempty)
        else (Unlink(fs, Parent(fs, d, p), Last(p)), Ok)
  }

  function AccessAt(fs: Fs, d: nat, p: seq<string>): Code {
    if p == [] then Ok
    else if PrefixError(fs, d, p) != Ok then PrefixError(fs, d, p)
    else if Walk(fs, d, p).Some? then Ok else Enoent
  }

  function Truncated(fs: Fs, i: nat): Fs {
    fs.(inodes := fs.inodes[i := []])
  }

  /** Open or create; `room` and `slot` say whether a new entry and a new handle can be allocated. */
  function OpenAt(fs: Fs, d: nat, p: seq<string>, f: Flags, room: bool, slot: bool): (Fs, Code, Option<Handle>) {
    if p == [] then (fs, Ok, Some(DirHandle(d)))
    else if PrefixError(fs, d, p) != Ok then (fs, PrefixError(fs, d, p), None)
    else match Walk(fs, d, p)
      case Some(Dir(e)) => (fs, Ok, Some(DirHandle(e)))
      case Some(File(i)) =>
        var fs1 := if f.trunc then Truncated(fs, i) else fs;
        if slot then (fs1, Ok, Some(FileHandle(i, f.append))) else (fs1, Enomem, None)
      case None =>
        if !f.creat then (fs, Enoent, None)
        else if !room then (fs, Enomem, None)
        else
          var fs1 := NewFile(fs, Parent(fs, d, p), Last(p));
          if slot then (fs1, Ok, Some(FileHandle(fs.nextIno, f.append))) else (fs1, Enomem, None)
  }

  // The invariant

  /** Names of siblings are proper names and differ. */
  predicate WellNamed(es: seq<Entry>) {
    es == [] || (Name(es[0].name) && Find(es[1..], es[0].name).None? && WellNamed(es[1..]))
  }

  predicate Named(fs: Fs) {
    forall d :: d in fs.dirs ==> WellNamed(fs.dirs[d])
  }

  predicate Fresh(fs: Fs) {
    && 0 in fs.dirs
    && (forall d :: d in fs.dirs ==> d < fs.nextDir)
    && (forall i :: i in fs.inodes ==> i < fs.nextIno)
  }

  /** Entries lead to things that exist; directories lead to younger ones, so there are no cycles. */
  predicate Leads(fs: Fs, d: nat, node: Node) {
    match node case Dir(e) => d < e && e in fs.dirs case File(i) => i in fs.inodes
  }

  ghost predicate Grounded(fs: Fs) {
    forall d, n :: Child(fs, d, n).Some? ==> Leads(fs, d, Child(fs, d, n).value)
  }

  /** Nothing has two names. */
  ghost predicate OneName(fs: Fs) {
    forall d1, n1, d2, n2 ::
      Child(fs, d1, n1).Some? && Child(fs, d1, n1) == Child(fs, d2, n2) ==> d1 == d2 && n1 == n2
  }

  ghost predicate Inv(fs: Fs) {
    Fresh(fs) && Named(fs) && Grounded(fs) && OneName(fs)
  }

  lemma {:induction false} Found(es: seq<Entry>, i: nat)
    requires i < |es|
    ensures Find(es, es[i].name).Some?
  {
    if i > 0 && es[0].name != es[i].name {
      Found(es[1..], i - 1);
    }
  }

  lemma {:induction false} SiblingsDiffer(es: seq<Entry>, i: nat, j: nat)
    requires WellNamed(es) && i < j < |es|
    ensures es[i].name != es[j].name && Name(es[j].name) && Find(es, es[i].name) == Some(es[i].node)
  {
    if i == 0 {
      Found(es[1..], j - 1);
      if j > 1 {
        SiblingsDiffer(es[1..], 0, j - 1);
      }
    } else {
      SiblingsDiffer(es[1..], i - 1, j - 1);
      Found(es[1..], i - 1);
    }
  }

  // How lookups compose

  lemma {:induction false} WalkSnoc(fs: Fs, d: nat, p: seq<string>)
    requires p != []
    ensures Walk(fs, d, p) == match Walk(fs, d, Init(p)) { case Some(Dir(e)) => Child(fs, e, Last(p)) case _ => None }
    decreases |p|
  {
    if |p| > 1 {
      assert Init(p)[1..] == Init(p[1..]);
      match Child(fs, d, p[0]) {
        case Some(Dir(e)) => WalkSnoc(fs, e, p[1..]);
        case _ =>
      }
    } else {
      assert p[1..] == [] && Init(p) == [];
    }
  }

  lemma {:induction false} PrefixOk(fs: Fs, d: nat, p: seq<string>)
    requires p != []
    ensures PrefixError(fs, d, p) == Ok <==> (Walk(fs, d, Init(p)).Some? && Walk(fs, d, Init(p)).value.Dir?)
    decreases |p|
  {
    if |p| > 1 {
      assert Init(p)[1..] == Init(p[1..]);
      match Child(fs, d, p[0]) {
        case Some(Dir(e)) => PrefixOk(fs, e, p[1..]);
        case _ =>
      }
    }
  }

  /** A name before the last is a file: that is what makes it ENOTDIR; anything else is ENOENT. */
  lemma {:induction false} PrefixIsFile(fs: Fs, d: nat, p: seq<string>)
    requires p != []
    ensures PrefixError(fs, d, p) in {Ok, Enoent, Enotdir}
    ensures PrefixError(fs, d, p) == Enotdir <==>
            exists k :: 0 < k < |p| && Walk(fs, d, p[..k]).Some? && Walk(fs, d, p[..k]).value.File?
    decreases |p|
  {
    if |p| > 1 {
      match Child(fs, d, p[0]) {
        case Some(Dir(e)) =>
          PrefixIsFile(fs, e, p[1..]);
          PrefixShift(fs, d, p, e);
        case Some(File(_)) =>
          assert p[..1] == [p[0]];
          assert Walk(fs, d, p[..1]).value.File?;
        case None =>
      }
    }
  }

  lemma PrefixShift(fs: Fs, d: nat, p: seq<string>, e: nat)
    requires |p| > 1 && Child(fs, d, p[0]) == Some(Dir(e))
    ensures (exists k :: 0 < k < |p| && Walk(fs, d, p[..k]).Some? && Walk(fs, d, p[..k]).value.File?) <==>
            (exists k :: 0 < k < |p| - 1 && Walk(fs, e, p[1..][..k]).Some? && Walk(fs, e, p[1..][..k]).value.File?)
  {
    forall k | 0 < k < |p|
      ensures Walk(fs, d, p[..k]) == Walk(fs, e, p[1..][..k - 1])
    {
      assert p[..k][1..] == p[1..][..k - 1];
    }
    if k :| 0 < k < |p| - 1 && Walk(fs, e, p[1..][..k]).Some? && Walk(fs, e, p[1..][..k]).value.File? {
      assert Walk(fs, d, p[..k + 1]) == Walk(fs, e, p[1..][..k]);
    }
    if k :| 0 < k < |p| && Walk(fs, d, p[..k]).Some? && Walk(fs, d, p[..k]).value.File? {
      assert k != 1 by { assert p[1..][..0] == []; }
      assert Walk(fs, e, p[1..][..k - 1]).value.File?;
    }
  }

  lemma {:induction false} Deeper(fs: Fs, d: nat, p: seq<string>)
    requires Inv(fs) && Walk(fs, d, p).Some? && Walk(fs, d, p).value.Dir?
    ensures Walk(fs, d, p).value.id >= d && (p != [] ==> Walk(fs, d, p).value.id > d)
    ensures d in fs.dirs ==> Walk(fs, d, p).value.id in fs.dirs
    decreases |p|
  {
    if p != [] {
      Deeper(fs, Child(fs, d, p[0]).value.id, p[1..]);
    }
  }

  /** Nothing is reached by two different component lists. */
  lemma {:induction false} OnePathEach(fs: Fs, d: nat, p: seq<string>, q: seq<string>)
    requires Inv(fs) && Walk(fs, d, p).Some? && Walk(fs, d, p) == Walk(fs, d, q)
    ensures p == q
    decreases |p|
  {
    if p == [] {
      Deeper(fs, d, q);
    } else if q == [] {
      Deeper(fs, d, p);
    } else {
      WalkSnoc(fs, d, p);
      WalkSnoc(fs, d, q);
      OnePathEach(fs, d, Init(p), Init(q));
      assert p == Init(p) + [Last(p)] && q == Init(q) + [Last(q)];
    }
  }

  // What changing one entry changes

  ghost predicate SameBut(fs: Fs, fs2: Fs, d: nat, n: string) {
    forall x, m :: (x == d && m == n) || Child(fs2, x, m) == Child(fs, x, m)
  }

  /** A file or an empty directory, or nothing at all. */
  ghost predicate Leaf(fs: Fs, o: Option<Node>) {
    o.Some? && o.value.Dir? ==> forall m :: Child(fs, o.value.id, m) == None
  }

  lemma LeafEnds(fs: Fs, d: nat, n: string, p: seq<string>)
    requires |p| > 1 && p[0] == n && Leaf(fs, Child(fs, d, n))
    ensures Walk(fs, d, p) == None
  {
    assert p[1..] != [];
  }

  lemma WalkOne(fs: Fs, d: nat, p: seq<string>)
    requires |p| == 1
    ensures Walk(fs, d, p) == Child(fs, d, p[0])
  {
    WalkSnoc(fs, d, p);
    assert Init(p) == [];
  }

  lemma ThroughLeaf(fs: Fs, d: nat, n: string, q: seq<string>)
    requires |q| > 1 && q[0] == n && Leaf(fs, Child(fs, d, n))
    ensures Walk(fs, d, q) == None && Walk(fs, d, Init(q)) != Some(Dir(d))
  {
    LeafEnds(fs, d, n, q);
    if |q| > 2 {
      LeafEnds(fs, d, n, Init(q));
    } else {
      WalkOne(fs, d, Init(q));
    }
  }

  /** Changing the leaf called `n` in `d` changes exactly the paths that lead to it. */
  lemma {:induction false} OneChange(fs: Fs, fs2: Fs, d: nat, n: string, x: nat, q: seq<string>)
    requires SameBut(fs, fs2, d, n) && Leaf(fs, Child(fs, d, n)) && Leaf(fs2, Child(fs2, d, n))
    ensures Walk(fs2, x, q) ==
            if q != [] && Walk(fs, x, Init(q)) == Some(Dir(d)) && Last(q) == n then Child(fs2, d, n) else Walk(fs, x, q)
    decreases |q|
  {
    if |q| == 1 {
      assert Init(q) == [] && q[1..] == [];
    } else if |q| > 1 {
      assert Init(q)[1..] == Init(q[1..]);
      if x == d && q[0] == n {
        ThroughLeaf(fs, d, n, q);
        LeafEnds(fs2, d, n, q);
      } else {
        assert Child(fs2, x, q[0]) == Child(fs, x, q[0]);
        match Child(fs, x, q[0]) {
          case Some(Dir(e)) => OneChange(fs, fs2, d, n, e, q[1..]);
          case _ =>
        }
      }
    }
  }

  lemma LinkEffect(fs: Fs, d: nat, n: string, node: Node, x: nat, m: string)
    ensures Child(Link(fs, d, n, node), x, m) == if x == d && m == n then Some(node) else Child(fs, x, m)
  {
    assert ([Entry(n, node)] + Entries(fs, d))[1..] == Entries(fs, d);
  }

  lemma {:induction false} FindWithout(es: seq<Entry>, n: string, m: string)
    requires WellNamed(es)
    ensures Find(Without(es, n), m) == if m == n then None else Find(es, m)
  {
    if es != [] {
      FindWithout(es[1..], n, m);
      assert ([es[0]] + Without(es[1..], n))[1..] == Without(es[1..], n);
    }
  }

  lemma {:induction false} WithoutNamed(es: seq<Entry>, n: string)
    requires WellNamed(es)
    ensures WellNamed(Without(es, n))
  {
    if es != [] && es[0].name != n {
      WithoutNamed(es[1..], n);
      FindWithout(es[1..], n, es[0].name);
      assert ([es[0]] + Without(es[1..], n))[1..] == Without(es[1..], n);
    }
  }

  lemma UnlinkEffect(fs: Fs, d: nat, n: string, x: nat, m: string)
    requires Named(fs)
    ensures Child(Unlink(fs, d, n), x, m) == if x == d && m == n then None else Child(fs, x, m)
  {
    FindWithout(Entries(fs, d), n, m);
  }

  lemma NewDirEffect(fs: Fs, d: nat, n: string, x: nat, m: string)
    requires Fresh(fs)
    ensures Child(NewDir(fs, d, n), x, m) == if x == d && m == n then Some(Dir(fs.nextDir)) else Child(fs, x, m)
  {
    LinkEffect(fs.(dirs := fs.dirs[fs.nextDir := []], nextDir := fs.nextDir + 1), d, n, Dir(fs.nextDir), x, m);
  }

  lemma NewFileEffect(fs: Fs, d: nat, n: string, x: nat, m: string)
    ensures Child(NewFile(fs, d, n), x, m) == if x == d && m == n then Some(File(fs.nextIno)) else Child(fs, x, m)
  {
    LinkEffect(fs.(inodes := fs.inodes[fs.nextIno := []], nextIno := fs.nextIno + 1), d, n, File(fs.nextIno), x, m);
  }

  // Every operation keeps the invariant

  lemma LinkNamed(fs: Fs, d: nat, n: string, node: Node)
    requires Named(fs) && Name(n) && Child(fs, d, n).None?
    ensures Named(Link(fs, d, n, node))
  {
    assert ([Entry(n, node)] + Entries(fs, d))[1..] == Entries(fs, d);
  }

  /** One more name, for something new. */
  lemma LinkedInv(fs: Fs, fs2: Fs, d: nat, n: string, node: Node)
    requires Inv(fs) && Child(fs, d, n).None? && Leads(fs2, d, node)
    requires fs.dirs.Keys <= fs2.dirs.Keys && fs.inodes.Keys <= fs2.inodes.Keys
    requires forall x, m :: Child(fs2, x, m) == if x == d && m == n then Some(node) else Child(fs, x, m)
    requires forall x, m :: Child(fs, x, m) != Some(node)
    ensures Grounded(fs2) && OneName(fs2)
  {
    forall x, m | Child(fs2, x, m).Some?
      ensures Leads(fs2, x, Child(fs2, x, m).value)
    {
      if x != d || m != n {
        assert Leads(fs, x, Child(fs, x, m).value);
      }
    }
  }

  lemma NewDirInv(fs: Fs, d: nat, n: string)
    requires Inv(fs) && d in fs.dirs && Name(n) && Child(fs, d, n).None?
    ensures Inv(NewDir(fs, d, n))
  {
    var fs2 := NewDir(fs, d, n);
    forall x, m
      ensures Child(fs2, x, m) == if x == d && m == n then Some(Dir(fs.nextDir)) else Child(fs, x, m)
      ensures Child(fs, x, m) != Some(Dir(fs.nextDir))
    {
      NewDirEffect(fs, d, n, x, m);
      assert Child(fs, x, m).Some? ==> Leads(fs, x, Child(fs, x, m).value);
    }
    LinkedInv(fs, fs2, d, n, Dir(fs.nextDir));
    LinkNamed(fs.(dirs := fs.dirs[fs.nextDir := []], nextDir := fs.nextDir + 1), d, n, Dir(fs.nextDir));
  }

  lemma NewFileInv(fs: Fs, d: nat, n: string)
    requires Inv(fs) && d in fs.dirs && Name(n) && Child(fs, d, n).None?
    ensures Inv(NewFile(fs, d, n))
  {
    var fs2 := NewFile(fs, d, n);
    forall x, m
      ensures Child(fs2, x, m) == if x == d && m == n then Some(File(fs.nextIno)) else Child(fs, x, m)
      ensures Child(fs, x, m) != Some(File(fs.nextIno))
    {
      NewFileEffect(fs, d, n, x, m);
      assert Child(fs, x, m).Some? ==> Leads(fs, x, Child(fs, x, m).value);
    }
    LinkedInv(fs, fs2, d, n, File(fs.nextIno));
    LinkNamed(fs.(inodes := fs.inodes[fs.nextIno := []], nextIno := fs.nextIno + 1), d, n, File(fs.nextIno));
  }

  lemma UnlinkInv(fs: Fs, d: nat, n: string)
    requires Inv(fs) && d in fs.dirs
    ensures Inv(Unlink(fs, d, n))
  {
    forall x, m
      ensures Child(Unlink(fs, d, n), x, m) == if x == d && m == n then None else Child(fs, x, m)
    {
      UnlinkEffect(fs, d, n, x, m);
    }
    WithoutNamed(fs.dirs[d], n);
  }

  /** Where the last name of a path lives, once the names before it are directories. */
  lemma AtParent(fs: Fs, d: nat, p: seq<string>)
    requires Inv(fs) && d in fs.dirs && p != [] && PrefixError(fs, d, p) == Ok
    ensures Walk(fs, d, Init(p)) == Some(Dir(Parent(fs, d, p))) && Parent(fs, d, p) in fs.dirs
    ensures Walk(fs, d, p) == Child(fs, Parent(fs, d, p), Last(p))
  {
    PrefixOk(fs, d, p);
    Deeper(fs, d, Init(p));
    WalkSnoc(fs, d, p);
  }

  lemma MkdirInv(fs: Fs, d: nat, p: seq<string>, room: bool)
    requires Inv(fs) && d in fs.dirs && forall c :: c in p ==> Name(c)
    ensures Inv(MkdirAt(fs, d, p, room).0)
  {
    if MkdirAt(fs, d, p, room).1 == Ok {
      AtParent(fs, d, p);
      NewDirInv(fs, Parent(fs, d, p), Last(p));
    }
  }

  lemma UnlinkAtInv(fs: Fs, d: nat, p: seq<string>)
    requires Inv(fs) && d in fs.dirs
    ensures Inv(UnlinkAt(fs, d, p).0) && Inv(RmdirAt(fs, d, p).0)
  {
    if p != [] && PrefixError(fs, d, p) == Ok {
      AtParent(fs, d, p);
      UnlinkInv(fs, Parent(fs, d, p), Last(p));
    }
  }

  lemma OpenInv(fs: Fs, d: nat, p: seq<string>, f: Flags, room: bool, slot: bool)
    requires Inv(fs) && d in fs.dirs && forall c :: c in p ==> Name(c)
    ensures Inv(OpenAt(fs, d, p, f, room, slot).0)
  {
    if p != [] && PrefixError(fs, d, p) == Ok {
      AtParent(fs, d, p);
      match Walk(fs, d, p) {
        case None => NewFileInv(fs, Parent(fs, d, p), Last(p));
        case Some(File(i)) => SetContentInv(fs, i, []);
        case _ =>
      }
    }
  }

  lemma SetContentInv(fs: Fs, i: nat, s: seq<B.Byte>)
    requires Inv(fs) && i in fs.inodes
    ensures Inv(fs.(inodes := fs.inodes[i := s]))
  {
    var fs2 := fs.(inodes := fs.inodes[i := s]);
    assert forall d, n :: Child(fs2, d, n) == Child(fs, d, n);
  }

  // Each successful operation changes exactly one path, seen from where it started

  /** Two paths to the same entry of the same directory are the same path. */
  lemma SameEntry(fs: Fs, d: nat, p: seq<string>, q: seq<string>)
    requires Inv(fs) && p != [] && q != [] && Walk(fs, d, Init(p)).Some?
    ensures Walk(fs, d, Init(q)) == Walk(fs, d, Init(p)) && Last(q) == Last(p) <==> q == p
  {
    if Walk(fs, d, Init(q)) == Walk(fs, d, Init(p)) && Last(q) == Last(p) {
      OnePathEach(fs, d, Init(p), Init(q));
      assert q == Init(q) + [Last(q)] && p == Init(p) + [Last(p)];
    }
  }

  lemma OneChangeAt(fs: Fs, fs2: Fs, d: nat, p: seq<string>, q: seq<string>)
    requires Inv(fs) && d in fs.dirs && p != [] && PrefixError(fs, d, p) == Ok
    requires var par := Parent(fs, d, p);
      && SameBut(fs, fs2, par, Last(p)) && Leaf(fs, Child(fs, par, Last(p))) && Leaf(fs2, Child(fs2, par, Last(p)))
    ensures Walk(fs2, d, q) == if q == p then Child(fs2, Parent(fs, d, p), Last(p)) else Walk(fs, d, q)
  {
    AtParent(fs, d, p);
    OneChange(fs, fs2, Parent(fs, d, p), Last(p), d, q);
    if q != [] { SameEntry(fs, d, p, q); }
  }

  lemma MkdirAddsOnePath(fs: Fs, d: nat, p: seq<string>, room: bool, q: seq<string>)
    requires Inv(fs) && d in fs.dirs && MkdirAt(fs, d, p, room).1 == Ok
    ensures Walk(MkdirAt(fs, d, p, room).0, d, q) == if q == p then Some(Dir(fs.nextDir)) else Walk(fs, d, q)
    ensures Entries(MkdirAt(fs, d, p, room).0, fs.nextDir) == []
  {
    var par, fs2 := Parent(fs, d, p), MkdirAt(fs, d, p, room).0;
    AtParent(fs, d, p);
    forall x, m
      ensures Child(fs2, x, m) == if x == par && m == Last(p) then Some(Dir(fs.nextDir)) else Child(fs, x, m)
    {
      NewDirEffect(fs, par, Last(p), x, m);
    }
    OneChangeAt(fs, fs2, d, p, q);
  }

  lemma CreateAddsOnePath(fs: Fs, d: nat, p: seq<string>, f: Flags, slot: bool, q: seq<string>)
    requires Inv(fs) && d in fs.dirs && p != [] && PrefixError(fs, d, p) == Ok
    requires Walk(fs, d, p) == None && f.creat
    ensures Walk(OpenAt(fs, d, p, f, true, slot).0, d, q) == if q == p then Some(File(fs.nextIno)) else Walk(fs, d, q)
    ensures fs.nextIno !in fs.inodes
    ensures OpenAt(fs, d, p, f, true, slot).0.inodes == fs.inodes[fs.nextIno := []]
  {
    var par, fs2 := Parent(fs, d, p), OpenAt(fs, d, p, f, true, slot).0;
    AtParent(fs, d, p);
    forall x, m
      ensures Child(fs2, x, m) == if x == par && m == Last(p) then Some(File(fs.nextIno)) else Child(fs, x, m)
    {
      NewFileEffect(fs, par, Last(p), x, m);
    }
    OneChangeAt(fs, fs2, d, p, q);
  }

  lemma RemovalEffect(fs: Fs, d: nat, p: seq<string>, q: seq<string>)
    requires Inv(fs) && d in fs.dirs && p != [] && PrefixError(fs, d, p) == Ok && Leaf(fs, Walk(fs, d, p))
    ensures Walk(Unlink(fs, Parent(fs, d, p), Last(p)), d, q) == if q == p then None else Walk(fs, d, q)
  {
    var par := Parent(fs, d, p);
    var fs2 := Unlink(fs, par, Last(p));
    AtParent(fs, d, p);
    forall x, m
      ensures Child(fs2, x, m) == if x == par && m == Last(p) then None else Child(fs, x, m)
    {
      UnlinkEffect(fs, par, Last(p), x, m);
    }
    OneChangeAt(fs, fs2, d, p, q);
  }

  lemma UnlinkRemovesOnePath(fs: Fs, d: nat, p: seq<string>, q: seq<string>)
    requires Inv(fs) && d in fs.dirs && UnlinkAt(fs, d, p).1 == Ok
    ensures Walk(UnlinkAt(fs, d, p).0, d, q) == if q == p then None else Walk(fs, d, q)
    ensures Walk(fs, d, p).Some? && Walk(fs, d, p).value.File?
    ensures UnlinkAt(fs, d, p).0.inodes == fs.inodes
  {
    RemovalEffect(fs, d, p, q);
  }

  lemma RmdirRemovesOnePath(fs: Fs, d: nat, p: seq<string>, q: seq<string>)
    requires Inv(fs) && d in fs.dirs && RmdirAt(fs, d, p).1 == Ok
    ensures Walk(RmdirAt(fs, d, p).0, d, q) == if q == p then None else Walk(fs, d, q)
    ensures forall n :: Walk(fs, d, p + [n]) == None
  {
    RemovalEffect(fs, d, p, q);
    forall n
      ensures Walk(fs, d, p + [n]) == None
    {
      WalkSnoc(fs, d, p + [n]);
      assert Init(p + [n]) == p;
    }
  }

  // Runs

  datatype Op =
    | OpOpen(d: nat, path: string, flags: Flags, room: bool, slot: bool)
    | OpMkdir(d: nat, path: string, room: bool)
    | OpUnlink(d: nat, path: string)
    | OpRmdir(d: nat, path: string)
    | OpWrite(ino: nat, src: seq<B.Byte>, off: nat)
    | OpTruncate(ino: nat, len: nat)

  /** Directories are only used through handles on directories, and contents through handles on files. */
  predicate Enabled(fs: Fs, op: Op) {
    if op.OpWrite? || op.OpTruncate? then op.ino in fs.inodes else op.d in fs.dirs
  }

  function Step(fs: Fs, op: Op): Fs
    requires Enabled(fs, op)
  {
    match op
    case OpOpen(d, path, f, room, slot) => OpenAt(fs, d, Components(path), f, room, slot).0
    case OpMkdir(d, path, room) => MkdirAt(fs, d, Components(path), room).0
    case OpUnlink(d, path) => UnlinkAt(fs, d, Components(path)).0
    case OpRmdir(d, path) => RmdirAt(fs, d, Components(path)).0
    case OpWrite(i, src, off) => fs.(inodes := fs.inodes[i := B.WriteAt(fs.inodes[i], src, off)])
    case OpTruncate(i, len) => fs.(inodes := fs.inodes[i := B.Resized(fs.inodes[i], len)])
  }

  predicate Run(fs: Fs, ops: seq<Op>)
    decreases |ops|
  {
    ops == [] || (Enabled(fs, ops[0]) && Run(Step(fs, ops[0]), ops[1..]))
  }

  function After(fs: Fs, ops: seq<Op>): Fs
    requires Run(fs, ops)
    decreases |ops|
  {
    if ops == [] then fs else After(Step(fs, ops[0]), ops[1..])
  }

  lemma StepInv(fs: Fs, op: Op)
    requires Inv(fs) && Enabled(fs, op)
    ensures Inv(Step(fs, op))
  {
    match op {
      case OpOpen(d, path, f, room, slot) =>
        ComponentsAreNames(path);
        OpenInv(fs, d, Components(path), f, room, slot);
      case OpMkdir(d, path, room) =>
        ComponentsAreNames(path);
        MkdirInv(fs, d, Components(path), room);
      case OpUnlink(d, path) => UnlinkAtInv(fs, d, Components(path));
      case OpRmdir(d, path) => UnlinkAtInv(fs, d, Components(path));
      case OpWrite(i, src, off) => SetContentInv(fs, i, B.WriteAt(fs.inodes[i], src, off));
      case OpTruncate(i, len) => SetContentInv(fs, i, B.Resized(fs.inodes[i], len));
    }
  }

  lemma {:induction false} AfterInv(fs: Fs, ops: seq<Op>)
    requires Inv(fs) && Run(fs, ops)
    ensures Inv(After(fs, ops))
    decreases |ops|
  {
    if ops != [] {
      StepInv(fs, ops[0]);
      AfterInv(Step(fs, ops[0]), ops[1..]);
    }
  }

  /** After any run from the empty file system: a tree, with distinct proper names for siblings. */
  lemma ReachableIsTree(ops: seq<Op>, d: nat, i: nat, j: nat)
    requires Run(Empty, ops) && d in After(Empty, ops).dirs && i < j < |After(Empty, ops).dirs[d]|
    ensures Inv(After(Empty, ops))
    ensures var es := After(Empty, ops).dirs[d];
      es[i].name != es[j].name && Name(es[i].name) && Name(es[j].name)
  {
    AfterInv(Empty, ops);
    SiblingsDiffer(After(Empty, ops).dirs[d], i, j);
    NamesHold(After(Empty, ops).dirs[d], i);
  }

  lemma {:induction false} NamesHold(es: seq<Entry>, i: nat)
    requires WellNamed(es) && i < |es|
    ensures Name(es[i].name)
  {
    if i > 0 {
      NamesHold(es[1..], i - 1);
    }
  }

  // Open handles

  /** No name leads to file `i` any more, and none can be given to it. */
  ghost predicate Orphan(fs: Fs, i: nat) {
    i in fs.inodes && forall d, n :: Child(fs, d, n) != Some(File(i))
  }

  lemma UnlinkOrphans(fs: Fs, d: nat, p: seq<string>)
    requires Inv(fs) && d in fs.dirs && UnlinkAt(fs, d, p).1 == Ok
    ensures Orphan(UnlinkAt(fs, d, p).0, Walk(fs, d, p).value.ino)
  {
    AtParent(fs, d, p);
    UnlinkedOrphan(fs, Parent(fs, d, p), Last(p), Walk(fs, d, p).value.ino);
  }

  lemma UnlinkedOrphan(fs: Fs, d: nat, n: string, i: nat)
    requires Inv(fs) && Child(fs, d, n) == Some(File(i))
    ensures Orphan(Unlink(fs, d, n), i)
  {
    forall x, m
      ensures Child(Unlink(fs, d, n), x, m) != Some(File(i))
    {
      UnlinkEffect(fs, d, n, x, m);
    }
  }

  lemma NotReached(fs: Fs, d: nat, p: seq<string>, i: nat)
    requires Orphan(fs, i)
    ensures Walk(fs, d, p) != Some(File(i))
  {
    if p != [] {
      WalkSnoc(fs, d, p);
    }
  }

  lemma OrphanCreate(fs: Fs, d: nat, n: string, i: nat)
    requires Inv(fs) && Orphan(fs, i)
    ensures Orphan(NewFile(fs, d, n), i) && NewFile(fs, d, n).inodes[i] == fs.inodes[i]
  {
    forall x, m
      ensures Child(NewFile(fs, d, n), x, m) != Some(File(i))
    {
      NewFileEffect(fs, d, n, x, m);
    }
  }

  lemma OrphanSetContent(fs: Fs, j: nat, s: seq<B.Byte>, i: nat)
    requires Orphan(fs, i)
    ensures var fs2 := fs.(inodes := fs.inodes[j := s]); Orphan(fs2, i) && (j != i ==> fs2.inodes[i] == fs.inodes[i])
  {
    var fs2 := fs.(inodes := fs.inodes[j := s]);
    forall x, m
      ensures Child(fs2, x, m) != Some(File(i))
    {
      assert Child(fs2, x, m) == Child(fs, x, m);
    }
  }

  lemma OrphanOpen(fs: Fs, d: nat, p: seq<string>, f: Flags, room: bool, slot: bool, i: nat)
    requires Inv(fs) && Orphan(fs, i)
    ensures var fs2 := OpenAt(fs, d, p, f, room, slot).0;
      Orphan(fs2, i) && fs2.inodes[i] == fs.inodes[i]
  {
    if p != [] && PrefixError(fs, d, p) == Ok {
      NotReached(fs, d, p, i);
      match Walk(fs, d, p)
      case None => OrphanCreate(fs, Parent(fs, d, p), Last(p), i);
      case Some(File(j)) => OrphanSetContent(fs, j, [], i);
      case Some(Dir(_)) =>
    }
  }

  lemma OrphanMkdir(fs: Fs, d: nat, p: seq<string>, room: bool, i: nat)
    requires Inv(fs) && Orphan(fs, i)
    ensures Orphan(MkdirAt(fs, d, p, room).0, i) && MkdirAt(fs, d, p, room).0.inodes == fs.inodes
  {
    if MkdirAt(fs, d, p, room).1 == Ok {
      forall x, m
        ensures Child(MkdirAt(fs, d, p, room).0, x, m) != Some(File(i))
      {
        NewDirEffect(fs, Parent(fs, d, p), Last(p), x, m);
      }
    }
  }

  lemma OrphanRemoval(fs: Fs, d: nat, n: string, i: nat)
    requires Inv(fs) && Orphan(fs, i)
    ensures Orphan(Unlink(fs, d, n), i) && Unlink(fs, d, n).inodes == fs.inodes
  {
    forall x, m
      ensures Child(Unlink(fs, d, n), x, m) != Some(File(i))
    {
      UnlinkEffect(fs, d, n, x, m);
    }
  }

  lemma OrphanUnlink(fs: Fs, d: nat, p: seq<string>, i: nat)
    requires Inv(fs) && Orphan(fs, i)
    ensures Orphan(UnlinkAt(fs, d, p).0, i) && UnlinkAt(fs, d, p).0.inodes == fs.inodes
    ensures Orphan(RmdirAt(fs, d, p).0, i) && RmdirAt(fs, d, p).0.inodes == fs.inodes
  {
    if p != [] { OrphanRemoval(fs, Parent(fs, d, p), Last(p), i); }
  }

  predicate Touches(op: Op, i: nat) {
    (op.OpWrite? || op.OpTruncate?) && op.ino == i
  }

  lemma StepOrphan(fs: Fs, op: Op, i: nat)
    requires Inv(fs) && Enabled(fs, op) && Orphan(fs, i)
    ensures Orphan(Step(fs, op), i)
    ensures !Touches(op, i) ==> Step(fs, op).inodes[i] == fs.inodes[i]
  {
    match op {
      case OpOpen(d, path, f, room, slot) => OrphanOpen(fs, d, Components(path), f, room, slot, i);
      case OpMkdir(d, path, room) => OrphanMkdir(fs, d, Components(path), room, i);
      case OpUnlink(d, path) => OrphanUnlink(fs, d, Components(path), i);
      case OpRmdir(d, path) => OrphanUnlink(fs, d, Components(path), i);
      case OpWrite(j, src, off) => OrphanSetContent(fs, j, B.WriteAt(fs.inodes[j], src, off), i);
      case OpTruncate(j, len) => OrphanSetContent(fs, j, B.Resized(fs.inodes[j], len), i);
    }
  }

  /** An unlinked file keeps its content over every run that does not write through its handles:
      no name ever leads to it again, also when its old name is used for a new file. */
  lemma {:induction false} HandleKeepsContent(fs: Fs, ops: seq<Op>, i: nat)
    requires Inv(fs) && Run(fs, ops) && Orphan(fs, i)
    requires forall k :: 0 <= k < |ops| ==> !Touches(ops[k], i)
    ensures Orphan(After(fs, ops), i) && After(fs, ops).inodes[i] == fs.inodes[i]
    decreases |ops|
  {
    if ops != [] {
      StepInv(fs, ops[0]);
      StepOrphan(fs, ops[0], i);
      HandleKeepsContent(Step(fs, ops[0]), ops[1..], i);
    }
  }
}
