/** The tmpfs directory operations: each takes one name off its path and goes on in the sub-directory. */
module TmpfsDir {
  import opened Wrappers
  import opened TmpfsPaths
  import opened TmpfsTree
  import B = TmpfsBuffer

  /** One step down a path leaves every question about it unchanged. */
  lemma StepDown(fs: Fs, d: nat, p: seq<string>, e: nat)
    requires |p| > 1 && Child(fs, d, p[0]) == Some(Dir(e))
    ensures PrefixError(fs, d, p) == PrefixError(fs, e, p[1..])
    ensures Walk(fs, d, p) == Walk(fs, e, p[1..]) && Last(p) == Last(p[1..])
    ensures PrefixError(fs, d, p) == Ok ==> Parent(fs, d, p) == Parent(fs, e, p[1..])
  {
    assert Init(p)[1..] == Init(p[1..]);
    PrefixOk(fs, d, p);
    PrefixOk(fs, e, p[1..]);
  }

  /** At the last name there is nothing left to check before it. */
  lemma AtLeaf(fs: Fs, d: nat, p: seq<string>)
    requires |p| == 1
    ensures PrefixError(fs, d, p) == Ok && Parent(fs, d, p) == d && Last(p) == p[0]
    ensures Walk(fs, d, p) == Child(fs, d, p[0])
  {
    assert Init(p) == [];
    WalkSnoc(fs, d, p);
  }

  /** Walk the list up to the entry called `n` and leave it out. */
  method CutEntry(es: seq<Entry>, n: string) returns (r: seq<Entry>)
    ensures r == Without(es, n)
  {
    var i := 0;
    while i < |es| && es[i].name != n
      invariant 0 <= i <= |es| && Without(es, n) == es[..i] + Without(es[i..], n)
    {
      WithoutNext(es, n, i);
      i := i + 1;
    }
    if i < |es| {
      r := es[..i] + es[i + 1..];
    } else {
      r := es;
    }
  }

  lemma WithoutNext(es: seq<Entry>, n: string, i: nat)
    requires i < |es| && es[i].name != n
    ensures es[..i] + Without(es[i..], n) == es[..i + 1] + Without(es[i + 1..], n)
  {
    assert es[i..][1..] == es[i + 1..] && es[..i + 1] == es[..i] + [es[i]];
  }

  class Tmpfs {
    var dirs: map<nat, seq<Entry>>
    var inodes: map<nat, seq<B.Byte>>
    var nextDir: nat
    var nextIno: nat

    ghost function State(): Fs
      reads this
    {
      Fs(dirs, inodes, nextDir, nextIno)
    }

    constructor ()
      ensures State() == Empty && Inv(State())
    {
      dirs, inodes, nextDir, nextIno := map[0 := []], map[], 1, 0;
    }

    method FindEntry(d: nat, n: string) returns (r: Option<Node>)
      requires d in dirs
      ensures r == Child(State(), d, n)
    {
      var es, i := dirs[d], 0;
      assert es[0..] == es;
      while i < |es|
        invariant 0 <= i <= |es| && Find(es[i..], n) == Find(es, n)
      {
        if es[i].name == n {
          return Some(es[i].node);
        }
        assert es[i..][1..] == es[i + 1..];
        i := i + 1;
      }
      return None;
    }

    /** Take the entry called `n` out of the list. */
    method Remove(d: nat, n: string)
      requires d in dirs
      modifies this
      ensures State() == Unlink(old(State()), d, n)
    {
      var es := CutEntry(dirs[d], n);
      dirs := dirs[d := es];
    }

    method AddDir(d: nat, n: string)
      requires d in dirs
      requires Fresh(State())
      modifies this
      ensures State() == NewDir(old(State()), d, n)
    {
      dirs := dirs[nextDir := []];
      dirs := dirs[d := [Entry(n, Dir(nextDir))] + dirs[d]];
      nextDir := nextDir + 1;
    }

    method AddFile(d: nat, n: string)
      requires d in dirs
      modifies this
      ensures State() == NewFile(old(State()), d, n)
    {
      inodes := inodes[nextIno := []];
      dirs := dirs[d := [Entry(n, File(nextIno))] + dirs[d]];
      nextIno := nextIno + 1;
    }

    method GetEntry(d: nat, path: string, f: Flags, room: bool, slot: bool) returns (err: Code, h: Option<Handle>)
      requires Inv(State()) && d in dirs
      modifies this
      ensures (State(), err, h) == OpenAt(old(State()), d, Components(path), f, room, slot)
      decreases |path|
    {
      var found, name, rest := Split(path);
      if !found {
        return Ok, Some(DirHandle(d));
      }
      var e := FindEntry(d, name);
      if rest.Some? {
        if e.None? {
          return Enoent, None;
        }
        if e.value.File? {
          return Enotdir, None;
        }
        StepDown(State(), d, Components(path), e.value.id);
        err, h := GetEntry(e.value.id, rest.value, f, room, slot);
        return;
      }
      AtLeaf(State(), d, Components(path));
      if e.Some? {
        if e.value.Dir? {
          return Ok, Some(DirHandle(e.value.id));
        }
        if f.trunc {
          inodes := inodes[e.value.ino := []];
        }
        if slot {
          return Ok, Some(FileHandle(e.value.ino, f.append));
        }
        return Enomem, None;
      }
      if !f.creat {
        return Enoent, None;
      }
      if !room {
        return Enomem, None;
      }
      var ino := nextIno;
      AddFile(d, name);
      if slot {
        return Ok, Some(FileHandle(ino, f.append));
      }
      return Enomem, None;
    }

    method Mkdir(d: nat, path: string, room: bool) returns (err: Code)
      requires Inv(State()) && d in dirs
      modifies this
      ensures (State(), err) == MkdirAt(old(State()), d, Components(path), room)
      decreases |path|
    {
      var found, name, rest := Split(path);
      if !found {
        return Eexist;
      }
      var e := FindEntry(d, name);
      if rest.Some? {
        if e.None? {
          return Enoent;
        }
        if e.value.File? {
          return Enotdir;
        }
        StepDown(State(), d, Components(path), e.value.id);
        err := Mkdir(e.value.id, rest.value, room);
        return;
      }
      AtLeaf(State(), d, Components(path));
      if e.Some? {
        return Eexist;
      }
      if !room {
        return Enomem;
      }
      AddDir(d, name);
      return Ok;
    }

    method UnlinkPath(d: nat, path: string) returns (err: Code)
      requires Inv(State()) && d in dirs
      modifies this
      ensures (State(), err) == UnlinkAt(old(State()), d, Components(path))
      decreases |path|
    {
      var found, name, rest := Split(path);
      if !found {
        return Eisdir;
      }
      var e := FindEntry(d, name);
      if rest.None? {
        AtLeaf(State(), d, Components(path));
      }
      if e.None? {
        return Enoent;
      }
      if rest.Some? {
        if e.value.File? {
          return Enotdir;
        }
        StepDown(State(), d, Components(path), e.value.id);
        err := UnlinkPath(e.value.id, rest.value);
        return;
      }
      if e.value.Dir? {
        return Eisdir;
      }
      Remove(d, name);
      return Ok;
    }

    method Rmdir(d: nat, path: string) returns (err: Code)
      requires Inv(State()) && d in dirs
      modifies this
      ensures (State(), err) == RmdirAt(old(State()), d, Components(path))
      decreases |path|
    {
      var found, name, rest := Split(path);
      if !found {
        return Einval;
      }
      var e := FindEntry(d, name);
      if rest.None? {
        AtLeaf(State(), d, Components(path));
      }
      if e.None? {
        return Enoent;
      }
      if rest.Some? {
        if e.value.File? {
          return Enotdir;
        }
        StepDown(State(), d, Components(path), e.value.id);
        err := Rmdir(e.value.id, rest.value);
        return;
      }
      if e.value.File? {
        return Enotdir;
      }
      if dirs[e.value.id] != [] {
        return Enotempty;
      }
      Remove(d, name);
      return Ok;
    }

    method Faccessat(d: nat, path: string) returns (err: Code)
      requires Inv(State()) && d in dirs
      ensures err == AccessAt(State(), d, Components(path))
      decreases |path|
    {
      var found, name, rest := Split(path);
      if !found {
        return Ok;
      }
      var e := FindEntry(d, name);
      if rest.None? {
        AtLeaf(State(), d, Components(path));
      }
      if e.None? {
        return Enoent;
      }
      if rest.Some? {
        if e.value.File? {
          return Enotdir;
        }
        StepDown(State(), d, Components(path), e.value.id);
        err := Faccessat(e.value.id, rest.value);
        return;
      }
      return Ok;
    }
  }
}
