/**
 The two volume writers, system call by system call. Any call may fail for a reason of its own; the
 volume counts these faults and records every call that changed it.
 */
module InplaceStorage {
  import opened Prelude
  import opened VolumeFs
  import opened InplaceSteps
  import opened InplaceRewrite
  import opened VolumeSpec

  datatype Status<+T> = Ok(value: T) | NotExist | Refused | Fault

  datatype DirEntry = DirEntry(name: Name, symlink: bool)

  /** The data directory of one volume as the operating system offers it. */
  class Volume {
    var fs: Fs
    var log: seq<Call>
    var faults: nat

    /** A call that fails on its own account: the disk is full, memory is short, ... */
    method Faults() returns (fault: bool)
      modifies this`faults
      ensures faults == old(faults) + (if fault then 1 else 0)
    {
      fault := *;
      if fault {
        faults := faults + 1;
      }
    }

    /** A state-changing call: it happens and is recorded, or fails and changes nothing. */
    method Do(c: Call) returns (ok: bool)
      modifies this
      ensures ok ==> fs == Apply(old(fs), c) && log == old(log) + [c] && faults == old(faults)
      ensures !ok ==> fs == old(fs) && log == old(log) && faults == old(faults) + 1
    {
      var fault := Faults();
      if !fault {
        fs := Apply(fs, c);
        log := log + [c];
      }
      return !fault;
    }

    /** `mkdir -p` of the data directory; nothing happens where it exists. */
    method MkdirAll() returns (ok: bool)
      modifies this
      ensures faults == old(faults) + (if ok then 0 else 1)
      ensures fs == if ok && !old(fs).present then Apply(old(fs), MakeDir) else old(fs)
      ensures log == if ok && !old(fs).present then old(log) + [MakeDir] else old(log)
    {
      if fs.present {
        var fault := Faults();
        return !fault;
      }
      ok := Do(MakeDir);
    }

    /** `stat`: follows links; the value is the file's group. */
    method Stat(name: Name) returns (st: Status<int>)
      modifies this`faults
      ensures faults == old(faults) + (if st.Fault? then 1 else 0)
      ensures st.NotExist? ==> Resolve(fs, name).None? && !IsDir(fs, name)
      ensures st.Ok? ==> IsDir(fs, name) || FileGid(fs, name) == Some(st.value)
      ensures !st.Refused?
    {
      var fault := Faults();
      if fault {
        return Fault;
      }
      match Resolve(fs, name)
      case Some(i) => st := Ok(Gid(fs, i));
      case None => st := if IsDir(fs, name) then Ok(fs.dirGid) else NotExist;
    }

    /** `lstat`: the entry itself. */
    method Lstat(name: Name) returns (st: Status<Entry>)
      modifies this`faults
      ensures faults == old(faults) + (if st.Fault? then 1 else 0)
      ensures st.NotExist? ==> name !in fs.root
      ensures st.Ok? ==> name in fs.root && fs.root[name] == st.value
      ensures !st.Refused?
    {
      var fault := Faults();
      if fault {
        return Fault;
      }
      st := if name in fs.root then Ok(fs.root[name]) else NotExist;
    }

    /** `lstat` of the `..data` link. */
    method LstatData() returns (st: Status<()>)
      modifies this`faults
      ensures faults == old(faults) + (if st.Fault? then 1 else 0)
      ensures st.NotExist? ==> fs.data.NoData?
      ensures st.Ok? ==> fs.data.Data?
      ensures !st.Refused?
    {
      var fault := Faults();
      st := if fault then Fault else if fs.data.Data? then Ok(()) else NotExist;
    }

    /** `stat` of the `..data` link. */
    method StatData() returns (st: Status<()>)
      modifies this`faults
      ensures faults == old(faults) + (if st.Fault? then 1 else 0)
      ensures st.NotExist? ==> Current(fs).None?
      ensures st.Ok? ==> Current(fs).Some?
      ensures !st.Refused?
    {
      var fault := Faults();
      st := if fault then Fault else if Current(fs).Some? then Ok(()) else NotExist;
    }

    /** `stat` of the data directory itself: its group. */
    method StatDir() returns (st: Status<int>)
      modifies this`faults
      ensures faults == old(faults) + (if st.Fault? then 1 else 0)
      ensures st.Ok? ==> st.value == fs.dirGid
      ensures st.NotExist? ==> !fs.present
      ensures !st.Refused?
    {
      var fault := Faults();
      st := if fault then Fault else if fs.present then Ok(fs.dirGid) else NotExist;
    }

    /** All entries of the data directory, the writer's own included, in no particular order. */
    method ReadDir() returns (st: Status<seq<DirEntry>>)
      modifies this`faults
      ensures faults == old(faults) + (if st.Fault? then 1 else 0)
      ensures st.NotExist? ==> !fs.present
      ensures st.Ok? ==> Lists(fs, st.value)
      ensures !st.Refused?
    {
      var fault := Faults();
      if fault {
        return Fault;
      }
      if !fs.present {
        return NotExist;
      }
      var entries: seq<DirEntry> := [];
      var left := Listed(fs);
      while left != {}
        invariant left <= Listed(fs)
        invariant forall e <- entries :: e == EntryOf(fs, e.name) && e.name in Listed(fs) - left
        invariant forall n <- Listed(fs) - left :: EntryOf(fs, n) in entries
        invariant forall j, k | 0 <= j < k < |entries| :: entries[j].name != entries[k].name
        decreases left
      {
        var n :| n in left;
        assert EntryOf(fs, n) !in entries;
        entries := entries + [EntryOf(fs, n)];
        left := left - {n};
      }
      st := Ok(entries);
    }

    /** The whole content of a file. */
    method ReadFile(name: Name) returns (st: Status<Bytes>)
      modifies this`faults
      ensures faults == old(faults) + (if st.Fault? then 1 else 0)
      ensures st.Ok? ==> Lookup(fs, name) == Some(st.value)
      ensures st.NotExist? || st.Refused? ==> Lookup(fs, name).None?
    {
      var fault := Faults();
      if fault {
        return Fault;
      }
      match Lookup(fs, name)
      case Some(content) => st := Ok(content);
      case None => st := if IsDir(fs, name) then Refused else NotExist;
    }

    /** `open` for writing with `O_CREATE`, without `O_TRUNC`, following links. */
    method Open(name: Name) returns (st: Status<Ino>)
      modifies this
      ensures faults == old(faults) + (if st.Fault? then 1 else 0)
      ensures st.Ok? && Resolve(old(fs), name).Some? ==>
        Resolve(fs, name) == Some(st.value) && fs == old(fs) && log == old(log)
      ensures st.Ok? && Resolve(old(fs), name).None? ==>
        && !IsDir(old(fs), name) && !(IsLink(old(fs), name) && Current(old(fs)).None?) && old(fs).present
        && st.value == old(fs).next && fs == Apply(old(fs), Create(name)) && log == old(log) + [Create(name)]
      ensures !st.Ok? ==> fs == old(fs) && log == old(log)
      ensures st.Refused? || st.NotExist? ==>
        IsDir(fs, name) || !fs.present || (IsLink(fs, name) && Current(fs).None?)
    {
      var fault := Faults();
      if fault {
        return Fault;
      }
      if IsDir(fs, name) {
        return Refused;
      }
      if Resolve(fs, name).Some? {
        return Ok(Resolve(fs, name).value);
      }
      if !fs.present || (IsLink(fs, name) && Current(fs).None?) {
        return NotExist;
      }
      st := Ok(fs.next);
      fs := Apply(fs, Create(name));
      log := log + [Create(name)];
    }
  }

  function Listed(s: Fs): set<Name> {
    s.root.Keys + s.dirs.Keys + (if s.data.Data? then {DATA_LINK} else {})
  }

  function EntryOf(s: Fs, n: Name): DirEntry {
    DirEntry(n, (n == DATA_LINK && s.data.Data?) || IsLink(s, n))
  }

  predicate Lists(s: Fs, entries: seq<DirEntry>) {
    && (forall e <- entries :: e == EntryOf(s, e.name) && e.name in Listed(s))
    && (forall n <- Listed(s) :: EntryOf(s, n) in entries)
    && (forall j, k | 0 <= j < k < |entries| :: entries[j].name != entries[k].name)
  }

  // ---- Keeping account of what a write has done ----------------------------------------------

  /** `t` is what the write `op` has done so far to get from `s` to `s'`. */
  ghost predicate Ran(op: Op, s: Fs, t: seq<Call>, s': Fs) {
    Legal(op, s, t) && s' == Replay(s, t)
  }

  lemma RanConcat(op: Op, s: Fs, t: seq<Call>, s1: Fs, u: seq<Call>, s2: Fs)
    requires Ran(op, s, t, s1) && Ran(op, s1, u, s2)
    ensures Ran(op, s, t + u, s2)
  {
    LegalConcat(op, s, t, u);
    ReplayConcat(s, t, u);
  }

  lemma ConcatAssociative(t: seq<Call>, u: seq<Call>, v: seq<Call>)
    ensures t + u + v == t + (u + v)
  {
  }

  lemma RanAppend(op: Op, s: Fs, t: seq<Call>, s1: Fs, c: Call)
    requires Ran(op, s, t, s1) && Permitted(op, s1, c)
    ensures Ran(op, s, t + [c], Apply(s1, c))
  {
    assert (t + [c])[..|t + [c]| - 1] == t;
  }

  /** One call of the write `op`. */
  method Perform(vol: Volume, c: Call, ghost op: Op, ghost s: Fs, ghost t: seq<Call>)
    returns (ok: bool, ghost u: seq<Call>)
    requires Ran(op, s, t, vol.fs) && Permitted(op, vol.fs, c)
    modifies vol
    ensures u == if ok then [c] else []
    ensures Ran(op, s, t + u, vol.fs) && vol.log == old(vol.log) + u
    ensures vol.fs == if ok then Apply(old(vol.fs), c) else old(vol.fs)
    ensures vol.faults == old(vol.faults) + (if ok then 0 else 1)
  {
    RanAppend(op, s, t, vol.fs, c);
    ok := vol.Do(c);
    u := if ok then [c] else [];
    assert t + [] == t;
  }

  lemma ProgressAppend(t: seq<Call>, c: Call, n: Name, i: Ino, data: Bytes)
    ensures ProgressOf(t + [c], n, i, data) == Advance(ProgressOf(t, n, i, data), c, n, i, data)
  {
    assert (t + [c])[..|t + [c]| - 1] == t;
  }

  // ---- One file --------------------------------------------------------------------------------

  /** What a writer of `data` has done on its open file `i`, starting from `s`. */
  ghost predicate Rewriting(op: Op, s: Fs, n: Name, i: Ino, data: Bytes, t: seq<Call>, s': Fs) {
    && Ran(op, s, t, s')
    && (forall c <- t :: Target(c) == Some(n))
    && !ProgressOf(t, n, i, data).Other?
  }

  /** The volume with another content and group for one inode; everything else is as in `s`. */
  lemma SetInodeResolves(s: Fs, i: Ino, node: Inode)
    ensures forall n :: Resolve(SetInode(s, i, node), n) == Resolve(s, n)
  {
    assert Current(SetInode(s, i, node)) == Current(s);
  }

  lemma SetInodeTwice(s: Fs, i: Ino, a: Inode, b: Inode)
    ensures SetInode(SetInode(s, i, a), i, b) == SetInode(s, i, b)
  {
    assert s.inodes[i := a][i := b] == s.inodes[i := b];
  }

  lemma SetInodeSame(s: Fs, i: Ino)
    requires i in s.inodes
    ensures SetInode(s, i, Inode(Content(s, i), Gid(s, i))) == s
  {
    assert s.inodes[i := s.inodes[i]] == s.inodes;
  }

  /** The file calls on an inode whose content and group are known. */
  lemma FileCalls(s: Fs, i: Ino, node: Inode, n: Name, off: nat, b: Bytes, g: int)
    ensures Apply(SetInode(s, i, node), WriteAt(n, i, off, b)) ==
      SetInode(s, i, node.(content := Overwrite(node.content, off, b)))
    ensures Apply(SetInode(s, i, node), Truncate(n, i, off)) ==
      SetInode(s, i, node.(content := Resize(node.content, off)))
    ensures Apply(SetInode(s, i, node), Chown(n, i, g)) == SetInode(s, i, node.(gid := g))
  {
    SetInodeTwice(s, i, node, node.(content := Overwrite(node.content, off, b)));
    SetInodeTwice(s, i, node, node.(content := Resize(node.content, off)));
    SetInodeTwice(s, i, node, node.(gid := g));
  }

  /** One call of a writer on its open file. */
  method OnOpenFile(vol: Volume, c: Call, ghost op: Op, ghost s: Fs, ghost n: Name, ghost i: Ino, ghost data: Bytes,
      ghost t: seq<Call>)
    returns (ok: bool, ghost u: seq<Call>)
    requires Rewriting(op, s, n, i, data, t, vol.fs)
    requires Permitted(op, vol.fs, c) && Target(c) == Some(n)
    requires !Advance(ProgressOf(t, n, i, data), c, n, i, data).Other?
    modifies vol
    ensures Rewriting(op, s, n, i, data, t + u, vol.fs) && vol.log == old(vol.log) + u
    ensures ok ==> vol.fs == Apply(old(vol.fs), c) && vol.faults == old(vol.faults)
    ensures ok ==> ProgressOf(t + u, n, i, data) == Advance(ProgressOf(t, n, i, data), c, n, i, data)
    ensures !ok ==> u == [] && vol.faults > old(vol.faults)
  {
    ProgressAppend(t, c, n, i, data);
    ok, u := Perform(vol, c, op, s, t);
    assert t + [] == t;
  }

  /** The writer has written `p` bytes over what `s` held, and nothing else. */
  ghost predicate HasWritten(op: Op, s: Fs, n: Name, i: Ino, data: Bytes, t: seq<Call>, s': Fs, p: nat) {
    && p <= |data|
    && Rewriting(op, s, n, i, data, t, s')
    && ProgressOf(t, n, i, data) == Wrote(p)
    && s' == SetInode(s, i, Inode(Mix(Content(s, i), data, p), Gid(s, i)))
  }

  /** The next chunk may be written, and makes the mix go on. */
  lemma ChunkWrites(op: Op, s: Fs, name: Name, ino: Ino, data: Bytes, off: nat, next: nat)
    requires name in op.files && op.files[name] == data && Resolve(s, name) == Some(ino) && off < next <= |data|
    ensures var s' := SetInode(s, ino, Inode(Mix(Content(s, ino), data, off), Gid(s, ino)));
      && Permitted(op, s', WriteAt(name, ino, off, data[off..next]))
      && Apply(s', WriteAt(name, ino, off, data[off..next])) ==
           SetInode(s, ino, Inode(Mix(Content(s, ino), data, next), Gid(s, ino)))
  {
    var node := Inode(Mix(Content(s, ino), data, off), Gid(s, ino));
    OverwriteMix(Content(s, ino), data, off, next);
    SetInodeResolves(s, ino, node);
    FileCalls(s, ino, node, name, off, data[off..next], 0);
  }

  /** One chunk, of whatever size the system takes. */
  method WriteChunk(vol: Volume, name: Name, ino: Ino, data: Bytes, off: nat, ghost op: Op, ghost s: Fs,
      ghost t: seq<Call>)
    returns (ok: bool, next: nat, ghost u: seq<Call>)
    requires name in op.files && op.files[name] == data && Resolve(s, name) == Some(ino)
    requires HasWritten(op, s, name, ino, data, t, vol.fs, off) && off < |data|
    modifies vol
    ensures ok ==> off < next && HasWritten(op, s, name, ino, data, t + u, vol.fs, next)
    ensures ok ==> vol.faults == old(vol.faults)
    ensures !ok ==> Rewriting(op, s, name, ino, data, t + u, vol.fs) && vol.faults > old(vol.faults)
    ensures vol.log == old(vol.log) + u
  {
    next :| off < next <= |data|;
    ChunkWrites(op, s, name, ino, data, off, next);
    ok, u := OnOpenFile(vol, WriteAt(name, ino, off, data[off..next]), op, s, name, ino, data, t);
  }

  /** `WriteAt(data, 0)`. */
  method WriteData(vol: Volume, name: Name, ino: Ino, data: Bytes, ghost op: Op)
    returns (ok: bool, ghost t: seq<Call>)
    requires name in op.files && op.files[name] == data
    requires Resolve(vol.fs, name) == Some(ino) && ino in vol.fs.inodes
    modifies vol
    ensures Rewriting(op, old(vol.fs), name, ino, data, t, vol.fs) && vol.log == old(vol.log) + t
    ensures ok ==> HasWritten(op, old(vol.fs), name, ino, data, t, vol.fs, |data|) && vol.faults == old(vol.faults)
    ensures !ok ==> vol.faults > old(vol.faults)
  {
    ghost var s0 := vol.fs;
    t := [];
    var written := 0;
    assert Mix(Content(s0, ino), data, 0) == Content(s0, ino);
    SetInodeSame(s0, ino);
    while written < |data|
      invariant HasWritten(op, s0, name, ino, data, t, vol.fs, written)
      invariant vol.log == old(vol.log) + t && vol.faults == old(vol.faults)
    {
      ghost var u: seq<Call>;
      ok, written, u := WriteChunk(vol, name, ino, data, written, op, s0, t);
      ConcatAssociative(old(vol.log), t, u);
      t := t + u;
      if !ok {
        return;
      }
    }
    ok := true;
  }

  /** The file holds exactly the new data, under group `g`; nothing else differs from `s`. */
  ghost predicate HasCut(op: Op, s: Fs, n: Name, i: Ino, data: Bytes, t: seq<Call>, s': Fs, g: int) {
    && Rewriting(op, s, n, i, data, t, s')
    && ProgressOf(t, n, i, data).Cut?
    && s' == SetInode(s, i, Inode(data, g))
  }

  /** The cut to the new length, and the sync. */
  method CutToLength(vol: Volume, name: Name, ino: Ino, data: Bytes, ghost op: Op, ghost s: Fs, ghost t: seq<Call>)
    returns (ok: bool, ghost u: seq<Call>)
    requires name in op.files && op.files[name] == data && Resolve(s, name) == Some(ino)
    requires HasWritten(op, s, name, ino, data, t, vol.fs, |data|)
    modifies vol
    ensures ok ==> HasCut(op, s, name, ino, data, t + u, vol.fs, Gid(s, ino)) && vol.faults == old(vol.faults)
    ensures !ok ==> Rewriting(op, s, name, ino, data, t + u, vol.fs) && vol.faults > old(vol.faults)
    ensures vol.log == old(vol.log) + u
  {
    ghost var node := Inode(Mix(Content(s, ino), data, |data|), Gid(s, ino));
    ResizeMix(Content(s, ino), data);
    SetInodeResolves(s, ino, node);
    FileCalls(s, ino, node, name, |data|, [], 0);
    ok, u := OnOpenFile(vol, Truncate(name, ino, |data|), op, s, name, ino, data, t);
    if ok {
      var fault := vol.Faults(); // sync
      ok := !fault;
    }
  }

  /** Mode and group of a file just created. */
  method SetOwner(vol: Volume, name: Name, ino: Ino, data: Bytes, group: Option<int>, ghost op: Op, ghost s: Fs,
      ghost t: seq<Call>)
    returns (ok: bool, ghost u: seq<Call>)
    requires name in op.files && op.group == group && Resolve(s, name) == Some(ino)
    requires HasCut(op, s, name, ino, data, t, vol.fs, Gid(s, ino))
    modifies vol
    ensures ok ==> HasCut(op, s, name, ino, data, t + u, vol.fs, NewGid(s, ino, true, group))
    ensures ok ==> vol.faults == old(vol.faults)
    ensures !ok ==> Rewriting(op, s, name, ino, data, t + u, vol.fs) && vol.faults > old(vol.faults)
    ensures vol.log == old(vol.log) + u
  {
    ghost var node := Inode(data, Gid(s, ino));
    SetInodeResolves(s, ino, node);
    ok, u := OnOpenFile(vol, Chmod(name, ino), op, s, name, ino, data, t);
    if ok && group.Some? {
      ghost var v: seq<Call>;
      FileCalls(s, ino, node, name, 0, [], group.value);
      ok, v := OnOpenFile(vol, Chown(name, ino, group.value), op, s, name, ino, data, t + u);
      ConcatAssociative(t, u, v);
      ConcatAssociative(old(vol.log), u, v);
      u := u + v;
    }
  }

  function NewGid(s: Fs, i: Ino, created: bool, group: Option<int>): int {
    if created && group.Some? then group.value else Gid(s, i)
  }

  /** `writeContentsInPlace` on the open file `ino`. */
  method WriteContentsInPlace(vol: Volume, name: Name, ino: Ino, data: Bytes, created: bool,
      group: Option<int>, ghost op: Op)
    returns (ok: bool, ghost t: seq<Call>)
    requires name in op.files && op.files[name] == data && op.group == group
    requires Resolve(vol.fs, name) == Some(ino) && ino in vol.fs.inodes
    modifies vol
    ensures Rewriting(op, old(vol.fs), name, ino, data, t, vol.fs) && vol.log == old(vol.log) + t
    ensures ok ==> HasCut(op, old(vol.fs), name, ino, data, t, vol.fs, NewGid(old(vol.fs), ino, created, group))
    ensures ok ==> vol.faults == old(vol.faults)
    ensures !ok ==> vol.faults > old(vol.faults)
  {
    ghost var s0 := vol.fs;
    ok, t := WriteData(vol, name, ino, data, op);
    if !ok {
      return;
    }
    ghost var u: seq<Call>;
    ok, u := CutToLength(vol, name, ino, data, op, s0, t);
    ConcatAssociative(old(vol.log), t, u);
    t := t + u;
    if ok && created {
      ok, u := SetOwner(vol, name, ino, data, group, op, s0, t);
      ConcatAssociative(old(vol.log), t, u);
      t := t + u;
    }
  }

  /** `ensureFileGroup`: the file's group is changed only where it differs. */
  method EnsureFileGroup(vol: Volume, name: Name, group: Option<int>, ghost op: Op)
    returns (ok: bool, ghost t: seq<Call>)
    requires name in op.files && op.group == group
    requires Resolve(vol.fs, name).Some? && Resolve(vol.fs, name).value in vol.fs.inodes
    modifies vol
    ensures Ran(op, old(vol.fs), t, vol.fs) && vol.log == old(vol.log) + t
    ensures t == [] || (group.Some? && t == [Chown(name, Resolve(old(vol.fs), name).value, group.value)])
    ensures group.None? || FileGid(old(vol.fs), name) == group ==> t == []
    ensures ok ==> vol.faults == old(vol.faults)
    ensures ok ==>
      var i := Resolve(old(vol.fs), name).value;
      vol.fs == SetInode(old(vol.fs), i,
        Inode(Content(old(vol.fs), i), if group.Some? then group.value else Gid(old(vol.fs), i)))
    ensures !ok ==> vol.faults > old(vol.faults)
  {
    t := [];
    var i := Resolve(vol.fs, name).value;
    assert vol.fs.inodes[i := vol.fs.inodes[i]] == vol.fs.inodes;
    if group.None? {
      return true, [];
    }
    var st := vol.Stat(name);
    if !st.Ok? {
      return false, [];
    }
    if st.value == group.value {
      return true, [];
    }
    var chown := Chown(name, i, group.value);
    RanAppend(op, vol.fs, [], vol.fs, chown);
    ok := vol.Do(chown);
    t := if ok then [] + [chown] else [];
  }

  /** How the calls of one file's write look: nothing but the group, or a creation, or a rewrite. */
  ghost predicate WritesOneFile(s: Fs, name: Name, data: Bytes, t: seq<Call>, done: bool) {
    && (forall c <- t :: Target(c) == Some(name))
    && match Resolve(s, name)
       case Some(i) =>
         || (Lookup(s, name) == Some(data) && forall c <- t :: c.Chown?)
         || (if done then ProgressOf(t, name, i, data).Cut? else !ProgressOf(t, name, i, data).Other?)
       case None =>
         if t == [] then !done
         else
           && t[0] == Create(name)
           && if done then ProgressOf(t[1..], name, s.next, data).Cut?
              else !ProgressOf(t[1..], name, s.next, data).Other?
  }

  /** The file is open, created or as it was. */
  ghost predicate Opened(s: Fs, n: Name, created: bool, t: seq<Call>, s': Fs, i: Ino) {
    && Resolve(s', n) == Some(i) && i in s'.inodes
    && !IsDir(s, n)
    && (if created then t == [Create(n)] && s' == Apply(s, Create(n)) && i == s.next
        else t == [] && s' == s)
  }

  method OpenFile(vol: Volume, name: Name, created: bool, ghost op: Op)
    returns (ok: bool, f: Ino, ghost t: seq<Call>)
    requires Inv(vol.fs) && vol.fs.present && ValidOp(op) && name in op.files
    requires created <==> Resolve(vol.fs, name).None? && !IsDir(vol.fs, name)
    modifies vol
    ensures Ran(op, old(vol.fs), t, vol.fs) && vol.log == old(vol.log) + t
    ensures ok ==> Opened(old(vol.fs), name, created, t, vol.fs, f) && vol.faults == old(vol.faults)
    ensures !ok ==> t == []
    ensures !ok ==> vol.faults > old(vol.faults) || IsDir(old(vol.fs), name) || Broken(old(vol.fs), {name})
    ensures vol.faults >= old(vol.faults)
  {
    t, f := [], 0;
    assert Resolve(vol.fs, name).Some? ==> name in vol.fs.root;
    ghost var s0 := vol.fs;
    var st := vol.Open(name);
    ok := st.Ok?;
    if ok {
      f := st.value;
      if created {
        RanAppend(op, s0, [], s0, Create(name));
        CreateStep(op, s0, name);
        t := [] + [Create(name)];
      }
    }
  }

  lemma SettleCreated(s: Fs, n: Name, data: Bytes, group: Option<int>)
    requires Resolve(s, n).None?
    requires Resolve(Apply(s, Create(n)), n) == Some(s.next)
    ensures var s1 := Apply(s, Create(n));
      Settle(s, n, data, group) == SetInode(s1, s.next, Inode(data, NewGid(s1, s.next, true, group)))
  {
  }

  lemma RewroteOneFile(op: Op, s: Fs, n: Name, data: Bytes, created: bool, t: seq<Call>, s1: Fs, i: Ino,
      u: seq<Call>, s2: Fs, done: bool)
    requires created <==> Resolve(s, n).None? && !IsDir(s, n)
    requires Ran(op, s, t, s1) && Opened(s, n, created, t, s1, i)
    requires Rewriting(op, s1, n, i, data, u, s2) && (done ==> ProgressOf(u, n, i, data).Cut?)
    ensures Ran(op, s, t + u, s2) && WritesOneFile(s, n, data, t + u, done)
  {
    RanConcat(op, s, t, s1, u, s2);
    if created {
      assert (t + u)[1..] == u;
    } else {
      assert t + u == u;
    }
  }

  /** The open, the write and the close of `writeFileInPlace`, for a file that has to be changed. */
  method OpenAndWrite(vol: Volume, name: Name, data: Bytes, created: bool, group: Option<int>, ghost op: Op)
    returns (ok: bool, ghost t: seq<Call>)
    requires Inv(vol.fs) && vol.fs.present
    requires ValidOp(op) && name in op.files && op.files[name] == data && op.group == group
    requires created <==> Resolve(vol.fs, name).None? && !IsDir(vol.fs, name)
    modifies vol
    ensures Ran(op, old(vol.fs), t, vol.fs) && vol.log == old(vol.log) + t
    ensures WritesOneFile(old(vol.fs), name, data, t, ok)
    ensures !created && ok ==>
      && Resolve(old(vol.fs), name).Some?
      && var i := Resolve(old(vol.fs), name).value;
         HasCut(op, old(vol.fs), name, i, data, t, vol.fs, Gid(old(vol.fs), i))
    ensures created && ok ==> vol.fs == Settle(old(vol.fs), name, data, group)
    ensures ok ==> !IsDir(old(vol.fs), name) && vol.faults == old(vol.faults)
    ensures !ok ==> vol.faults > old(vol.faults) || IsDir(old(vol.fs), name) || Broken(old(vol.fs), {name})
    ensures vol.faults >= old(vol.faults)
  {
    ghost var s0 := vol.fs;
    var f;
    ok, f, t := OpenFile(vol, name, created, op);
    if !ok {
      return;
    }
    ghost var s1 := vol.fs;
    ghost var u: seq<Call>;
    ok, u := WriteContentsInPlace(vol, name, f, data, created, group, op);
    RewroteOneFile(op, s0, name, data, created, t, s1, f, u, vol.fs, ok);
    ConcatAssociative(old(vol.log), t, u);
    if created {
      SettleCreated(s0, name, data, group);
    } else {
      assert t + u == u;
    }
    t := t + u;
    if ok {
      var fault := vol.Faults(); // close
      ok := !fault;
    }
  }

  /** `writeFileInPlace` for a flat name. */
  method WriteFileInPlace(vol: Volume, name: Name, data: Bytes, group: Option<int>, ghost op: Op)
    returns (ok: bool, ghost t: seq<Call>)
    requires Inv(vol.fs) && vol.fs.present
    requires ValidOp(op) && name in op.files && op.files[name] == data && op.group == group
    modifies vol
    ensures Ran(op, old(vol.fs), t, vol.fs) && vol.log == old(vol.log) + t
    ensures WritesOneFile(old(vol.fs), name, data, t, ok)
    ensures ok ==> !IsDir(old(vol.fs), name) && vol.fs == Settle(old(vol.fs), name, data, group)
    ensures vol.faults >= old(vol.faults)
    ensures !ok ==> vol.faults > old(vol.faults) || IsDir(old(vol.fs), name) || Broken(old(vol.fs), {name})
    ensures Written(old(vol.fs), name, data, group) && vol.faults == old(vol.faults) ==> t == []
  {
    ghost var s0 := vol.fs;
    t := [];
    assert Resolve(s0, name).Some? ==> name in s0.root;
    var fault := vol.Faults(); // mkdir of the parent, which is the data directory
    if fault {
      return false, [];
    }
    var st := vol.Stat(name);
    if st.Fault? {
      return false, [];
    }
    var created := st.NotExist?;
    if !created {
      var existing := vol.ReadFile(name);
      if existing.Ok? && existing.value == data {
        ok, t := EnsureFileGroup(vol, name, group, op);
        return;
      }
    }
    ok, t := OpenAndWrite(vol, name, data, created, group, op);
    if ok && !created {
      ghost var u: seq<Call>;
      ok, u := RepairGroup(vol, name, data, group, op, s0, t);
      ConcatAssociative(old(vol.log), t, u);
      t := t + u;
    }
  }

  /** The group of an existing file, after its content has been rewritten. */
  method RepairGroup(vol: Volume, name: Name, data: Bytes, group: Option<int>, ghost op: Op, ghost s: Fs,
      ghost t: seq<Call>)
    returns (ok: bool, ghost u: seq<Call>)
    requires name in op.files && op.group == group && Resolve(s, name).Some?
    requires var i := Resolve(s, name).value; HasCut(op, s, name, i, data, t, vol.fs, Gid(s, i))
    modifies vol
    ensures Ran(op, s, t + u, vol.fs) && vol.log == old(vol.log) + u
    ensures WritesOneFile(s, name, data, t + u, ok)
    ensures ok ==> vol.fs == Settle(s, name, data, group) && vol.faults == old(vol.faults)
    ensures !ok ==> vol.faults > old(vol.faults)
  {
    ghost var i := Resolve(s, name).value;
    ghost var node := Inode(data, Gid(s, i));
    SetInodeResolves(s, i, node);
    SetInodeTwice(s, i, node, Inode(data, NewGid(s, i, true, group)));
    ghost var s1 := vol.fs;
    ok, u := EnsureFileGroup(vol, name, group, op);
    RanConcat(op, s, t, s1, u, vol.fs);
    if u != [] {
      assert u == [u[0]];
      ProgressAppend(t, u[0], name, i, data);
    } else {
      assert t + u == t;
    }
  }
}
