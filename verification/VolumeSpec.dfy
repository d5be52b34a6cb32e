/**
 What a completed write of either mode does to a volume, and the laws that hold over runs that mix
 the two: the volume reads exactly as the last payload, and rolling back is always possible.
 */
module VolumeSpec {
  import opened Prelude
  import opened VolumeFs
  import opened InplaceSteps

  // ---- The in-place writer -----------------------------------------------------------------

  function Links(s: Fs): set<Name> {
    set n | n in s.root && s.root[n].Link?
  }

  /** Removes root entries, and with every link the file behind it. */
  function Drop(s: Fs, names: set<Name>): Fs {
    s.(root := s.root - names,
       dirs := if Current(s).Some? then s.dirs[s.data.ts := Current(s).value - names * Links(s)] else s.dirs)
  }

  function Prune(s: Fs, keep: set<Name>): Fs {
    Drop(s, s.root.Keys - keep)
  }

  /** The data directory made and given its group. */
  function Prepare(s: Fs, group: Option<int>): Fs {
    s.(present := true, dirGid := if group.Some? then group.value else s.dirGid)
  }

  /** One file as a completed in-place write leaves it. */
  function Settle(s: Fs, n: Name, data: Bytes, group: Option<int>): Fs {
    var s1 := if Resolve(s, n).None? then Apply(s, Create(n)) else s;
    match Resolve(s1, n)
    case None => s1
    case Some(i) => SetInode(s1, i, Inode(data, if group.Some? then group.value else Gid(s1, i)))
  }

  function WriteAll(s: Fs, names: seq<Name>, files: map<Name, Bytes>, group: Option<int>): Fs
    requires forall n <- names :: n in files
  {
    if names == [] then s
    else
      var n := names[|names| - 1];
      Settle(WriteAll(s, names[..|names| - 1], files, group), n, files[n], group)
  }

  function InplaceWrite(s: Fs, files: map<Name, Bytes>, names: seq<Name>, group: Option<int>): Fs
    requires forall n <- names :: n in files
  {
    WriteAll(Prune(Prepare(s, group), files.Keys), names, files, group)
  }

  function FileGid(s: Fs, n: Name): Option<int> {
    match Resolve(s, n)
    case None => None
    case Some(i) => Some(Gid(s, i))
  }

  /** The file at `n` holds its payload content and, if a group is asked for, has that group. */
  predicate Written(s: Fs, n: Name, data: Bytes, group: Option<int>) {
    Lookup(s, n) == Some(data) && (group.Some? ==> FileGid(s, n) == group)
  }

  predicate AllWritten(s: Fs, names: seq<Name>, files: map<Name, Bytes>, group: Option<int>) {
    forall n <- names :: n in files && Written(s, n, files[n], group)
  }

  /** A payload the in-place writer can write: no name is reserved or taken by a directory. */
  predicate Writable(s: Fs, names: set<Name>) {
    !Broken(s, names) && forall n <- names :: !Reserved(n) && !IsDir(s, n)
  }

  lemma PrepareKeeps(s: Fs, group: Option<int>)
    requires Inv(s)
    ensures var t := Prepare(s, group);
      Inv(t) && View(t) == View(s) && forall n :: Resolve(t, n) == Resolve(s, n)
  {
    SameEntries(s, Prepare(s, group));
  }

  lemma DropKeeps(s: Fs, names: set<Name>)
    requires Inv(s)
    ensures var t := Drop(s, names);
      && Inv(t)
      && t.root.Keys == s.root.Keys - names
      && (forall n :: n !in names ==> Resolve(t, n) == Resolve(s, n))
  {
    var t := Drop(s, names);
    assert forall n <- t.root :: t.root[n] == s.root[n];
    if Current(s).Some? {
      assert Current(t) == Some(Current(s).value - names * Links(s));
      assert forall n <- Current(s).value :: n in Links(s);
    }
    assert forall n :: n !in names ==> Resolve(t, n) == Resolve(s, n);
  }

  /** Every name keeps its inode, and directories stay directories. */
  ghost predicate Retains(s: Fs, t: Fs) {
    && (forall m :: Keeps(s, t, m))
    && (forall m :: IsDir(t, m) == IsDir(s, m) && IsLink(t, m) == IsLink(s, m))
    && t.data == s.data
  }

  lemma RetainsTransitive(s: Fs, t: Fs, u: Fs)
    requires Retains(s, t) && Retains(t, u)
    ensures Retains(s, u)
  {
    forall m
      ensures Keeps(s, u, m)
    {
      assert Keeps(s, t, m) && Keeps(t, u, m);
    }
    forall m
      ensures IsDir(u, m) == IsDir(s, m) && IsLink(u, m) == IsLink(s, m)
    {
      assert IsDir(t, m) == IsDir(s, m) && IsLink(t, m) == IsLink(s, m);
    }
  }

  /** Nothing but what is read at `n`, and the group of its file, differs from `s`. */
  ghost predicate Only(s: Fs, t: Fs, n: Name) {
    && Retains(s, t)
    && (forall m :: m != n ==> Lookup(t, m) == Lookup(s, m) && FileGid(t, m) == FileGid(s, m))
  }

  lemma OnlyTransitive(s: Fs, t: Fs, u: Fs, n: Name)
    requires Only(s, t, n) && Only(t, u, n)
    ensures Only(s, u, n)
  {
    RetainsTransitive(s, t, u);
    forall m | m != n
      ensures Lookup(u, m) == Lookup(s, m) && FileGid(u, m) == FileGid(s, m)
    {
      assert Lookup(t, m) == Lookup(s, m) && FileGid(t, m) == FileGid(s, m);
    }
  }

  lemma FillKeeps(s: Fs, n: Name, i: Ino, node: Inode)
    requires Inv(s) && Resolve(s, n) == Some(i)
    ensures var t := SetInode(s, i, node);
      && Inv(t) && Only(s, t, n)
      && Resolve(t, n) == Some(i) && Content(t, i) == node.content && Gid(t, i) == node.gid
  {
    var t := SetInode(s, i, node);
    assert Current(t) == Current(s);
    assert forall m :: Resolve(t, m) == Resolve(s, m);
    assert n in s.root;
    forall m | m != n && Resolve(s, m).Some?
      ensures Resolve(s, m).value != i && Resolve(s, m).value in s.inodes
    {
      assert m in s.root;
    }
  }

  lemma CreateKeeps(s: Fs, n: Name)
    requires Inv(s) && s.present && Writable(s, {n}) && Resolve(s, n).None?
    ensures var t := Apply(s, Create(n));
      && Inv(t) && t.present && Only(s, t, n) && Resolve(t, n) == Some(s.next)
      && t.root.Keys == s.root.Keys + {n}
  {
    CreateStep(Op(map[n := []], false, None), s, n);
    forall m | m != n && Resolve(s, m).Some?
      ensures Resolve(s, m).value < s.next
    {
      assert m in s.root;
    }
  }

  lemma SettleKeeps(s: Fs, n: Name, data: Bytes, group: Option<int>)
    requires Inv(s) && s.present && Writable(s, {n})
    ensures var t := Settle(s, n, data, group);
      && Inv(t) && t.present && Only(s, t, n)
      && t.root.Keys == s.root.Keys + {n}
      && Written(t, n, data, group)
  {
    if Resolve(s, n).None? {
      CreateKeeps(s, n);
      var s1 := Apply(s, Create(n));
      FillKeeps(s1, n, s.next, Inode(data, if group.Some? then group.value else Gid(s1, s.next)));
      OnlyTransitive(s, s1, Settle(s, n, data, group), n);
    } else {
      var i := Resolve(s, n).value;
      FillKeeps(s, n, i, Inode(data, if group.Some? then group.value else Gid(s, i)));
      assert s.root.Keys == s.root.Keys + {n};
    }
  }

  lemma {:induction false} WriteAllKeeps(s: Fs, names: seq<Name>, files: map<Name, Bytes>, group: Option<int>)
    requires Inv(s) && s.present
    requires forall n <- names :: n in files && Writable(s, {n})
    ensures var t := WriteAll(s, names, files, group);
      && Inv(t) && t.present
      && t.root.Keys == s.root.Keys + (set n <- names)
      && Retains(s, t)
      && AllWritten(t, names, files, group)
  {
    if names != [] {
      var front, n := names[..|names| - 1], names[|names| - 1];
      assert names == front + [n];
      WriteAllKeeps(s, front, files, group);
      var mid := WriteAll(s, front, files, group);
      assert Writable(mid, {n}) by {
        assert Writable(s, {n}) && n in names;
      }
      WriteOneMore(s, mid, front, n, files, group);
      NamesGrow(front, n);
    }
  }

  lemma NamesGrow(front: seq<Name>, n: Name)
    ensures (set m <- front + [n]) == (set m <- front) + {n}
  {
  }

  lemma WriteOneMore(s: Fs, mid: Fs, front: seq<Name>, n: Name, files: map<Name, Bytes>, group: Option<int>)
    requires Inv(mid) && mid.present && Writable(mid, {n}) && n in files
    requires Retains(s, mid) && AllWritten(mid, front, files, group)
    ensures var t := Settle(mid, n, files[n], group);
      && Inv(t) && t.present && t.root.Keys == mid.root.Keys + {n}
      && Retains(s, t) && AllWritten(t, front + [n], files, group)
  {
    SettleKeeps(mid, n, files[n], group);
    RetainsTransitive(s, mid, Settle(mid, n, files[n], group));
    AllWrittenGrows(mid, Settle(mid, n, files[n], group), front, n, files, group);
  }

  lemma AllWrittenGrows(s: Fs, t: Fs, front: seq<Name>, n: Name, files: map<Name, Bytes>, group: Option<int>)
    requires AllWritten(s, front, files, group) && Only(s, t, n)
    requires n in files && Written(t, n, files[n], group)
    ensures AllWritten(t, front + [n], files, group)
  {
    forall m <- front + [n]
      ensures m in files && Written(t, m, files[m], group)
    {
      if m != n {
        assert m in front;
      }
    }
  }

  /**
   After a completed in-place write the volume reads exactly as the payload, the invariant holds,
   and every payload name that resolved before, under whatever content, kept its inode.
   */
  lemma InplaceWriteView(s: Fs, files: map<Name, Bytes>, names: seq<Name>, group: Option<int>)
    requires Inv(s) && Writable(s, files.Keys)
    requires (set n <- names) == files.Keys
    ensures var t := InplaceWrite(s, files, names, group);
      && Inv(t) && View(t) == files && Settled(t, files, group)
      && forall n <- files :: Keeps(s, t, n)
  {
    var s2 := Prune(Prepare(s, group), files.Keys);
    PruneKeeps(s, files, group);
    assert forall n <- names :: n in files.Keys && Writable(s2, {n});
    WriteAllKeeps(s2, names, files, group);
    var t := InplaceWrite(s, files, names, group);
    WriteAllSettles(s2, names, files, group);
    SettledView(t, files, group);
    forall n <- files
      ensures Keeps(s, t, n)
    {
      assert Keeps(s2, t, n);
    }
  }

  lemma WriteAllSettles(s: Fs, names: seq<Name>, files: map<Name, Bytes>, group: Option<int>)
    requires (set n <- names) == files.Keys && s.root.Keys <= files.Keys
    requires group.Some? ==> s.dirGid == group.value
    requires var t := WriteAll(s, names, files, group);
      t.present && t.root.Keys == s.root.Keys + (set n <- names) && AllWritten(t, names, files, group)
    ensures Settled(WriteAll(s, names, files, group), files, group)
  {
    WriteAllDirGid(s, names, files, group);
    assert forall n <- files :: n in names;
  }

  lemma PruneKeeps(s: Fs, files: map<Name, Bytes>, group: Option<int>)
    requires Inv(s) && Writable(s, files.Keys)
    ensures var t := Prune(Prepare(s, group), files.Keys);
      && Inv(t) && t.present && Writable(t, files.Keys)
      && t.root.Keys <= files.Keys
      && t.dirGid == Prepare(s, group).dirGid
      && forall n <- files :: Resolve(t, n) == Resolve(s, n)
  {
    var s1 := Prepare(s, group);
    PrepareKeeps(s, group);
    DropKeeps(s1, s1.root.Keys - files.Keys);
  }

  lemma SettledView(s: Fs, files: map<Name, Bytes>, group: Option<int>)
    requires Settled(s, files, group)
    ensures View(s) == files
  {
    assert forall n <- files :: Written(s, n, files[n], group);
    assert View(s).Keys == files.Keys;
  }

  lemma {:induction false} WriteAllDirGid(s: Fs, names: seq<Name>, files: map<Name, Bytes>, group: Option<int>)
    requires forall n <- names :: n in files
    ensures WriteAll(s, names, files, group).dirGid == s.dirGid
  {
    if names != [] {
      WriteAllDirGid(s, names[..|names| - 1], files, group);
    }
  }

  /** The volume is already what a write of `files` under `group` would make it. */
  predicate Settled(s: Fs, files: map<Name, Bytes>, group: Option<int>) {
    && s.present
    && s.root.Keys == files.Keys
    && (group.Some? ==> s.dirGid == group.value)
    && forall n <- files :: Written(s, n, files[n], group)
  }

  lemma {:induction false} WriteAllIdle(s: Fs, names: seq<Name>, files: map<Name, Bytes>, group: Option<int>)
    requires Inv(s) && Settled(s, files, group)
    requires forall n <- names :: n in files
    ensures WriteAll(s, names, files, group) == s
  {
    if names != [] {
      var n := names[|names| - 1];
      WriteAllIdle(s, names[..|names| - 1], files, group);
      var i := Resolve(s, n).value;
      assert n in s.root && Written(s, n, files[n], group);
      assert s.inodes[i := s.inodes[i]] == s.inodes;
    }
  }

  /** Writing the same payload again changes nothing: content, inodes, groups and entries stay. */
  lemma InplaceWriteIdempotent(s: Fs, files: map<Name, Bytes>, names: seq<Name>, group: Option<int>)
    requires Inv(s) && Writable(s, files.Keys)
    requires (set n <- names) == files.Keys
    ensures var t := InplaceWrite(s, files, names, group);
      InplaceWrite(t, files, names, group) == t
  {
    InplaceWriteView(s, files, names, group);
    var t := InplaceWrite(s, files, names, group);
    PruneSettled(t, files, group);
    WriteAllIdle(t, names, files, group);
  }

  lemma PruneSettled(t: Fs, files: map<Name, Bytes>, group: Option<int>)
    requires Settled(t, files, group)
    ensures Prune(Prepare(t, group), files.Keys) == t
  {
    assert Prepare(t, group) == t;
    assert t.root.Keys - files.Keys == {};
    assert t.root - {} == t.root;
    if Current(t).Some? {
      assert {} * Links(t) == {};
      assert Current(t).value - {} == Current(t).value;
      assert t.dirs[t.data.ts := Current(t).value] == t.dirs;
    }
    assert Drop(t, {}) == t;
  }

  /**
   Failure and retry: from any state an in-place run stops in, a later completed write of any
   payload delivers exactly that payload on the inodes its names still resolve to.
   */
  lemma RetryDelivers(s: Fs, t: seq<Step>, k: nat, files: map<Name, Bytes>, names: seq<Name>, group: Option<int>)
    requires Inv(s) && Whole(s) && LegalRun(s, t) && k <= |t|
    requires forall n <- files :: !Reserved(n) && !IsDir(After(s, t[..k]), n)
    requires (set n <- names) == files.Keys
    ensures var stopped := After(s, t[..k]);
      var done := InplaceWrite(stopped, files, names, group);
      && View(done) == files
      && forall n <- files :: Keeps(stopped, done, n)
  {
    HealthyAtEveryCall(s, t, k);
    InplaceWriteView(After(s, t[..k]), files, names, group);
  }

  // ---- The csi-lib atomic writer, by contract ----------------------------------------------

  /** Names in the current timestamped directory that the new payload no longer has. */
  function Superseded(s: Fs, files: map<Name, Bytes>): set<Name> {
    match Current(s)
    case None => {}
    case Some(d) => d.Keys - files.Keys
  }

  /** A user-visible link is published only where nothing is in the way, or a link already is. */
  function PublishedRoot(s: Fs, files: map<Name, Bytes>): map<Name, Entry> {
    map n | n in s.root.Keys + files.Keys && n !in Superseded(s, files) ::
      if n in files && (n !in s.root || s.root[n].Link?) then Link else s.root[n]
  }

  predicate AtomicUnchanged(s: Fs, files: map<Name, Bytes>, t: Fs) {
    && t == s
    && Current(s).Some?
    && Current(s).value.Keys == files.Keys
    && forall n <- files :: Content(s, Current(s).value[n]) == files[n]
  }

  predicate AtomicReplaced(s: Fs, files: map<Name, Bytes>, t: Fs) {
    && t.present
    && t.data.Data? && t.data.ts in t.dirs && t.data.ts !in s.dirs
    && Reserved(t.data.ts) && t.data.ts != DATA_LINK
    && (forall ts <- t.dirs :: ts == t.data.ts || ts in s.dirs)
    && t.dirs[t.data.ts].Keys == files.Keys
    && (forall n <- files :: var i := t.dirs[t.data.ts][n];
         s.next <= i && i in t.inodes && t.inodes[i].content == files[n])
    && (forall n <- files, m <- files :: n != m ==> t.dirs[t.data.ts][n] != t.dirs[t.data.ts][m])
    && (forall i <- s.inodes :: i in t.inodes && t.inodes[i] == s.inodes[i])
    && s.next <= t.next && (forall i <- t.inodes :: i < t.next)
    && Superseded(s, files) <= s.root.Keys
    && t.root == PublishedRoot(s, files)
  }

  /**
   A successful write by the csi-lib writer: nothing to do, or a new timestamped directory behind
   `..data`. It cannot succeed when a superseded name has already lost its user-visible link.
   */
  predicate AtomicOutcome(s: Fs, files: map<Name, Bytes>, t: Fs) {
    AtomicUnchanged(s, files, t) || AtomicReplaced(s, files, t)
  }

  /** The root without the files and directories the in-place writer left there. */
  function Clear(s: Fs): Fs {
    s.(root := map n | n in s.root && (s.root[n].Link? || Reserved(n)) :: s.root[n])
  }

  lemma ClearKeeps(s: Fs)
    requires WellFormed(s)
    ensures var t := Clear(s);
      && WellFormed(t) && (Healthy(s) ==> Healthy(t))
      && t.root.Keys == Links(s)
      && Superseded(t, map[]) == Superseded(s, map[])
  {
    var t := Clear(s);
    assert Current(t) == Current(s);
    assert forall n <- t.root :: Resolve(t, n) == Resolve(s, n);
  }

  /**
   A successful atomic-dir write after clearing makes the volume read exactly as its payload, from
   every well-formed volume, a torn layout included, and leaves the layout healthy.
   */
  lemma AtomicDirView(s: Fs, files: map<Name, Bytes>, t: Fs)
    requires WellFormed(s) && AtomicOutcome(Clear(s), files, t)
    requires forall n <- files :: !Reserved(n)
    ensures Inv(t) && View(t) == files
  {
    var c := Clear(s);
    ClearKeeps(s);
    if AtomicUnchanged(c, files, t) {
      assert forall n <- files :: IsLink(c, n);
      LinksView(t, files);
    } else {
      ReplacedLinks(c, files, t);
      ReplacedInv(c, files, t);
      LinksView(t, files);
    }
  }

  /** All root entries are links and the directory behind them holds `files`: that is what is read. */
  lemma LinksView(t: Fs, files: map<Name, Bytes>)
    requires forall n <- t.root :: t.root[n].Link?
    requires Current(t).Some? && Current(t).value.Keys == files.Keys && files.Keys <= t.root.Keys
    requires forall n <- files :: Content(t, Current(t).value[n]) == files[n]
    ensures View(t) == files
  {
    assert View(t).Keys == files.Keys;
  }

  lemma ReplacedLinks(c: Fs, files: map<Name, Bytes>, t: Fs)
    requires WellFormed(c) && AtomicReplaced(c, files, t)
    requires forall n <- c.root :: c.root[n].Link?
    ensures forall n <- t.root :: t.root[n].Link?
    ensures Current(t).Some? && Current(t).value.Keys == files.Keys && files.Keys <= t.root.Keys
    ensures forall n <- files :: Content(t, Current(t).value[n]) == files[n]
  {
    assert Superseded(c, files) !! files.Keys;
  }

  lemma ReplacedInv(c: Fs, files: map<Name, Bytes>, t: Fs)
    requires WellFormed(c) && AtomicReplaced(c, files, t)
    requires forall n <- t.root :: t.root[n].Link?
    requires forall n <- files :: !Reserved(n) && n in t.root
    ensures Inv(t)
  {
    var d := t.dirs[t.data.ts];
    assert forall n <- t.root :: Resolve(t, n) == if n in d then Some(d[n]) else None;
    OwnInodes(t, d);
    ReplacedNames(c, files, t);
  }

  lemma OwnInodes(t: Fs, d: map<Name, Ino>)
    requires forall n <- t.root :: Resolve(t, n) == if n in d then Some(d[n]) else None
    requires (forall n <- d :: d[n] in t.inodes) && forall n <- d, m <- d :: n != m ==> d[n] != d[m]
    ensures OneEntryPerInode(t)
  {
  }

  lemma ReplacedNames(c: Fs, files: map<Name, Bytes>, t: Fs)
    requires WellFormed(c) && AtomicReplaced(c, files, t)
    requires forall n <- files :: !Reserved(n)
    ensures NamesApart(t)
  {
  }

  /**
   Without clearing, a name the in-place writer left as a regular file goes on reading its old
   content although the atomic writer reports success.
   */
  lemma UnclearedFileStaysStale(s: Fs, files: map<Name, Bytes>, t: Fs, n: Name)
    requires WellFormed(s) && AtomicOutcome(s, files, t)
    requires n in files && n in s.root && s.root[n].File?
    ensures Lookup(t, n) == Lookup(s, n)
  {
    if AtomicReplaced(s, files, t) {
      assert n in s.root && Resolve(s, n).Some?;
    }
  }

  // ---- Rolling back is possible ------------------------------------------------------------

  lemma {:induction false} LongerThanAll(names: set<Name>) returns (k: nat)
    ensures forall n <- names :: |n| < k
  {
    k := 0;
    if names != {} {
      var n :| n in names;
      var k' := LongerThanAll(names - {n});
      k := if |n| < k' then k' else |n| + 1;
    }
  }

  /** A file of its own for every payload name. */
  lemma {:induction false} Allocate(files: map<Name, Bytes>, next: Ino)
    returns (d: map<Name, Ino>, nodes: map<Ino, Inode>, top: Ino)
    ensures d.Keys == files.Keys && next <= top
    ensures forall n <- files :: next <= d[n] < top && d[n] in nodes && nodes[d[n]].content == files[n]
    ensures forall n <- files, m <- files :: n != m ==> d[n] != d[m]
    ensures forall i <- nodes :: next <= i < top
    decreases |files|
  {
    d, nodes, top := map[], map[], next;
    if files != map[] {
      var n :| n in files;
      var rest := files - {n};
      assert |rest.Keys| < |files.Keys| by { assert rest.Keys == files.Keys - {n}; }
      d, nodes, top := Allocate(rest, next);
      d, nodes, top := d[n := top], nodes[top := Inode(files[n], DRIVER_GID)], top + 1;
    }
  }

  /**
   The atomic writer can succeed on a payload exactly when every superseded name still has its
   user-visible entry.
   */
  lemma AtomicWritePossible(s: Fs, files: map<Name, Bytes>)
    requires forall i <- s.inodes :: i < s.next
    ensures (exists t :: AtomicOutcome(s, files, t)) <==> Superseded(s, files) <= s.root.Keys
  {
    if Superseded(s, files) <= s.root.Keys {
      var len := LongerThanAll(s.dirs.Keys);
      var ts: Name := seq(len + 3, i => '.');
      var d, nodes, top := Allocate(files, s.next);
      var t := Fs(true, s.dirGid, PublishedRoot(s, files), Data(ts), map[ts := d], s.inodes + nodes, top);
      assert ts[2] != DATA_LINK[2];
      assert AtomicReplaced(s, files, t);
      assert AtomicOutcome(s, files, t);
    }
  }

  /** The first atomic-dir write after a rollback can succeed, wherever in-place writing stopped. */
  lemma RollbackPossible(s: Fs, t: seq<Step>, k: nat, files: map<Name, Bytes>)
    requires Inv(s) && LegalRun(s, t) && k <= |t|
    ensures exists u :: AtomicOutcome(Clear(After(s, t[..k])), files, u)
  {
    HealthyAtEveryCall(s, t, k);
    var c := Clear(After(s, t[..k]));
    ClearKeeps(After(s, t[..k]));
    AtomicWritePossible(c, files);
  }

  /**
   Removing the link before the file behind it would lose that: stopped in between, no payload
   without the name could be written by the atomic writer any more.
   */
  lemma LinkFirstBreaksRollback(s: Fs, n: Name, files: map<Name, Bytes>, u: Fs)
    requires WellFormed(s) && IsLink(s, n) && Resolve(s, n).Some? && n !in files
    ensures !AtomicOutcome(Clear(Apply(s, RemoveEntry(n))), files, u)
  {
    var c := Clear(Apply(s, RemoveEntry(n)));
    assert Current(c) == Current(s) by { assert s.dirs - {n} == s.dirs; }
    assert n in Superseded(c, files) && n !in c.root;
  }

  // ---- Runs that mix the modes ---------------------------------------------------------------

  datatype Write =
    | InPlace(files: map<Name, Bytes>, names: seq<Name>, group: Option<int>)
    | InPlaceOne(name: Name, data: Bytes, group: Option<int>)
    | AtomicDir(files: map<Name, Bytes>)

  /** `t` is what a successful write makes of `s`. */
  predicate Performs(s: Fs, w: Write, t: Fs) {
    match w
    case InPlace(files, names, group) =>
      && (forall n <- files :: !Reserved(n))
      && if Broken(s, files.Keys) then AtomicOutcome(Clear(Prepare(s, group)), files, t)
         else Writable(s, files.Keys) && (set n <- names) == files.Keys && t == InplaceWrite(s, files, names, group)
    case InPlaceOne(n, data, group) => Writable(s, {n}) && t == Settle(Prepare(s, group), n, data, group)
    case AtomicDir(files) => (forall n <- files :: !Reserved(n)) && AtomicOutcome(Clear(s), files, t)
  }

  function Delivered(v: map<Name, Bytes>, w: Write): map<Name, Bytes> {
    match w
    case InPlace(files, _, _) => files
    case InPlaceOne(n, data, _) => v[n := data]
    case AtomicDir(files) => files
  }

  predicate MixedRun(states: seq<Fs>, writes: seq<Write>) {
    && |states| == |writes| + 1
    && forall k | 0 <= k < |writes| :: Performs(states[k], writes[k], states[k + 1])
  }

  lemma PreparedWellFormed(s: Fs, group: Option<int>)
    requires WellFormed(s)
    ensures WellFormed(Prepare(s, group))
  {
    SameResolves(s, Prepare(s, group));
  }

  lemma WriteDelivers(s: Fs, w: Write, t: Fs)
    requires WellFormed(s) && Performs(s, w, t)
    ensures Inv(t) && View(t) == Delivered(View(s), w)
  {
    match w
    case InPlace(files, names, group) =>
      if Broken(s, files.Keys) {
        PreparedWellFormed(s, group);
        AtomicDirView(Prepare(s, group), files, t);
      } else {
        InplaceWriteView(s, files, names, group);
      }
    case AtomicDir(files) => AtomicDirView(s, files, t);
    case InPlaceOne(n, data, group) =>
      var s1 := Prepare(s, group);
      PrepareKeeps(s, group);
      SettleKeeps(s1, n, data, group);
      forall m
        ensures m in View(t) <==> m in Delivered(View(s), w)
        ensures m in View(t) ==> View(t)[m] == Delivered(View(s), w)[m]
      {
        assert m != n ==> Lookup(t, m) == Lookup(s1, m);
      }
      assert View(t) == Delivered(View(s), w);
  }

  /**
   Mode switching: over every run of successful writes of either mode, from any well-formed volume, a
   fresh or a torn one included, the volume reads after each write exactly as that write promises.
   */
  lemma {:induction false} ModeSwitching(states: seq<Fs>, writes: seq<Write>, k: nat)
    requires MixedRun(states, writes) && WellFormed(states[0]) && k <= |writes|
    ensures WellFormed(states[k])
    ensures k > 0 ==> View(states[k]) == Delivered(View(states[k - 1]), writes[k - 1])
  {
    if k > 0 {
      ModeSwitching(states, writes, k - 1);
      assert Performs(states[k - 1], writes[k - 1], states[k - 1 + 1]);
      WriteDelivers(states[k - 1], writes[k - 1], states[k]);
    }
  }
}
