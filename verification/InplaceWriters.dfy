/**
 `WriteFiles` and `WriteFile` of the in-place writer, and the atomic-dir wrapper around the csi-lib
 writer. Payload names are flat, as every name this driver produces is.
 */
module InplaceWriters {
  import opened Prelude
  import opened VolumeFs
  import opened InplaceSteps
  import opened VolumeSpec
  import opened WriteOrder
  import opened InplaceStorage
  import PayloadNames

  datatype WriteError = InvalidName | InvalidGroup | BrokenLayout | Io

  /** The group a volume asks for, as read from its metadata. */
  datatype FsGroup = Valid(group: Option<int>) | Malformed

  predicate Flat(names: set<Name>) {
    forall n <- names :: '/' !in n
  }

  predicate AllAccepted(names: set<Name>) {
    forall n <- names :: PayloadNames.Accepted(n)
  }

  /** The root entries a payload occupies. */
  function WantedRoots(names: set<Name>): set<Name> {
    set n | n in names :: PayloadNames.PayloadRootName(n)
  }

  /** Each name is its own root entry, and none of the writer's. */
  predicate OwnRoots(names: set<Name>) {
    (forall n <- names :: !Reserved(n)) && WantedRoots(names) == names
  }

  lemma FlatAccepted(names: set<Name>)
    requires Flat(names) && AllAccepted(names)
    ensures OwnRoots(names)
  {
    forall n <- names
      ensures !Reserved(n) && PayloadNames.PayloadRootName(n) == n
    {
      PayloadNames.FlatName(n);
    }
    assert forall n <- names :: PayloadNames.PayloadRootName(n) in WantedRoots(names);
  }

  /** `validatePayloadNames`. */
  method ValidatePayloadNames(names: set<Name>) returns (ok: bool)
    ensures ok <==> AllAccepted(names)
  {
    var left := names;
    while left != {}
      invariant left <= names && AllAccepted(names - left)
      decreases left
    {
      var name :| name in left;
      if PayloadNames.ValidatePayloadName(name).Some? {
        return false;
      }
      left := left - {name};
    }
    return true;
  }

  // ---- Pruning -----------------------------------------------------------------------------------

  /** With the names in `gone` dropped, and the file behind `n` if `n` is a link. */
  function BehindGone(s: Fs, gone: set<Name>, n: Name): Fs {
    if IsLink(s, n) then Apply(Drop(s, gone), RemoveBehind(n)) else Drop(s, gone)
  }

  lemma DropCurrent(s: Fs, gone: set<Name>, n: Name)
    requires Coherent(s) && n in s.root
    ensures BehindGone(s, gone, n).dirs == Drop(s, gone + {n}).dirs
    ensures var c := Current(BehindGone(s, gone, n)); c.Some? ==> n !in c.value
  {
    if Current(s).Some? {
      var d := Current(s).value;
      var l := Links(s);
      assert Current(Drop(s, gone)) == Some(d - gone * l);
      if IsLink(s, n) {
        assert (gone + {n}) * l == gone * l + {n};
        assert d - gone * l - {n} == d - (gone * l + {n});
        assert s.dirs[s.data.ts := d - gone * l][s.data.ts := d - gone * l - {n}] ==
          s.dirs[s.data.ts := d - (gone * l + {n})];
      } else {
        assert (gone + {n}) * l == gone * l;
        assert n !in d;
      }
    }
  }

  /** Removing one more root entry, the file behind a link first. */
  lemma DropStep(op: Op, s: Fs, gone: set<Name>, n: Name)
    requires Inv(s) && op.whole && n !in op.files && n in s.root && n !in gone
    ensures IsLink(s, n) ==> Permitted(op, Drop(s, gone), RemoveBehind(n))
    ensures Permitted(op, BehindGone(s, gone, n), RemoveEntry(n))
    ensures Apply(BehindGone(s, gone, n), RemoveEntry(n)) == Drop(s, gone + {n})
  {
    var s2 := BehindGone(s, gone, n);
    DropCurrent(s, gone, n);
    assert s2.root == Drop(s, gone).root;
    assert n in s2.root;
    assert s2.root - {n} == s.root - (gone + {n});
    assert n !in s.dirs;
    assert s2.dirs.Keys == s.dirs.Keys;
    assert s2.dirs - {n} == s2.dirs;
  }

  /** How one entry goes: the file behind a link, then the entry. */
  function Removal(entry: DirEntry): seq<Call> {
    (if entry.symlink then [RemoveBehind(entry.name)] else []) + [RemoveEntry(entry.name)]
  }

  /** One obsolete entry. */
  method RemoveObsolete(vol: Volume, entry: DirEntry, ghost op: Op, ghost s: Fs, ghost gone: set<Name>,
      ghost t: seq<Call>)
    returns (ok: bool, ghost u: seq<Call>)
    requires Inv(s) && op.whole && entry.name !in op.files && entry.name in s.root && entry.name !in gone
    requires entry.symlink == IsLink(s, entry.name)
    requires Ran(op, s, t, vol.fs) && vol.fs == Drop(s, gone)
    modifies vol
    ensures Ran(op, s, t + u, vol.fs) && vol.log == old(vol.log) + u
    ensures u <= Removal(entry) && (ok ==> u == Removal(entry))
    ensures ok ==> vol.fs == Drop(s, gone + {entry.name}) && vol.faults == old(vol.faults)
    ensures !ok ==> vol.faults > old(vol.faults)
  {
    DropStep(op, s, gone, entry.name);
    u := [];
    assert t + [] == t;
    if entry.symlink {
      ok, u := Perform(vol, RemoveBehind(entry.name), op, s, t);
      if !ok {
        return;
      }
    }
    ghost var v: seq<Call>;
    ok, v := Perform(vol, RemoveEntry(entry.name), op, s, t + u);
    ConcatAssociative(t, u, v);
    ConcatAssociative(old(vol.log), u, v);
    u := u + v;
  }

  lemma BothUntargeted(u: seq<Call>, v: seq<Call>)
    requires (forall c <- u :: Target(c).None?) && (forall c <- v :: Target(c).None?)
    ensures forall c <- u + v :: Target(c).None?
  {
  }

  predicate Superfluous(e: DirEntry, wanted: set<Name>) {
    !Reserved(e.name) && e.name !in wanted
  }

  /** The entries a prune removes among the first `k` it lists. */
  function Obsolete(entries: seq<DirEntry>, k: nat, wanted: set<Name>): set<Name>
    requires k <= |entries|
  {
    if k == 0 then {}
    else if Superfluous(entries[k - 1], wanted) then Obsolete(entries, k - 1, wanted) + {entries[k - 1].name}
    else Obsolete(entries, k - 1, wanted)
  }

  /** The calls of a prune for the first `k` entries. */
  function Removals(entries: seq<DirEntry>, k: nat, wanted: set<Name>): seq<Call>
    requires k <= |entries|
  {
    if k == 0 then []
    else
      Removals(entries, k - 1, wanted)
      + (if Superfluous(entries[k - 1], wanted) then Removal(entries[k - 1]) else [])
  }

  lemma {:induction false} RemovalsGrow(entries: seq<DirEntry>, j: nat, k: nat, wanted: set<Name>)
    requires j <= k <= |entries|
    ensures Removals(entries, j, wanted) <= Removals(entries, k, wanted)
  {
    if j < k {
      RemovalsGrow(entries, j, k - 1, wanted);
    }
  }

  lemma {:induction false} ObsoleteMembers(entries: seq<DirEntry>, k: nat, wanted: set<Name>, n: Name)
    requires k <= |entries|
    ensures n in Obsolete(entries, k, wanted) <==>
      exists j | 0 <= j < k :: entries[j].name == n && Superfluous(entries[j], wanted)
  {
    if k > 0 {
      ObsoleteMembers(entries, k - 1, wanted, n);
    }
  }

  lemma ObsoleteAll(s: Fs, entries: seq<DirEntry>, wanted: set<Name>)
    requires Lists(s, entries) && NamesApart(s)
    ensures Obsolete(entries, |entries|, wanted) == s.root.Keys - wanted
  {
    forall n
      ensures n in Obsolete(entries, |entries|, wanted) <==> n in s.root.Keys - wanted
    {
      ObsoleteMembers(entries, |entries|, wanted, n);
      if n in s.root.Keys - wanted {
        assert EntryOf(s, n) in entries;
        var j :| 0 <= j < |entries| && entries[j] == EntryOf(s, n);
        assert entries[j].name == n;
      }
      if j :| 0 <= j < |entries| && entries[j].name == n && Superfluous(entries[j], wanted) {
        ListedEntry(s, entries, j);
      }
    }
  }

  lemma ListedEntry(s: Fs, entries: seq<DirEntry>, k: nat)
    requires Lists(s, entries) && k < |entries| && !Reserved(entries[k].name) && NamesApart(s)
    ensures entries[k].name in s.root && entries[k].symlink == IsLink(s, entries[k].name)
  {
    assert entries[k] in entries;
    assert Reserved(DATA_LINK);
  }

  /** The first `k` listed entries have been dealt with, and nothing else happened to `s`. */
  ghost predicate PrunedSoFar(op: Op, s: Fs, entries: seq<DirEntry>, k: nat, t: seq<Call>, s': Fs) {
    && k <= |entries|
    && Ran(op, s, t, s')
    && t == Removals(entries, k, op.files.Keys)
    && s' == Drop(s, Obsolete(entries, k, op.files.Keys))
    && (Obsolete(entries, k, op.files.Keys) == {} ==> t == [])
  }

  /** One listed entry: the writer's own and the payload's stay. */
  method PruneEntry(vol: Volume, entries: seq<DirEntry>, k: nat, wanted: set<Name>, ghost op: Op, ghost s: Fs,
      ghost t: seq<Call>)
    returns (ok: bool, ghost u: seq<Call>)
    requires Inv(s) && op.whole && op.files.Keys == wanted && Lists(s, entries) && k < |entries|
    requires PrunedSoFar(op, s, entries, k, t, vol.fs)
    modifies vol
    ensures ok ==> PrunedSoFar(op, s, entries, k + 1, t + u, vol.fs) && vol.faults == old(vol.faults)
    ensures !ok ==> Ran(op, s, t + u, vol.fs) && vol.faults > old(vol.faults)
    ensures t + u <= Removals(entries, k + 1, wanted)
    ensures vol.log == old(vol.log) + u
  {
    if Reserved(entries[k].name) || entries[k].name in wanted {
      assert t + [] == t;
      return true, [];
    }
    ListedEntry(s, entries, k);
    ObsoleteMembers(entries, k, wanted, entries[k].name);
    ghost var gone := Obsolete(entries, k, wanted);
    assert Obsolete(entries, k + 1, wanted) == gone + {entries[k].name};
    ok, u := RemoveObsolete(vol, entries[k], op, s, gone, t);
    assert entries[k].name in Obsolete(entries, k + 1, wanted);
  }

  /** `removeUnlistedFiles`. */
  method RemoveUnlistedFiles(vol: Volume, files: map<Name, Bytes>, ghost op: Op)
    returns (ok: bool, ghost t: seq<Call>, ghost entries: seq<DirEntry>)
    requires Inv(vol.fs) && vol.fs.present
    requires OwnRoots(files.Keys)
    requires op.whole && op.files == files
    modifies vol
    ensures Ran(op, old(vol.fs), t, vol.fs) && vol.log == old(vol.log) + t
    ensures forall c <- t :: Target(c).None?
    ensures Lists(old(vol.fs), entries) || (!ok && t == [])
    ensures t <= Removals(entries, |entries|, files.Keys) && (ok ==> t == Removals(entries, |entries|, files.Keys))
    ensures ok ==> vol.fs == Prune(old(vol.fs), files.Keys) && vol.faults == old(vol.faults)
    ensures ok && old(vol.fs).root.Keys <= files.Keys ==> t == []
    ensures !ok ==> vol.faults > old(vol.faults)
  {
    t, entries := [], [];
    var listing := vol.ReadDir();
    if !listing.Ok? {
      return false, [], [];
    }
    entries := listing.value;
    ok, t := PruneListed(vol, listing.value, WantedRoots(files.Keys), op);
  }

  lemma NothingPruned(op: Op, s: Fs, entries: seq<DirEntry>)
    ensures PrunedSoFar(op, s, entries, 0, [], s)
  {
    DropNothing(s);
  }

  /** The loop over the listing. */
  method PruneListed(vol: Volume, entries: seq<DirEntry>, wanted: set<Name>, ghost op: Op)
    returns (ok: bool, ghost t: seq<Call>)
    requires Inv(vol.fs) && op.whole && op.files.Keys == wanted && Lists(vol.fs, entries)
    modifies vol
    ensures Ran(op, old(vol.fs), t, vol.fs) && vol.log == old(vol.log) + t
    ensures forall c <- t :: Target(c).None?
    ensures t <= Removals(entries, |entries|, wanted) && (ok ==> t == Removals(entries, |entries|, wanted))
    ensures ok ==> vol.fs == Prune(old(vol.fs), wanted) && vol.faults == old(vol.faults)
    ensures ok && old(vol.fs).root.Keys <= wanted ==> t == []
    ensures !ok ==> vol.faults > old(vol.faults)
  {
    ghost var s := vol.fs;
    t := [];
    NothingPruned(op, s, entries);
    var k := 0;
    while k < |entries|
      invariant PrunedSoFar(op, s, entries, k, t, vol.fs)
      invariant vol.log == old(vol.log) + t && vol.faults == old(vol.faults)
    {
      ghost var u: seq<Call>;
      ok, u := PruneEntry(vol, entries, k, wanted, op, s, t);
      ConcatAssociative(old(vol.log), t, u);
      t := t + u;
      if !ok {
        PruneStopped(entries, k + 1, wanted, t);
        return;
      }
      k := k + 1;
    }
    PruneStopped(entries, k, wanted, t);
    PruneDone(op, s, entries, wanted, t, vol.fs);
    ok := true;
  }

  lemma PruneStopped(entries: seq<DirEntry>, k: nat, wanted: set<Name>, t: seq<Call>)
    requires k <= |entries| && t <= Removals(entries, k, wanted)
    ensures t <= Removals(entries, |entries|, wanted)
    ensures forall c <- t :: Target(c).None?
  {
    RemovalsGrow(entries, k, |entries|, wanted);
    RemovalsUntargeted(entries, k, wanted);
    assert forall c <- t :: c in Removals(entries, k, wanted);
  }

  lemma {:induction false} RemovalsUntargeted(entries: seq<DirEntry>, k: nat, wanted: set<Name>)
    requires k <= |entries|
    ensures forall c <- Removals(entries, k, wanted) :: Target(c).None?
  {
    if k > 0 {
      RemovalsUntargeted(entries, k - 1, wanted);
    }
  }

  lemma PruneDone(op: Op, s: Fs, entries: seq<DirEntry>, wanted: set<Name>, t: seq<Call>, s': Fs)
    requires NamesApart(s) && Lists(s, entries) && op.files.Keys == wanted
    requires PrunedSoFar(op, s, entries, |entries|, t, s')
    ensures s' == Prune(s, wanted) && t == Removals(entries, |entries|, wanted)
    ensures s.root.Keys <= wanted ==> t == []
  {
    ObsoleteAll(s, entries, wanted);
  }

  lemma DropNothing(s: Fs)
    ensures Drop(s, {}) == s
  {
    assert s.root - {} == s.root;
    if Current(s).Some? {
      assert {} * Links(s) == {};
      assert Current(s).value - {} == Current(s).value;
      assert s.dirs[s.data.ts := Current(s).value] == s.dirs;
    }
  }

  // ---- Reading the layout --------------------------------------------------------------------------

  /** `brokenAtomicLayout`. */
  method BrokenAtomicLayout(vol: Volume, names: set<Name>) returns (r: Result<bool, WriteError>)
    modifies vol`faults
    ensures r.Success? ==> (r.value <==> Broken(vol.fs, names)) && vol.faults == old(vol.faults)
    ensures r.Failure? ==> r.error == Io && vol.faults > old(vol.faults)
  {
    var st := vol.LstatData();
    if st.Ok? {
      var target := vol.StatData();
      match target {
        case NotExist => return Success(true);
        case Ok(_) => return Success(false);
        case _ => return Failure(Io);
      }
    }
    if !st.NotExist? {
      return Failure(Io);
    }
    var left := names;
    while left != {}
      invariant left <= names && vol.faults == old(vol.faults)
      invariant forall n <- names - left :: !IsLink(vol.fs, n)
      decreases left
    {
      var name :| name in left;
      left := left - {name};
      var info := vol.Lstat(name);
      match info {
        case NotExist =>
        case Ok(entry) =>
          if entry.Link? {
            var target := vol.Stat(name);
            match target {
              case NotExist => return Success(true);
              case Ok(_) => assert false;
              case _ => return Failure(Io);
            }
          }
        case _ => return Failure(Io);
      }
    }
    return Success(false);
  }

  /** `ensureDataDirGroup`. */
  method EnsureDataDirGroup(vol: Volume, group: Option<int>, ghost op: Op)
    returns (ok: bool, ghost t: seq<Call>)
    requires op.group == group && vol.fs.present
    modifies vol
    ensures Ran(op, old(vol.fs), t, vol.fs) && vol.log == old(vol.log) + t
    ensures t == [] || (group.Some? && t == [ChownDir(group.value)])
    ensures ok ==> vol.fs == Prepare(old(vol.fs), group) && vol.faults == old(vol.faults)
    ensures group.None? || old(vol.fs).dirGid == group.value ==> t == []
    ensures !ok ==> vol.faults > old(vol.faults)
  {
    t := [];
    if group.None? {
      return true, [];
    }
    var st := vol.StatDir();
    if !st.Ok? {
      return false, [];
    }
    if st.value == group.value {
      return true, [];
    }
    RanAppend(op, vol.fs, [], vol.fs, ChownDir(group.value));
    ok := vol.Do(ChownDir(group.value));
    t := if ok then [] + [ChownDir(group.value)] else [];
  }

  /** The group of the data directory need not change. */
  predicate GroupSettled(s: Fs, group: FsGroup) {
    group.Malformed? || group.group.None? || group.group.value == s.dirGid
  }

  /** The part `WriteFiles` and `WriteFile` share: the data directory, then its group. */
  method EnsureDataDir(vol: Volume, group: FsGroup, ghost op: Op)
    returns (r: Result<(), WriteError>, ghost t: seq<Call>)
    requires group.Valid? ==> op.group == group.group
    modifies vol
    ensures Ran(op, old(vol.fs), t, vol.fs) && vol.log == old(vol.log) + t
    ensures forall c <- t :: Target(c).None?
    ensures r.Success? ==> group.Valid? && vol.fs == Prepare(old(vol.fs), group.group) && vol.faults == old(vol.faults)
    ensures r.Failure? ==>
      (group.Malformed? && r.error == InvalidGroup) || (r.error == Io && vol.faults > old(vol.faults))
    ensures old(vol.fs).present && GroupSettled(old(vol.fs), group) ==> t == []
  {
    ghost var s0 := vol.fs;
    t := [];
    var made := vol.MkdirAll();
    if !made {
      return Failure(Io), [];
    }
    if !s0.present {
      RanAppend(op, s0, [], s0, MakeDir);
      t := [] + [MakeDir];
    }
    if group.Malformed? {
      return Failure(InvalidGroup), t;
    }
    ghost var s1 := vol.fs;
    ghost var u: seq<Call>;
    var ok;
    ok, u := EnsureDataDirGroup(vol, group.group, op);
    RanConcat(op, s0, t, s1, u, vol.fs);
    t := t + u;
    r := if ok then Success(()) else Failure(Io);
  }

  // ---- The in-place writer -------------------------------------------------------------------------

  /** Calls on the certificate alone, after the others are written. */
  lemma CertLastAppend(op: Op, s: Fs, cert: Name, t: seq<Call>, u: seq<Call>)
    requires Inv(s) && ValidOp(op) && Legal(op, s, t + u) && cert in op.files
    requires forall c <- t :: Target(c) != Some(cert)
    requires forall c <- u :: Target(c) == Some(cert)
    requires OthersWritten(Replay(s, t), op.files, cert)
    ensures CertLast(s, op.files, cert, t + u)
  {
    forall k | 0 <= k < |t + u| && Target((t + u)[k]) == Some(cert)
      ensures k >= |t| && OthersWritten(Replay(s, (t + u)[..k]), op.files, cert)
    {
      assert forall j | 0 <= j < |t| :: (t + u)[j] == t[j] && t[j] in t;
      CertLastAt(op, s, cert, t, u, k);
    }
    assert forall j | |t| <= j < |t + u| :: (t + u)[j] in u;
  }

  lemma CertLastAt(op: Op, s: Fs, cert: Name, t: seq<Call>, u: seq<Call>, k: nat)
    requires Inv(s) && ValidOp(op) && Legal(op, s, t + u) && cert in op.files
    requires forall c <- u :: Target(c) == Some(cert)
    requires OthersWritten(Replay(s, t), op.files, cert)
    requires |t| <= k <= |t + u|
    ensures OthersWritten(Replay(s, (t + u)[..k]), op.files, cert)
  {
    var v := u[..k - |t|];
    assert (t + u)[..k] == t + v;
    assert t + u == (t + v) + u[k - |t|..];
    LegalSplit(op, s, t + v, u[k - |t|..]);
    OthersStayWritten(op, s, t, v, cert);
  }

  /** The first `k` files have been written over the pruned volume `s2`; `t` leads there from `s`. */
  ghost predicate WrittenSoFar(op: Op, s: Fs, s2: Fs, names: seq<Name>, k: nat, t: seq<Call>, s': Fs) {
    && k <= |names| && (forall n <- names :: n in op.files)
    && Ran(op, s, t, s')
    && s' == WriteAll(s2, names[..k], op.files, op.group)
    && forall c <- t :: Target(c).None? || Target(c).value in names[..k]
  }

  lemma NextFile(s2: Fs, names: seq<Name>, k: nat, op: Op)
    requires k < |names| && forall n <- names :: n in op.files
    ensures WriteAll(s2, names[..k + 1], op.files, op.group) ==
      Settle(WriteAll(s2, names[..k], op.files, op.group), names[k], op.files[names[k]], op.group)
    ensures names[k] in names && names[..k + 1] == names[..k] + [names[k]]
  {
    assert names[..k + 1][..k] == names[..k];
  }

  /** The next file of the payload. */
  method WriteNext(vol: Volume, files: map<Name, Bytes>, names: seq<Name>, k: nat, group: Option<int>, ghost op: Op,
      ghost s: Fs, ghost s2: Fs, ghost t: seq<Call>)
    returns (ok: bool, ghost u: seq<Call>)
    requires op.files == files && op.group == group && ValidOp(op)
    requires k < |names| && WrittenSoFar(op, s, s2, names, k, t, vol.fs)
    requires Inv(vol.fs) && vol.fs.present
    modifies vol
    ensures Ran(op, s, t + u, vol.fs) && vol.log == old(vol.log) + u
    ensures forall c <- u :: Target(c) == Some(names[k])
    ensures ok ==> WrittenSoFar(op, s, s2, names, k + 1, t + u, vol.fs) && !IsDir(old(vol.fs), names[k])
    ensures vol.faults >= old(vol.faults)
    ensures !ok ==> vol.faults > old(vol.faults) || IsDir(old(vol.fs), names[k]) || Broken(old(vol.fs), {names[k]})
    ensures vol.faults == old(vol.faults) && Written(old(vol.fs), names[k], files[names[k]], group) ==> u == []
  {
    NextFile(s2, names, k, op);
    ghost var s1 := vol.fs;
    ok, u := WriteFileInPlace(vol, names[k], files[names[k]], group, op);
    RanConcat(op, s, t, s1, u, vol.fs);
  }

  /** What is known of a payload half written: `k` files over `s2`, which was pruned for them. */
  lemma HalfWritten(s2: Fs, names: seq<Name>, k: nat, op: Op, cert: Name)
    requires Inv(s2) && s2.present && ValidOp(op) && !Broken(s2, op.files.Keys)
    requires k <= |names| && IsWriteOrder(names, op.files.Keys, cert)
    requires forall n <- names :: n in op.files
    requires forall j | 0 <= j < k :: !IsDir(s2, names[j])
    ensures var s' := WriteAll(s2, names[..k], op.files, op.group);
      && Inv(s') && s'.present
      && (k < |names| ==> (IsDir(s', names[k]) <==> IsDir(s2, names[k])) && !Broken(s', {names[k]}))
      && (k < |names| && names[k] == cert ==> cert !in names[..k] && OthersWritten(s', op.files, cert))
  {
    var front := names[..k];
    forall n <- front
      ensures n in op.files && Writable(s2, {n})
    {
      assert n in names;
    }
    WriteAllKeeps(s2, front, op.files, op.group);
    WriteOrderElements(names, op.files.Keys, cert);
    var s' := WriteAll(s2, front, op.files, op.group);
    if k < |names| {
      assert names[k] in names;
      assert Retains(s2, s');
      assert IsDir(s', names[k]) == IsDir(s2, names[k]) && IsLink(s', names[k]) == IsLink(s2, names[k]);
      if names[k] == cert {
        forall n <- op.files | n != cert
          ensures Lookup(s', n) == Some(op.files[n])
        {
          assert n in (set m <- names);
          var j :| 0 <= j < |names| && names[j] == n;
          assert n in front;
          assert Written(s', n, op.files[n], op.group);
        }
      }
    }
  }

  /** What `WriteFiles` knows between two files: the calls so far and where they led. */
  ghost predicate Midway(op: Op, s: Fs, s2: Fs, cert: Name, names: seq<Name>, k: nat, t: seq<Call>, s': Fs) {
    && WrittenSoFar(op, s, s2, names, k, t, s')
    && (forall j | 0 <= j < k :: !IsDir(s2, names[j]))
    && (k < |names| ==> forall c <- t :: Target(c) != Some(cert))
    && CertLast(s, op.files, cert, t)
  }

  lemma OneMoreFile(op: Op, s: Fs, s2: Fs, cert: Name, names: seq<Name>, k: nat, t: seq<Call>, u: seq<Call>, s1: Fs)
    requires Inv(s) && ValidOp(op) && IsWriteOrder(names, op.files.Keys, cert)
    requires k < |names| && Midway(op, s, s2, cert, names, k, t, s1)
    requires Legal(op, s, t + u) && forall c <- u :: Target(c) == Some(names[k])
    requires names[k] == cert ==> OthersWritten(s1, op.files, cert)
    ensures CertLast(s, op.files, cert, t + u)
    ensures k + 1 < |names| ==> forall c <- t + u :: Target(c) != Some(cert)
  {
    WriteOrderElements(names, op.files.Keys, cert);
    if names[k] == cert {
      assert names[k] in names;
      CertLastAppend(op, s, cert, t, u);
    } else {
      forall j | 0 <= j < |t + u|
        ensures Target((t + u)[j]) != Some(cert)
      {
        assert (t + u)[j] in t || (t + u)[j] in u;
      }
    }
  }

  /** One round of the loop of `WriteFiles`. */
  method WriteRound(vol: Volume, files: map<Name, Bytes>, cert: Name, names: seq<Name>, k: nat, group: Option<int>,
      ghost op: Op, ghost s: Fs, ghost s2: Fs, ghost t: seq<Call>)
    returns (ok: bool, ghost u: seq<Call>)
    requires op.files == files && op.group == group && ValidOp(op)
    requires Inv(s) && Inv(s2) && s2.present && !Broken(s2, files.Keys)
    requires k < |names| && IsWriteOrder(names, files.Keys, cert)
    requires Midway(op, s, s2, cert, names, k, t, vol.fs)
    modifies vol
    ensures vol.log == old(vol.log) + u && vol.faults >= old(vol.faults)
    ensures ok ==> Midway(op, s, s2, cert, names, k + 1, t + u, vol.fs)
    ensures !ok ==> Ran(op, s, t + u, vol.fs) && CertLast(s, files, cert, t + u)
    ensures !ok ==> vol.faults > old(vol.faults) || IsDir(s2, names[k])
    ensures vol.faults == old(vol.faults) && Written(old(vol.fs), names[k], files[names[k]], group) ==> u == []
  {
    HalfWritten(s2, names, k, op, cert);
    ghost var s1 := vol.fs;
    ok, u := WriteNext(vol, files, names, k, group, op, s, s2, t);
    OneMoreFile(op, s, s2, cert, names, k, t, u, s1);
  }

  lemma MidwayStart(op: Op, s: Fs, s2: Fs, cert: Name, names: seq<Name>, t: seq<Call>)
    requires (forall n <- names :: n in op.files) && Ran(op, s, t, s2)
    requires forall c <- t :: Target(c).None?
    ensures Midway(op, s, s2, cert, names, 0, t, s2)
  {
    UntargetedCertLast(s, op.files, cert, t);
  }

  lemma SettledFile(s: Fs, files: map<Name, Bytes>, group: Option<int>, n: Name)
    requires Settled(s, files, group) && n in files
    ensures Written(s, n, files[n], group)
  {
  }

  /**
   The loop of `WriteFiles`: the payload over a pruned volume, the certificate last. `settled` says
   that the volume already is what it should be.
   */
  method WriteOrdered(vol: Volume, files: map<Name, Bytes>, certFileName: Name, group: Option<int>, ghost op: Op,
      ghost s: Fs, ghost t: seq<Call>, ghost settled: bool)
    returns (ok: bool, ghost u: seq<Call>, ghost order: seq<Name>)
    requires op.files == files && op.group == group && ValidOp(op)
    requires Inv(vol.fs) && vol.fs.present && !Broken(vol.fs, files.Keys)
    requires Inv(s) && Ran(op, s, t, vol.fs) && forall c <- t :: Target(c).None?
    requires settled ==> Settled(vol.fs, files, group)
    modifies vol
    ensures Ran(op, s, t + u, vol.fs) && vol.log == old(vol.log) + u
    ensures CertLast(s, files, certFileName, t + u)
    ensures IsWriteOrder(order, files.Keys, certFileName) && (forall n <- order :: n in files)
    ensures ok ==> vol.fs == WriteAll(old(vol.fs), order, files, group)
    ensures ok ==> forall n <- order :: !IsDir(old(vol.fs), n)
    ensures vol.faults >= old(vol.faults)
    ensures !ok ==> vol.faults > old(vol.faults) || exists n <- order :: IsDir(old(vol.fs), n)
    ensures settled && vol.faults == old(vol.faults) ==> u == []
  {
    var names := OrderedWriteNames(files, certFileName);
    WriteOrderElements(names, files.Keys, certFileName);
    order := names;
    ghost var s2 := vol.fs;
    u := [];
    assert t + [] == t;
    MidwayStart(op, s, s2, certFileName, names, t);
    var k := 0;
    while k < |names|
      invariant k <= |names| && Midway(op, s, s2, certFileName, names, k, t + u, vol.fs)
      invariant vol.log == old(vol.log) + u && vol.faults >= old(vol.faults)
      invariant settled && vol.faults == old(vol.faults) ==> u == [] && vol.fs == s2
    {
      if settled {
        SettledFile(s2, files, group, names[k]);
      }
      ghost var v: seq<Call>;
      ok, v := WriteRound(vol, files, certFileName, names, k, group, op, s, s2, t + u);
      ConcatAssociative(t, u, v);
      ConcatAssociative(old(vol.log), u, v);
      u := u + v;
      if !ok {
        return;
      }
      k := k + 1;
    }
    assert names[..k] == names;
    ok := true;
  }

  // ---- Clearing for the csi-lib writer -------------------------------------------------------------

  predicate Artifact(e: DirEntry) {
    !e.symlink && !Reserved(e.name)
  }

  /** The in-place writer's leftovers among the first `k` listed entries. */
  function Artifacts(entries: seq<DirEntry>, k: nat): set<Name>
    requires k <= |entries|
  {
    if k == 0 then {}
    else if Artifact(entries[k - 1]) then Artifacts(entries, k - 1) + {entries[k - 1].name}
    else Artifacts(entries, k - 1)
  }

  function Without(s: Fs, names: set<Name>): Fs {
    s.(root := s.root - names)
  }

  lemma {:induction false} ArtifactMembers(entries: seq<DirEntry>, k: nat, n: Name)
    requires k <= |entries|
    ensures n in Artifacts(entries, k) <==> exists j | 0 <= j < k :: entries[j].name == n && Artifact(entries[j])
  {
    if k > 0 {
      ArtifactMembers(entries, k - 1, n);
    }
  }

  lemma ArtifactsAreNotLinks(s: Fs, entries: seq<DirEntry>, k: nat)
    requires Lists(s, entries) && NamesApart(s) && k <= |entries|
    ensures forall n <- Artifacts(entries, k) :: n in s.root && !IsLink(s, n)
  {
    forall n <- Artifacts(entries, k)
      ensures n in s.root && !IsLink(s, n)
    {
      ArtifactMembers(entries, k, n);
      var j :| 0 <= j < k && entries[j].name == n && Artifact(entries[j]);
      ListedEntry(s, entries, j);
    }
  }

  lemma WithoutKeeps(s: Fs, names: set<Name>)
    requires WellFormed(s) && forall n <- names :: n in s.root && !IsLink(s, n)
    ensures WellFormed(Without(s, names))
  {
    var t := Without(s, names);
    assert Current(t) == Current(s);
    assert forall n <- t.root :: Resolve(t, n) == Resolve(s, n);
  }

  lemma ArtifactExactly(s: Fs, entries: seq<DirEntry>, n: Name)
    requires Lists(s, entries) && NamesApart(s) && n in s.root
    ensures n in Artifacts(entries, |entries|) <==> !s.root[n].Link?
  {
    ArtifactMembers(entries, |entries|, n);
    assert EntryOf(s, n) in entries;
    var j :| 0 <= j < |entries| && entries[j] == EntryOf(s, n);
    ListedEntry(s, entries, j);
    assert forall i | 0 <= i < |entries| && entries[i].name == n :: i == j;
  }

  lemma AllArtifacts(s: Fs, entries: seq<DirEntry>)
    requires Lists(s, entries) && NamesApart(s)
    ensures Without(s, Artifacts(entries, |entries|)) == Clear(s)
  {
    var gone := Artifacts(entries, |entries|);
    forall n <- s.root
      ensures n in gone <==> !s.root[n].Link?
    {
      ArtifactExactly(s, entries, n);
    }
    assert s.root - gone == Clear(s).root;
  }

  lemma WithoutOneMore(s: Fs, gone: set<Name>, n: Name)
    requires NamesApart(s) && n in s.root
    ensures Apply(Without(s, gone), RemoveEntry(n)) == Without(s, gone + {n})
  {
    assert s.root - gone - {n} == s.root - (gone + {n});
    assert n !in s.dirs && s.dirs - {n} == s.dirs;
    assert Reserved(DATA_LINK);
  }

  /** `clearInplaceArtifacts`. */
  method ClearInplaceArtifacts(vol: Volume) returns (ok: bool)
    requires WellFormed(vol.fs)
    modifies vol
    ensures WellFormed(vol.fs)
    ensures ok ==> vol.fs == Clear(old(vol.fs)) && vol.faults == old(vol.faults)
    ensures !ok ==> vol.faults > old(vol.faults)
  {
    ghost var s0 := vol.fs;
    var listing := vol.ReadDir();
    if listing.NotExist? {
      NothingToClear(s0);
      return true;
    }
    if !listing.Ok? {
      return false;
    }
    ok := ClearListed(vol, listing.value, s0);
  }

  lemma NothingToClear(s: Fs)
    requires s.root == map[]
    ensures Clear(s) == s
  {
    assert Clear(s).root == s.root;
  }

  method ClearListed(vol: Volume, entries: seq<DirEntry>, ghost s: Fs) returns (ok: bool)
    requires WellFormed(s) && Lists(s, entries) && vol.fs == s
    modifies vol
    ensures WellFormed(vol.fs)
    ensures ok ==> vol.fs == Clear(s) && vol.faults == old(vol.faults)
    ensures !ok ==> vol.faults > old(vol.faults)
  {
    assert s.root - {} == s.root;
    var k := 0;
    while k < |entries|
      invariant k <= |entries|
      invariant vol.fs == Without(s, Artifacts(entries, k)) && vol.faults == old(vol.faults)
    {
      ok := ClearEntry(vol, entries, k, s);
      if !ok {
        return;
      }
      k := k + 1;
    }
    ClearKeeps(s);
    AllArtifacts(s, entries);
    ok := true;
  }

  /** One listed entry: links and the writer's own entries stay. */
  method ClearEntry(vol: Volume, entries: seq<DirEntry>, k: nat, ghost s: Fs) returns (ok: bool)
    requires WellFormed(s) && Lists(s, entries) && k < |entries|
    requires vol.fs == Without(s, Artifacts(entries, k))
    modifies vol
    ensures ok ==> vol.fs == Without(s, Artifacts(entries, k + 1)) && vol.faults == old(vol.faults)
    ensures !ok ==> WellFormed(vol.fs) && vol.faults > old(vol.faults)
  {
    if !Artifact(entries[k]) {
      return true;
    }
    ListedEntry(s, entries, k);
    WithoutOneMore(s, Artifacts(entries, k), entries[k].name);
    ok := vol.Do(RemoveEntry(entries[k].name));
    if !ok {
      ArtifactsAreNotLinks(s, entries, k);
      WithoutKeeps(s, Artifacts(entries, k));
    }
  }

  /** The csi-lib store: any success its contract allows, and after a failure anything at all. */
  class InnerStore {
    const vol: Volume

    constructor (vol: Volume)
      ensures this.vol == vol
    {
      this.vol := vol;
    }

    method WriteFiles(files: map<Name, Bytes>) returns (ok: bool)
      modifies vol
      ensures ok ==> AtomicOutcome(old(vol.fs), files, vol.fs) && vol.faults == old(vol.faults)
      ensures !ok ==> vol.faults > old(vol.faults)
    {
      var outcome: Fs := *;
      ok := AtomicOutcome(vol.fs, files, outcome);
      if !ok {
        vol.faults := vol.faults + 1;
      }
      vol.fs := outcome;
    }
  }

  /** The wrapper that makes `atomic-dir` usable on a volume the in-place writer has written. */
  class AtomicDirStorage {
    const inner: InnerStore

    constructor (inner: InnerStore)
      ensures this.inner == inner
    {
      this.inner := inner;
    }

    method WriteFiles(files: map<Name, Bytes>) returns (r: Result<(), WriteError>)
      requires WellFormed(inner.vol.fs) && Flat(files.Keys)
      modifies inner.vol
      ensures r == Failure(InvalidName) <==> !AllAccepted(files.Keys)
      ensures r == Failure(InvalidName) ==> unchanged(inner.vol)
      ensures r.Success? ==> AtomicOutcome(Clear(old(inner.vol.fs)), files, inner.vol.fs)
      ensures r.Success? ==> View(inner.vol.fs) == files && Inv(inner.vol.fs)
      ensures r.Failure? && r.error != InvalidName ==> inner.vol.faults > old(inner.vol.faults)
    {
      var valid := ValidatePayloadNames(files.Keys);
      if !valid {
        return Failure(InvalidName);
      }
      var cleared := ClearInplaceArtifacts(inner.vol);
      if !cleared {
        return Failure(Io);
      }
      var ok := inner.WriteFiles(files);
      if !ok {
        return Failure(Io);
      }
      FlatAccepted(files.Keys);
      AtomicDirView(old(inner.vol.fs), files, inner.vol.fs);
      return Success(());
    }
  }

  /** The in-place writer in front of the csi-lib store. */
  class InplaceWriteStorage {
    const inner: InnerStore
    const certFileName: Name

    constructor (inner: InnerStore, certFileName: Name)
      ensures this.inner == inner && this.certFileName == certFileName
    {
      this.inner := inner;
      this.certFileName := certFileName;
    }

    /** The rebuild of a broken layout. */
    method Rebuild(files: map<Name, Bytes>) returns (ok: bool)
      requires WellFormed(inner.vol.fs)
      modifies inner.vol
      ensures ok ==> AtomicOutcome(Clear(old(inner.vol.fs)), files, inner.vol.fs)
      ensures inner.vol.faults >= old(inner.vol.faults)
      ensures !ok ==> inner.vol.faults > old(inner.vol.faults)
    {
      ok := ClearInplaceArtifacts(inner.vol);
      if ok {
        ok := inner.WriteFiles(files);
      }
    }

    /** Pruning, in the middle of a write. */
    method PruneFirst(files: map<Name, Bytes>, ghost op: Op, ghost s: Fs, ghost t: seq<Call>, ghost settled: bool)
      returns (ok: bool, ghost u: seq<Call>)
      requires op.whole && op.files == files
      requires OwnRoots(files.Keys)
      requires Inv(inner.vol.fs) && inner.vol.fs.present && !Broken(inner.vol.fs, files.Keys)
      requires Ran(op, s, t, inner.vol.fs) && forall c <- t :: Target(c).None?
      requires settled ==> Settled(inner.vol.fs, files, op.group)
      modifies inner.vol
      ensures Ran(op, s, t + u, inner.vol.fs) && inner.vol.log == old(inner.vol.log) + u
      ensures forall c <- t + u :: Target(c).None?
      ensures ok ==> inner.vol.fs == Prune(old(inner.vol.fs), files.Keys) && inner.vol.faults == old(inner.vol.faults)
      ensures ok ==> Inv(inner.vol.fs) && inner.vol.fs.present && !Broken(inner.vol.fs, files.Keys)
      ensures ok ==> NoDirs(inner.vol.fs, files.Keys) == NoDirs(old(inner.vol.fs), files.Keys)
      ensures ok && settled ==> u == [] && Settled(inner.vol.fs, files, op.group)
      ensures !ok ==> inner.vol.faults > old(inner.vol.faults)
    {
      ghost var s1 := inner.vol.fs;
      ghost var entries: seq<DirEntry>;
      ok, u, entries := RemoveUnlistedFiles(inner.vol, files, op);
      RanConcat(op, s, t, s1, u, inner.vol.fs);
      BothUntargeted(t, u);
      if ok {
        PrunedFacts(s1, files);
        if settled {
          PruneNothing(s1, files);
        }
      }
    }

    /** Writing, with the directories in the way seen for the whole payload. */
    method WritePruned(files: map<Name, Bytes>, group: Option<int>, ghost op: Op, ghost s: Fs, ghost t: seq<Call>,
        ghost settled: bool)
      returns (ok: bool, ghost u: seq<Call>, ghost order: seq<Name>)
      requires op == Op(files, true, group) && ValidOp(op)
      requires Inv(s) && Inv(inner.vol.fs) && inner.vol.fs.present && !Broken(inner.vol.fs, files.Keys)
      requires Ran(op, s, t, inner.vol.fs) && forall c <- t :: Target(c).None?
      requires settled ==> Settled(inner.vol.fs, files, group)
      modifies inner.vol
      ensures Ran(op, s, t + u, inner.vol.fs) && inner.vol.log == old(inner.vol.log) + u
      ensures CertLast(s, files, certFileName, t + u)
      ensures IsWriteOrder(order, files.Keys, certFileName) && (forall n <- order :: n in files)
      ensures ok ==> inner.vol.fs == WriteAll(old(inner.vol.fs), order, files, group)
      ensures ok ==> NoDirs(old(inner.vol.fs), files.Keys)
      ensures !ok ==> inner.vol.faults > old(inner.vol.faults) || !NoDirs(old(inner.vol.fs), files.Keys)
      ensures settled && inner.vol.faults == old(inner.vol.faults) ==> u == []
      ensures inner.vol.faults >= old(inner.vol.faults)
    {
      ghost var s2 := inner.vol.fs;
      ok, u, order := WriteOrdered(inner.vol, files, certFileName, group, op, s, t, settled);
      OrderDirs(s2, order, files.Keys, certFileName);
    }

    /** Pruning and writing on a layout that is not broken. */
    method PruneAndWrite(files: map<Name, Bytes>, group: Option<int>, ghost op: Op, ghost s: Fs, ghost t: seq<Call>,
        ghost settled: bool)
      returns (ok: bool, ghost u: seq<Call>, ghost order: seq<Name>)
      requires op == Op(files, true, group)
      requires OwnRoots(files.Keys)
      requires Inv(s) && Inv(inner.vol.fs) && inner.vol.fs.present && !Broken(inner.vol.fs, files.Keys)
      requires Ran(op, s, t, inner.vol.fs) && forall c <- t :: Target(c).None?
      requires settled ==> Settled(inner.vol.fs, files, group)
      modifies inner.vol
      ensures Ran(op, s, t + u, inner.vol.fs) && inner.vol.log == old(inner.vol.log) + u
      ensures CertLast(s, files, certFileName, t + u)
      ensures ok ==> IsWriteOrder(order, files.Keys, certFileName) && (forall n <- order :: n in files)
      ensures ok ==> inner.vol.fs == WriteAll(Prune(old(inner.vol.fs), files.Keys), order, files, group)
      ensures ok ==> NoDirs(old(inner.vol.fs), files.Keys)
      ensures !ok ==> inner.vol.faults > old(inner.vol.faults) || !NoDirs(old(inner.vol.fs), files.Keys)
      ensures settled && inner.vol.faults == old(inner.vol.faults) ==> u == []
      ensures inner.vol.faults >= old(inner.vol.faults)
    {
      order := [];
      ok, u := PruneFirst(files, op, s, t, settled);
      UntargetedCertLast(s, files, certFileName, t + u);
      if ok {
        ghost var v: seq<Call>;
        ok, v, order := WritePruned(files, group, op, s, t + u, settled);
        ConcatAssociative(t, u, v);
        ConcatAssociative(old(inner.vol.log), u, v);
        u := u + v;
      }
    }

    /** The same, seen from the start of `WriteFiles`. */
    method WriteInPlace(files: map<Name, Bytes>, group: Option<int>, ghost op: Op, ghost s: Fs, ghost t: seq<Call>,
        ghost settled: bool)
      returns (ok: bool, ghost u: seq<Call>, ghost order: seq<Name>)
      requires op == Op(files, true, group) && OwnRoots(files.Keys)
      requires WellFormed(s) && !Broken(s, files.Keys) && inner.vol.fs == Prepare(s, group)
      requires Ran(op, s, t, inner.vol.fs) && forall c <- t :: Target(c).None?
      requires settled ==> Settled(inner.vol.fs, files, group)
      modifies inner.vol
      ensures Account(op, s, certFileName, t + u, inner.vol.fs) && inner.vol.log == old(inner.vol.log) + u
      ensures ok ==> Outcome(s, files, group, certFileName, order, inner.vol.fs)
      ensures !ok ==> inner.vol.faults > old(inner.vol.faults) || !NoDirs(s, files.Keys)
      ensures settled && inner.vol.faults == old(inner.vol.faults) ==> u == []
      ensures inner.vol.faults >= old(inner.vol.faults)
    {
      PrepareFacts(s, group, files.Keys);
      ok, u, order := PruneAndWrite(files, group, op, s, t, settled);
      if ok {
        OutcomeReached(s, files, group, certFileName, order);
      }
    }

    /** The layout is whole enough to write through, or it is rebuilt. */
    method WritePrepared(files: map<Name, Bytes>, group: Option<int>, ghost op: Op, ghost s: Fs, ghost t: seq<Call>,
        ghost settled: bool)
      returns (r: Result<(), WriteError>, ghost u: seq<Call>, ghost order: seq<Name>)
      requires op == Op(files, true, group) && OwnRoots(files.Keys)
      requires WellFormed(s) && inner.vol.fs == Prepare(s, group)
      requires Ran(op, s, t, inner.vol.fs) && forall c <- t :: Target(c).None?
      requires settled ==> Settled(inner.vol.fs, files, group)
      modifies inner.vol
      ensures !Broken(s, files.Keys) ==> Account(op, s, certFileName, t + u, inner.vol.fs)
      ensures !Broken(s, files.Keys) ==> inner.vol.log == old(inner.vol.log) + u
      ensures !Broken(s, files.Keys) && settled && inner.vol.faults == old(inner.vol.faults) ==> u == []
      ensures r.Success? ==> Outcome(s, files, group, certFileName, order, inner.vol.fs)
      ensures r.Failure? ==> r.error == Io && (inner.vol.faults > old(inner.vol.faults) || !NoDirs(s, files.Keys))
      ensures inner.vol.faults >= old(inner.vol.faults)
    {
      u, order := [], [];
      BrokenPrepared(s, group, files.Keys);
      var broken := BrokenAtomicLayout(inner.vol, files.Keys);
      if broken.Failure? {
        NothingYet(op, s, files, certFileName, t, inner.vol.fs);
        return Failure(Io), [], [];
      }
      var ok;
      if broken.value {
        ok := Rebuild(files);
      } else {
        ok, u, order := WriteInPlace(files, group, op, s, t, settled);
      }
      r := if ok then Success(()) else Failure(Io);
    }

    /** `WriteFiles`: the payload becomes the whole contents of the volume. */
    method WriteFiles(fsGroup: FsGroup, files: map<Name, Bytes>)
      returns (r: Result<(), WriteError>, ghost t: seq<Call>, ghost order: seq<Name>)
      requires WellFormed(inner.vol.fs) && Flat(files.Keys)
      modifies inner.vol
      ensures r == Failure(InvalidName) <==> !AllAccepted(files.Keys)
      ensures r == Failure(InvalidName) ==> unchanged(inner.vol)
      // Whatever state the volume was in, success means that it reads as the payload.
      ensures r.Success? ==> View(inner.vol.fs) == files && Inv(inner.vol.fs)
      ensures r.Success? ==>
        fsGroup.Valid? && Outcome(old(inner.vol.fs), files, fsGroup.group, certFileName, order, inner.vol.fs)
      // On a layout that is not broken every call, up to a failure too, is permitted and recorded, and
      // those on the certificate come last.
      ensures AllAccepted(files.Keys) && !Broken(old(inner.vol.fs), files.Keys) ==>
        && Ran(Op(files, true, GroupOf(fsGroup)), old(inner.vol.fs), t, inner.vol.fs)
        && CertLast(old(inner.vol.fs), files, certFileName, t)
        && inner.vol.log == old(inner.vol.log) + t
      // It fails only for a reason.
      ensures r == Failure(InvalidGroup) ==> fsGroup.Malformed?
      ensures r == Failure(Io) ==> inner.vol.faults > old(inner.vol.faults) || !NoDirs(old(inner.vol.fs), files.Keys)
      ensures r != Failure(BrokenLayout)
      // Writing what is there already changes nothing and wakes nobody.
      ensures
        (fsGroup.Valid? && Settled(old(inner.vol.fs), files, fsGroup.group)
          && !Broken(old(inner.vol.fs), files.Keys) && inner.vol.faults == old(inner.vol.faults)) ==> t == []
    {
      t, order := [], [];
      var valid := ValidatePayloadNames(files.Keys);
      if !valid {
        return Failure(InvalidName), [], [];
      }
      FlatAccepted(files.Keys);
      ghost var s := inner.vol.fs;
      ghost var op := Op(files, true, GroupOf(fsGroup));
      ghost var settled := Settled(s, files, GroupOf(fsGroup));
      r, t := EnsureDataDir(inner.vol, fsGroup, op);
      UntargetedCertLast(s, files, certFileName, t);
      if r.Failure? {
        return;
      }
      ghost var u: seq<Call>;
      r, u, order := WritePrepared(files, fsGroup.group, op, s, t, settled);
      ConcatAssociative(old(inner.vol.log), t, u);
      t := t + u;
      if r.Success? {
        OutcomePerforms(s, files, fsGroup.group, certFileName, order, inner.vol.fs);
        WriteDelivers(s, InPlace(files, order, fsGroup.group), inner.vol.fs);
      }
    }

    /** `WriteFile`: one name, every other left alone, whether it succeeds or not. */
    method WriteFile(fsGroup: FsGroup, name: Name, data: Bytes)
      returns (r: Result<(), WriteError>, ghost t: seq<Call>)
      requires WellFormed(inner.vol.fs) && Flat({name})
      modifies inner.vol
      ensures r == Failure(InvalidName) <==> !PayloadNames.Accepted(name)
      ensures r == Failure(InvalidName) ==> unchanged(inner.vol)
      ensures r.Success? ==>
        && fsGroup.Valid? && Writable(old(inner.vol.fs), {name})
        && inner.vol.fs == Settle(Prepare(old(inner.vol.fs), fsGroup.group), name, data, fsGroup.group)
        && View(inner.vol.fs) == View(old(inner.vol.fs))[name := data]
      // Every call is permitted and recorded, and none is on another file.
      ensures PayloadNames.Accepted(name) ==>
        && Ran(Op(map[name := data], false, GroupOf(fsGroup)), old(inner.vol.fs), t, inner.vol.fs)
        && inner.vol.log == old(inner.vol.log) + t
        && forall c <- t :: Target(c).None? || Target(c) == Some(name)
      ensures forall m :: m != name ==> Lookup(inner.vol.fs, m) == Lookup(old(inner.vol.fs), m)
      // A broken layout is refused, never handed to the csi-lib writer.
      ensures r == Failure(BrokenLayout) ==> Broken(old(inner.vol.fs), {name})
      ensures Broken(old(inner.vol.fs), {name}) ==> r.Failure? && View(inner.vol.fs) == View(old(inner.vol.fs))
      ensures r == Failure(InvalidGroup) ==> fsGroup.Malformed?
      ensures r == Failure(Io) ==> inner.vol.faults > old(inner.vol.faults) || IsDir(old(inner.vol.fs), name)
    {
      t := [];
      if PayloadNames.ValidatePayloadName(name).Some? {
        return Failure(InvalidName), [];
      }
      ghost var s := inner.vol.fs;
      ghost var op := Op(map[name := data], false, GroupOf(fsGroup));
      PayloadNames.FlatName(name);
      r, t := EnsureDataDir(inner.vol, fsGroup, op);
      UntargetedSame(op, s, t);
      if r.Failure? {
        return;
      }
      BrokenPrepared(s, fsGroup.group, {name});
      var broken := BrokenAtomicLayout(inner.vol, {name});
      if broken.Failure? {
        return Failure(Io), t;
      }
      if broken.value {
        return Failure(BrokenLayout), t;
      }
      ghost var u: seq<Call>;
      ghost var s1 := inner.vol.fs;
      PrepareKeeps(s, fsGroup.group);
      var ok;
      ok, u := WriteFileInPlace(inner.vol, name, data, fsGroup.group, op);
      RanConcat(op, s, t, s1, u, inner.vol.fs);
      ConcatAssociative(old(inner.vol.log), t, u);
      OneFileOnly(op, s, s1, u, inner.vol.fs, name);
      t := t + u;
      if ok {
        WriteDelivers(s, InPlaceOne(name, data, fsGroup.group), inner.vol.fs);
      }
      r := if ok then Success(()) else Failure(Io);
    }
  }

  /** Calls on the data directory alone change nothing that can be read. */
  lemma UntargetedSame(op: Op, s: Fs, t: seq<Call>)
    requires !op.whole && Legal(op, s, t) && forall c <- t :: Target(c).None?
    ensures var s' := Replay(s, t);
      && View(s') == View(s) && (forall m :: Lookup(s', m) == Lookup(s, m) && IsDir(s', m) == IsDir(s, m))
  {
    OnlyDirectory(op, s, t);
    var s' := Replay(s, t);
    assert Current(s') == Current(s);
    assert forall m :: Resolve(s', m) == Resolve(s, m);
  }

  lemma {:induction false} OnlyDirectory(op: Op, s: Fs, t: seq<Call>)
    requires !op.whole && Legal(op, s, t) && forall c <- t :: Target(c).None?
    ensures var s' := Replay(s, t); s' == s.(present := s'.present, dirGid := s'.dirGid)
  {
    if t != [] {
      var front := t[..|t| - 1];
      assert forall c <- front :: c in t;
      OnlyDirectory(op, s, front);
      assert t[|t| - 1] in t;
    }
  }

  lemma OneFileOnly(op: Op, s: Fs, s1: Fs, u: seq<Call>, s2: Fs, name: Name)
    requires Inv(s1) && ValidOp(op) && !op.whole && Ran(op, s1, u, s2)
    requires forall c <- u :: Target(c) == Some(name)
    requires forall m :: Lookup(s1, m) == Lookup(s, m)
    ensures forall m :: m != name ==> Lookup(s2, m) == Lookup(s, m)
  {
    WriteKeeps(op, s1, u);
  }

  function GroupOf(fsGroup: FsGroup): Option<int> {
    if fsGroup.Valid? then fsGroup.group else None
  }

  /** The calls of a write so far: permitted, leading to where the volume is, the certificate last. */
  ghost predicate Account(op: Op, s: Fs, cert: Name, t: seq<Call>, s': Fs) {
    ValidOp(op) && Ran(op, s, t, s') && CertLast(s, op.files, cert, t)
  }

  /** What a successful `WriteFiles` leaves behind. */
  ghost predicate Outcome(s: Fs, files: map<Name, Bytes>, group: Option<int>, cert: Name, order: seq<Name>, s': Fs) {
    if Broken(s, files.Keys) then AtomicOutcome(Clear(Prepare(s, group)), files, s')
    else
      && IsWriteOrder(order, files.Keys, cert) && (forall n <- order :: n in files)
      && Writable(s, files.Keys)
      && s' == InplaceWrite(s, files, order, group)
  }

  lemma OutcomeReached(s: Fs, files: map<Name, Bytes>, group: Option<int>, cert: Name, order: seq<Name>)
    requires WellFormed(s) && !Broken(s, files.Keys) && NoDirs(s, files.Keys) && forall n <- files :: !Reserved(n)
    requires IsWriteOrder(order, files.Keys, cert) && forall n <- order :: n in files
    ensures Outcome(s, files, group, cert, order, InplaceWrite(s, files, order, group))
  {
  }

  /** A successful `WriteFiles` is one write of a run that mixes the modes. */
  lemma OutcomePerforms(s: Fs, files: map<Name, Bytes>, group: Option<int>, cert: Name, order: seq<Name>, s': Fs)
    requires Outcome(s, files, group, cert, order, s') && forall n <- files :: !Reserved(n)
    ensures Performs(s, InPlace(files, order, group), s')
  {
    if !Broken(s, files.Keys) {
      WriteOrderElements(order, files.Keys, cert);
    }
  }

  lemma BrokenPrepared(s: Fs, group: Option<int>, names: set<Name>)
    requires WellFormed(s)
    ensures WellFormed(Prepare(s, group)) && (Broken(Prepare(s, group), names) <==> Broken(s, names))
  {
    PrepareFacts(s, group, names);
  }

  lemma NothingYet(op: Op, s: Fs, files: map<Name, Bytes>, cert: Name, t: seq<Call>, s': Fs)
    requires OwnRoots(files.Keys) && op.files == files
    requires Ran(op, s, t, s') && forall c <- t :: Target(c).None?
    ensures Account(op, s, cert, t + [], s')
  {
    assert t + [] == t;
    UntargetedCertLast(s, files, cert, t);
  }

  predicate NoDirs(s: Fs, names: set<Name>) {
    forall n <- names :: !IsDir(s, n)
  }

  lemma OrderDirs(s: Fs, order: seq<Name>, names: set<Name>, cert: Name)
    requires IsWriteOrder(order, names, cert)
    ensures NoDirs(s, names) <==> forall n <- order :: !IsDir(s, n)
  {
    WriteOrderElements(order, names, cert);
    assert forall n <- names :: n in (set m <- order);
  }

  lemma PrunedFacts(s: Fs, files: map<Name, Bytes>)
    requires Inv(s) && s.present && !Broken(s, files.Keys)
    ensures var t := Prune(s, files.Keys);
      && Inv(t) && t.present && !Broken(t, files.Keys)
      && NoDirs(t, files.Keys) == NoDirs(s, files.Keys)
  {
    DropKeeps(s, s.root.Keys - files.Keys);
  }

  lemma PruneNothing(s: Fs, files: map<Name, Bytes>)
    requires s.root.Keys == files.Keys
    ensures Prune(s, files.Keys) == s
  {
    assert s.root.Keys - files.Keys == {};
    DropNothing(s);
  }

  lemma PrepareFacts(s: Fs, group: Option<int>, names: set<Name>)
    requires WellFormed(s)
    ensures var t := Prepare(s, group);
      && WellFormed(t) && t.present && (Broken(t, names) <==> Broken(s, names))
      && (Inv(t) <==> Inv(s)) && NoDirs(t, names) == NoDirs(s, names)
  {
    var t := Prepare(s, group);
    assert Current(t) == Current(s);
    assert forall n :: Resolve(t, n) == Resolve(s, n) && IsLink(t, n) == IsLink(s, n);
  }

  lemma UntargetedCertLast(s: Fs, files: map<Name, Bytes>, cert: Name, t: seq<Call>)
    requires forall c <- t :: Target(c).None?
    ensures CertLast(s, files, cert, t)
  {
    assert forall k | 0 <= k < |t| :: t[k] in t;
  }
}
