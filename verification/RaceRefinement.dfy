/**
 That the race is about the writer as it stands: the states its theorems speak of are reached, and what
 the methods of the in-place writer do on their own are steps of it.
 */
module RaceRefinement {
  import opened Prelude
  import opened VolumeFs
  import opened InplaceSteps
  import opened InplaceRewrite
  import opened VolumeSpec
  import opened FileSteps
  import opened KeypairRace
  import opened InplaceStorage
  import opened InplaceWriters

  // ---- Renewals can get there ------------------------------------------------------------------------

  ghost predicate Path(ca: Name, ws: seq<World>) {
    ws != [] && forall k | 0 <= k < |ws| - 1 :: Next(ca, ws[k], ws[k + 1])
  }

  function Last(ws: seq<World>): World
    requires ws != []
  {
    ws[|ws| - 1]
  }

  lemma PathAppend(ca: Name, ws: seq<World>, w: World)
    requires Path(ca, ws) && Next(ca, Last(ws), w)
    ensures Path(ca, ws + [w])
  {
    var longer := ws + [w];
    forall k | 0 <= k < |longer| - 1
      ensures Next(ca, longer[k], longer[k + 1])
    {
      assert k < |ws| - 1 ==> Next(ca, ws[k], ws[k + 1]);
    }
  }

  /** The volume and the names are such that every file can be written. */
  predicate Ready(s: Fs, op: Op) {
    Inv(s) && Whole(s) && s.present && forall n <- op.files :: !IsDir(s, n)
  }

  lemma FileNextReady(op: Op, n: Name, s: Fs, pc: FilePc, s': Fs, pc': FilePc)
    requires Ready(s, op) && ValidOp(op) && n in op.files
    requires Attached(s, n, pc) && FileNext(op, n, s, pc, s', pc')
    ensures Ready(s', op) && Attached(s', n, pc')
  {
    FileNextKeeps(op, n, s, pc, s', pc');
    assert forall m <- op.files :: m != n ==> IsDir(s', m) == IsDir(s, m);
  }

  /** Where the writer is once the file is open. */
  function WhenOpened(op: Op, n: Name, s: Fs): (Fs, FilePc)
    requires n in op.files
  {
    if Resolve(s, n).Some? then (s, Filling(Resolve(s, n).value, 0)) else (Apply(s, Create(n)), Filling(s.next, 0))
  }

  /** One step of the file being written. */
  lemma FileStepAppend(ca: Name, ws: seq<World>, op: Op, names: seq<Name>, k: nat, pc: FilePc, s': Fs, pc': FilePc)
    requires Path(ca, ws) && Last(ws).renewal == Delivering(op, names, k, pc) && RenewalOp(op, names, ca)
    requires k < |names| && names[k] in op.files && Ready(Last(ws).fs, op) && Attached(Last(ws).fs, names[k], pc)
    requires FileNext(op, names[k], Last(ws).fs, pc, s', pc')
    ensures Path(ca, ws + [World(s', Delivering(op, names, k, pc'), Last(ws).update)])
    ensures Ready(s', op) && Attached(s', names[k], pc')
  {
    FileNextReady(op, names[k], Last(ws).fs, pc, s', pc');
    PathAppend(ca, ws, World(s', Delivering(op, names, k, pc'), Last(ws).update));
  }

  lemma OneFile(ca: Name, ws: seq<World>, op: Op, names: seq<Name>, k: nat) returns (longer: seq<World>)
    requires Path(ca, ws) && RenewalOp(op, names, ca) && k < |names| && Ready(Last(ws).fs, op)
    requires Last(ws).renewal == Delivering(op, names, k, Compare)
    ensures Path(ca, longer) && ws <= longer && Ready(Last(longer).fs, op)
    ensures Last(longer).renewal == Delivering(op, names, k + 1, Compare)
  {
    assert names[k] in names;
    var s, u := Last(ws).fs, Last(ws).update;
    longer := ws;
    FileStepAppend(ca, longer, op, names, k, Compare, s, Opening);
    longer := longer + [World(s, Delivering(op, names, k, Opening), u)];
    var (s1, pc1) := WhenOpened(op, names[k], s);
    FileStepAppend(ca, longer, op, names, k, Opening, s1, pc1);
    longer := longer + [World(s1, Delivering(op, names, k, pc1), u)];
    longer := OpenedFile(ca, longer, op, names, k, pc1.ino);
  }

  /** The content in one chunk, mode and group as they are, and on to the next file. */
  lemma OpenedFile(ca: Name, ws: seq<World>, op: Op, names: seq<Name>, k: nat, i: Ino) returns (longer: seq<World>)
    requires Path(ca, ws) && RenewalOp(op, names, ca) && k < |names| && Ready(Last(ws).fs, op)
    requires Last(ws).renewal == Delivering(op, names, k, Filling(i, 0)) && Resolve(Last(ws).fs, names[k]) == Some(i)
    ensures Path(ca, longer) && ws <= longer && Ready(Last(longer).fs, op)
    ensures Last(longer).renewal == Delivering(op, names, k + 1, Compare)
  {
    assert names[k] in names;
    var n, s, u := names[k], Last(ws).fs, Last(ws).update;
    var data := op.files[n];
    longer := ws;
    if data != [] {
      s := Apply(s, WriteAt(n, i, 0, data[0..|data|]));
      FileStepAppend(ca, longer, op, names, k, Filling(i, 0), s, Filling(i, |data|));
      longer := longer + [World(s, Delivering(op, names, k, Filling(i, |data|)), u)];
    }
    longer := CutFile(ca, longer, op, names, k, i);
  }

  lemma CutFile(ca: Name, ws: seq<World>, op: Op, names: seq<Name>, k: nat, i: Ino) returns (longer: seq<World>)
    requires Path(ca, ws) && RenewalOp(op, names, ca) && k < |names| && names[k] in op.files && Ready(Last(ws).fs, op)
    requires Last(ws).renewal == Delivering(op, names, k, Filling(i, |op.files[names[k]]|))
    requires Resolve(Last(ws).fs, names[k]) == Some(i)
    ensures Path(ca, longer) && ws <= longer && Ready(Last(longer).fs, op)
    ensures Last(longer).renewal == Delivering(op, names, k + 1, Compare)
  {
    var n, s, u := names[k], Last(ws).fs, Last(ws).update;
    var data := op.files[n];
    longer := ws;
    var t := Apply(s, Truncate(n, i, |data|));
    FileStepAppend(ca, longer, op, names, k, Filling(i, |data|), t, Owning(i));
    longer := longer + [World(t, Delivering(op, names, k, Owning(i)), u)];
    FileStepAppend(ca, longer, op, names, k, Owning(i), t, Complete);
    longer := longer + [World(t, Delivering(op, names, k, Complete), u)];
    PathAppend(ca, longer, World(t, Delivering(op, names, k + 1, Compare), u));
    longer := longer + [World(t, Delivering(op, names, k + 1, Compare), u)];
  }

  /** One removal of the prune. */
  lemma PruneAppend(ca: Name, ws: seq<World>, op: Op, names: seq<Name>, left: map<Name, bool>, at: Option<Name>,
      n: Name, s': Fs, left': map<Name, bool>, at': Option<Name>)
    requires Path(ca, ws) && Last(ws).renewal == Pruning(op, names, left, at) && RenewalOp(op, names, ca)
    requires Ready(Last(ws).fs, op) && PruneInv(Last(ws).fs, op.files.Keys, left, at)
    requires PruneNext(n, Last(ws).fs, left, at, s', left', at')
    ensures Path(ca, ws + [World(s', Pruning(op, names, left', at'), Last(ws).update)])
    ensures Ready(s', op) && PruneInv(s', op.files.Keys, left', at')
  {
    PruneStep(op, n, Last(ws).fs, left, at, s', left', at');
    PathAppend(ca, ws, World(s', Pruning(op, names, left', at'), Last(ws).update));
  }

  /** One listed entry, with the file behind it if it is a link. */
  lemma OneRemoval(ca: Name, ws: seq<World>, op: Op, names: seq<Name>, left: map<Name, bool>, n: Name)
    returns (longer: seq<World>)
    requires Path(ca, ws) && Last(ws).renewal == Pruning(op, names, left, None) && RenewalOp(op, names, ca)
    requires Ready(Last(ws).fs, op) && PruneInv(Last(ws).fs, op.files.Keys, left, None) && n in left
    ensures Path(ca, longer) && ws <= longer && Ready(Last(longer).fs, op)
    ensures Last(longer).renewal == Pruning(op, names, left - {n}, None)
    ensures PruneInv(Last(longer).fs, op.files.Keys, left - {n}, None)
  {
    var s, u := Last(ws).fs, Last(ws).update;
    longer := ws;
    var at := None;
    if left[n] {
      PruneAppend(ca, longer, op, names, left, None, n, Apply(s, RemoveBehind(n)), left, Some(n));
      s, at := Apply(s, RemoveBehind(n)), Some(n);
      longer := longer + [World(s, Pruning(op, names, left, at), u)];
    }
    PruneAppend(ca, longer, op, names, left, at, n, Apply(s, RemoveEntry(n)), left - {n}, None);
    longer := longer + [World(Apply(s, RemoveEntry(n)), Pruning(op, names, left - {n}, None), u)];
  }

  lemma {:induction false} AllRemovals(ca: Name, ws: seq<World>, op: Op, names: seq<Name>, left: map<Name, bool>)
    returns (longer: seq<World>)
    requires Path(ca, ws) && Last(ws).renewal == Pruning(op, names, left, None) && RenewalOp(op, names, ca)
    requires Ready(Last(ws).fs, op) && PruneInv(Last(ws).fs, op.files.Keys, left, None)
    ensures Path(ca, longer) && ws <= longer && Ready(Last(longer).fs, op)
    ensures Last(longer).renewal == Delivering(op, names, 0, Compare)
    decreases |left|
  {
    var s, u := Last(ws).fs, Last(ws).update;
    longer := ws;
    if left == map[] {
      PathAppend(ca, longer, World(s, Delivering(op, names, 0, Compare), u));
      longer := longer + [World(s, Delivering(op, names, 0, Compare), u)];
    } else {
      var n :| n in left;
      longer := OneRemoval(ca, ws, op, names, left, n);
      assert |left - {n}| < |left| by {
        assert (left - {n}).Keys == left.Keys - {n};
        assert |left.Keys - {n}| < |left.Keys|;
      }
      longer := AllRemovals(ca, longer, op, names, left - {n});
    }
  }

  lemma {:induction false} AllFiles(ca: Name, ws: seq<World>, op: Op, names: seq<Name>, k: nat)
    returns (longer: seq<World>)
    requires Path(ca, ws) && RenewalOp(op, names, ca) && k <= |names| && Ready(Last(ws).fs, op)
    requires Last(ws).renewal == Delivering(op, names, k, Compare)
    ensures Path(ca, longer) && ws <= longer
    ensures Last(longer).renewal == Resting(Some(op.files))
    decreases |names| - k
  {
    if k < |names| {
      longer := OneFile(ca, ws, op, names, k);
      longer := AllFiles(ca, longer, op, names, k + 1);
    } else {
      var w := Last(ws);
      PathAppend(ca, ws, w.(renewal := Recording(op)));
      longer := ws + [w.(renewal := Recording(op))];
      PathAppend(ca, longer, w.(renewal := Resting(Some(op.files))));
      longer := longer + [w.(renewal := Resting(Some(op.files)))];
    }
  }

  /**
   The states the theorem speaks of are reached: whatever has happened so far, and wherever an update
   stands, the next renewal of any payload can be completed and recorded.
   */
  lemma RenewalCanComplete(ca: Name, ws: seq<World>, op: Op, names: seq<Name>) returns (longer: seq<World>)
    requires Run(ca, ws) && Last(ws).renewal.Resting? && RenewalOp(op, names, ca)
    requires Last(ws).fs.present && forall n <- op.files :: !IsDir(Last(ws).fs, n)
    ensures Run(ca, longer) && ws <= longer && Last(longer).renewal == Resting(Some(op.files))
  {
    RaceInvariant(ca, ws, |ws| - 1);
    var w := Last(ws);
    var left := Unlisted(w.fs, op.files.Keys);
    PathAppend(ca, ws, w.(renewal := Preparing(op, names)));
    longer := ws + [w.(renewal := Preparing(op, names))];
    PathAppend(ca, longer, w.(renewal := Pruning(op, names, left, None)));
    longer := longer + [w.(renewal := Pruning(op, names, left, None))];
    longer := AllRemovals(ca, longer, op, names, left);
    longer := AllFiles(ca, longer, op, names, 0);
    assert longer[0] == ws[0];
  }

  // ---- The methods take these steps ----------------------------------------------------------------------

  datatype FileState = FileState(fs: Fs, pc: FilePc)

  predicate FilePath(op: Op, n: Name, path: seq<FileState>)
    requires n in op.files
  {
    path != []
    && forall k | 0 <= k < |path| - 1 :: FileNext(op, n, path[k].fs, path[k].pc, path[k + 1].fs, path[k + 1].pc)
  }

  lemma FilePathAppend(op: Op, n: Name, path: seq<FileState>, more: seq<FileState>)
    requires n in op.files && FilePath(op, n, path) && FilePath(op, n, more) && path[|path| - 1] == more[0]
    ensures FilePath(op, n, path + more[1..])
    ensures var all := path + more[1..]; all[0] == path[0] && all[|all| - 1] == more[|more| - 1]
  {
    var all := path + more[1..];
    forall k | 0 <= k < |all| - 1
      ensures FileNext(op, n, all[k].fs, all[k].pc, all[k + 1].fs, all[k + 1].pc)
    {
      if k >= |path| - 1 {
        var j := k - (|path| - 1);
        assert all[k] == more[j] && all[k + 1] == more[j + 1];
      }
    }
  }

  /** The calls on an open file. */
  lemma OpenFilePath(op: Op, s: Fs, n: Name, i: Ino, u: seq<Call>) returns (path: seq<FileState>)
    requires n in op.files && Legal(op, s, u) && !ProgressOf(u, n, i, op.files[n]).Other?
    ensures FilePath(op, n, path) && path[0] == FileState(s, Filling(i, 0))
    ensures path[|path| - 1] == FileState(Replay(s, u), PcOf(ProgressOf(u, n, i, op.files[n]), i))
  {
    path := seq(|u| + 1, k requires 0 <= k <= |u| =>
      FileState(Replay(s, u[..k]), PcOf(ProgressOf(u[..k], n, i, op.files[n]), i)));
    forall k | 0 <= k < |path| - 1
      ensures FileNext(op, n, path[k].fs, path[k].pc, path[k + 1].fs, path[k + 1].pc)
    {
      WriterTakesSteps(op, s, n, i, u, k);
    }
    assert u[..|u|] == u;
  }

  /** A file found right gets its group at most. */
  lemma {:induction false} GroupPath(op: Op, s: Fs, n: Name, i: Ino, t: seq<Call>) returns (path: seq<FileState>)
    requires Inv(s) && ValidOp(op) && n in op.files && Legal(op, s, t)
    requires Resolve(s, n) == Some(i) && (forall c <- t :: c.Chown? && Target(c) == Some(n))
    ensures FilePath(op, n, path) && path[0] == FileState(s, Owning(i))
    ensures path[|path| - 1] == FileState(Replay(s, t), Owning(i))
  {
    if t == [] {
      path := [FileState(s, Owning(i))];
    } else {
      var front, c := t[..|t| - 1], t[|t| - 1];
      assert c in t && forall d <- front :: d in t;
      path := GroupPath(op, s, n, i, front);
      WriteKeeps(op, s, front);
      assert Keeps(s, Replay(s, front), n);
      var last := FileState(Replay(s, t), Owning(i));
      FilePathAppend(op, n, path, [path[|path| - 1], last]);
      path := path + [path[|path| - 1], last][1..];
    }
  }

  /**
   Comparing, opening and writing: whatever `WriteFileInPlace` does to one file, to its end or up to a
   failure, is a series of steps of the race.
   */
  lemma FileFollows(op: Op, s: Fs, n: Name, t: seq<Call>, done: bool) returns (path: seq<FileState>)
    requires Inv(s) && s.present && ValidOp(op) && n in op.files && !IsDir(s, n)
    requires Ran(op, s, t, Replay(s, t)) && WritesOneFile(s, n, op.files[n], t, done)
    ensures FilePath(op, n, path) && path[0] == FileState(s, Compare) && path[|path| - 1].fs == Replay(s, t)
    ensures done ==> path[|path| - 1].pc.Owning?
  {
    match Resolve(s, n)
    case Some(i) =>
      if Lookup(s, n) == Some(op.files[n]) && forall c <- t :: c.Chown? {
        path := [FileState(s, Compare), FileState(s, Owning(i))];
        var more := GroupPath(op, s, n, i, t);
        FilePathAppend(op, n, path, more);
        path := path + more[1..];
      } else {
        path := [FileState(s, Compare), FileState(s, Opening), FileState(s, Filling(i, 0))];
        var more := OpenFilePath(op, s, n, i, t);
        FilePathAppend(op, n, path, more);
        path := path + more[1..];
      }
    case None =>
      path := [FileState(s, Compare)];
      if t != [] {
        path := CreatedFollows(op, s, n, t);
      }
  }

  lemma CreatedFollows(op: Op, s: Fs, n: Name, t: seq<Call>) returns (path: seq<FileState>)
    requires s.present && n in op.files && !IsDir(s, n) && Resolve(s, n).None? && Legal(op, s, t)
    requires t != [] && t[0] == Create(n) && !ProgressOf(t[1..], n, s.next, op.files[n]).Other?
    ensures FilePath(op, n, path) && path[0] == FileState(s, Compare)
    ensures path[|path| - 1] == FileState(Replay(s, t), PcOf(ProgressOf(t[1..], n, s.next, op.files[n]), s.next))
  {
    var first, rest := [t[0]], t[1..];
    assert t == first + rest;
    LegalSplit(op, s, first, rest);
    ReplayConcat(s, first, rest);
    var s1 := Apply(s, Create(n));
    assert Replay(s, first) == s1 by {
      assert first[..0] == [];
    }
    path := [FileState(s, Compare), FileState(s, Opening), FileState(s1, Filling(s.next, 0))];
    var more := OpenFilePath(op, s1, n, s.next, rest);
    FilePathAppend(op, n, path, more);
    path := path + more[1..];
  }

  datatype PruneState = PruneState(fs: Fs, left: map<Name, bool>, at: Option<Name>)

  predicate PruneStepTo(a: PruneState, b: PruneState) {
    exists n <- a.left :: PruneNext(n, a.fs, a.left, a.at, b.fs, b.left, b.at)
  }

  predicate PrunePath(path: seq<PruneState>) {
    path != [] && forall k | 0 <= k < |path| - 1 :: PruneStepTo(path[k], path[k + 1])
  }

  /** The states of a path are those that the calls `t` go through, one by one. */
  predicate GoesThrough(path: seq<PruneState>, s: Fs, t: seq<Call>) {
    |path| == |t| + 1 && forall j | 0 <= j <= |t| :: path[j].fs == Replay(s, t[..j])
  }

  lemma PruneGoesOn(path: seq<PruneState>, s: Fs, t: seq<Call>, c: Call, b: PruneState)
    requires PrunePath(path) && GoesThrough(path, s, t)
    requires PruneStepTo(path[|t|], b) && b.fs == Apply(path[|t|].fs, c)
    ensures PrunePath(path + [b]) && GoesThrough(path + [b], s, t + [c])
  {
    var longer, u := path + [b], t + [c];
    assert t[..|t|] == t && u[..|u|] == u && u[..|u| - 1] == t;
    forall j | 0 <= j <= |u|
      ensures longer[j].fs == Replay(s, u[..j])
    {
      if j < |u| {
        assert u[..j] == t[..j];
      }
    }
  }

  /** The first `k` entries have been dealt with, call by call. */
  predicate PrunedBy(path: seq<PruneState>, op: Op, s: Fs, entries: seq<DirEntry>, k: nat)
    requires k <= |entries|
  {
    && PrunePath(path) && GoesThrough(path, s, Removals(entries, k, op.files.Keys))
    && path[0] == PruneState(s, Unlisted(s, op.files.Keys), None)
    && path[|path| - 1] == PruneState(Drop(s, Obsolete(entries, k, op.files.Keys)),
         Unlisted(s, op.files.Keys) - Obsolete(entries, k, op.files.Keys), None)
  }

  /**
   Pruning: the calls `RemoveUnlistedFiles` makes for the entries it has listed are steps of the race,
   one by one, so where it stops the race is at a state of its own as well. Once all entries have been dealt
   with nothing is left, and the race goes on to the files.
   */
  lemma PruneFollows(op: Op, s: Fs, entries: seq<DirEntry>, k: nat) returns (path: seq<PruneState>)
    requires Inv(s) && op.whole && Lists(s, entries) && k <= |entries|
    ensures PrunedBy(path, op, s, entries, k)
    ensures k == |entries| ==> path[|path| - 1].left == map[]
  {
    path := EntriesFollow(op, s, entries, k);
    if k == |entries| {
      ObsoleteAll(s, entries, op.files.Keys);
    }
  }

  lemma {:induction false} EntriesFollow(op: Op, s: Fs, entries: seq<DirEntry>, k: nat) returns (path: seq<PruneState>)
    requires Inv(s) && op.whole && Lists(s, entries) && k <= |entries|
    ensures PrunedBy(path, op, s, entries, k)
  {
    if k == 0 {
      path := NothingFollows(op, s, entries);
    } else {
      path := EntriesFollow(op, s, entries, k - 1);
      path := OneMoreEntry(op, s, entries, k, path);
    }
  }

  lemma OneMoreEntry(op: Op, s: Fs, entries: seq<DirEntry>, k: nat, path: seq<PruneState>)
    returns (longer: seq<PruneState>)
    requires Inv(s) && op.whole && Lists(s, entries)
    requires 0 < k <= |entries| && PrunedBy(path, op, s, entries, k - 1)
    ensures PrunedBy(longer, op, s, entries, k)
  {
    if Superfluous(entries[k - 1], op.files.Keys) {
      longer := EntryFollows(op, s, entries, k, path);
    } else {
      EntrySkipped(op, s, entries, k, path);
      longer := path;
    }
  }

  lemma NothingFollows(op: Op, s: Fs, entries: seq<DirEntry>) returns (path: seq<PruneState>)
    ensures PrunedBy(path, op, s, entries, 0)
  {
    DropNothing(s);
    WithoutNone(Unlisted(s, op.files.Keys));
    path := [PruneState(s, Unlisted(s, op.files.Keys), None)];
  }

  lemma EntrySkipped(op: Op, s: Fs, entries: seq<DirEntry>, k: nat, path: seq<PruneState>)
    requires 0 < k <= |entries| && !Superfluous(entries[k - 1], op.files.Keys) && PrunedBy(path, op, s, entries, k - 1)
    ensures PrunedBy(path, op, s, entries, k)
  {
    var t := Removals(entries, k - 1, op.files.Keys);
    assert Removals(entries, k, op.files.Keys) == t + [] == t;
  }

  lemma WithoutNone(left: map<Name, bool>)
    ensures left - {} == left
  {
  }

  /** One entry more: the file behind a link first, then the entry. */
  lemma RemovalGoesOn(path: seq<PruneState>, s: Fs, t: seq<Call>, entry: DirEntry) returns (longer: seq<PruneState>)
    requires PrunePath(path) && GoesThrough(path, s, t)
    requires var last := path[|t|]; last.at.None? && entry.name in last.left && last.left[entry.name] == entry.symlink
    ensures PrunePath(longer) && GoesThrough(longer, s, t + Removal(entry)) && longer[0] == path[0]
    ensures var last, n := path[|t|], entry.name;
      longer[|longer| - 1] == PruneState(
        Apply(if entry.symlink then Apply(last.fs, RemoveBehind(n)) else last.fs, RemoveEntry(n)),
        last.left - {n}, None)
  {
    var last, n := path[|t|], entry.name;
    var s1, at, u := last.fs, None, t;
    longer := path;
    if entry.symlink {
      var b := PruneState(Apply(s1, RemoveBehind(n)), last.left, Some(n));
      assert PruneNext(n, s1, last.left, None, b.fs, b.left, b.at);
      PruneGoesOn(longer, s, u, RemoveBehind(n), b);
      longer, u, s1, at := longer + [b], u + [RemoveBehind(n)], b.fs, Some(n);
    }
    var b := PruneState(Apply(s1, RemoveEntry(n)), last.left - {n}, None);
    assert PruneNext(n, s1, last.left, at, b.fs, b.left, b.at);
    PruneGoesOn(longer, s, u, RemoveEntry(n), b);
    longer, u := longer + [b], u + [RemoveEntry(n)];
    assert u == t + Removal(entry);
  }

  lemma EntryFollows(op: Op, s: Fs, entries: seq<DirEntry>, k: nat, path: seq<PruneState>)
    returns (longer: seq<PruneState>)
    requires Inv(s) && op.whole && Lists(s, entries)
    requires 0 < k <= |entries| && Superfluous(entries[k - 1], op.files.Keys) && PrunedBy(path, op, s, entries, k - 1)
    ensures PrunedBy(longer, op, s, entries, k)
  {
    EntryFacts(op, s, entries, k);
    longer := RemovalGoesOn(path, s, Removals(entries, k - 1, op.files.Keys), entries[k - 1]);
  }

  lemma EntryFacts(op: Op, s: Fs, entries: seq<DirEntry>, k: nat)
    requires Inv(s) && op.whole && Lists(s, entries)
    requires 0 < k <= |entries| && Superfluous(entries[k - 1], op.files.Keys)
    ensures var keep, entry := op.files.Keys, entries[k - 1];
      var gone, n := Obsolete(entries, k - 1, keep), entry.name;
      var s1, left := Drop(s, gone), Unlisted(s, keep) - gone;
      && n in left && left[n] == entry.symlink
      && left - {n} == Unlisted(s, keep) - Obsolete(entries, k, keep)
      && Apply(if entry.symlink then Apply(s1, RemoveBehind(n)) else s1, RemoveEntry(n)) ==
           Drop(s, Obsolete(entries, k, keep))
  {
    var keep, entry := op.files.Keys, entries[k - 1];
    var gone := Obsolete(entries, k - 1, keep);
    ListedEntry(s, entries, k - 1);
    assert entry.name !in gone by {
      ObsoleteMembers(entries, k - 1, keep, entry.name);
    }
    assert Obsolete(entries, k, keep) == gone + {entry.name};
    WithoutBoth(Unlisted(s, keep), gone, entry.name);
    EntryDropped(op, s, gone, entry);
  }

  lemma WithoutBoth(left: map<Name, bool>, gone: set<Name>, n: Name)
    ensures left - gone - {n} == left - (gone + {n})
  {
  }

  lemma EntryDropped(op: Op, s: Fs, gone: set<Name>, entry: DirEntry)
    requires Inv(s) && op.whole && entry.name !in op.files && entry.name in s.root && entry.name !in gone
    requires entry.symlink == IsLink(s, entry.name)
    ensures var s1, n := Drop(s, gone), entry.name;
      Apply(if entry.symlink then Apply(s1, RemoveBehind(n)) else s1, RemoveEntry(n)) == Drop(s, gone + {n})
  {
    DropStep(op, s, gone, entry.name);
  }
}
