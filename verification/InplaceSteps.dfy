/**
 What the in-place writer may do to a volume one system call at a time, and what any run of such
 calls keeps, however many writes it is made of and wherever a write stops.
 */
module InplaceSteps {
  import opened Prelude
  import opened VolumeFs

  /**
   One in-place write. `WriteFiles` makes `files` the whole contents of the volume (`whole`),
   `WriteFile` writes a single name and prunes nothing.
   */
  datatype Op = Op(files: map<Name, Bytes>, whole: bool, group: Option<int>)

  predicate ValidOp(op: Op) {
    forall n <- op.files :: !Reserved(n)
  }

  /** The calls an in-place write may make in state `s`, whatever other writes do in between. */
  predicate Allowed(op: Op, s: Fs, c: Call) {
    match c
    case MakeDir => true
    case ChownDir(g) => s.present && op.group == Some(g)
    case RemoveBehind(n) => op.whole && n !in op.files && IsLink(s, n)
    case RemoveEntry(n) =>
      && op.whole && n !in op.files && n in s.root
      && (Current(s).Some? ==> n !in Current(s).value)
    case Create(n) =>
      && s.present && n in op.files && Resolve(s, n).None? && !IsDir(s, n)
      && !Broken(s, {n})
    case WriteAt(n, i, off, b) =>
      && n in op.files && Resolve(s, n) == Some(i)
      && off + |b| <= |op.files[n]| && b == op.files[n][off..off + |b|]
    case Truncate(n, i, len) => n in op.files && Resolve(s, n) == Some(i) && len == |op.files[n]|
    case Chmod(n, i) => n in op.files && Resolve(s, n) == Some(i)
    case Chown(n, i, g) => n in op.files && Resolve(s, n) == Some(i) && op.group == Some(g)
  }

  /** A write on its own also never writes past the end of a file and only ever cuts to its data. */
  predicate Permitted(op: Op, s: Fs, c: Call) {
    && Allowed(op, s, c)
    && (c.WriteAt? ==> c.off <= |Content(s, c.ino)|)
    && (c.Truncate? ==> op.files[c.name] <= Content(s, c.ino))
  }

  /** `n` is a name the write does not remove. */
  predicate Spares(op: Op, n: Name) {
    op.whole ==> n in op.files
  }

  predicate Keeps(s: Fs, t: Fs, n: Name) {
    Resolve(s, n).Some? ==> Resolve(t, n) == Resolve(s, n)
  }

  // ---- One call --------------------------------------------------------------------------

  lemma RemovalStep(op: Op, s: Fs, c: Call)
    requires Inv(s) && Allowed(op, s, c) && (c.RemoveBehind? || c.RemoveEntry?)
    ensures Inv(Apply(s, c))
    ensures forall n :: n != c.name ==> Resolve(Apply(s, c), n) == Resolve(s, n)
    ensures Apply(s, c).inodes == s.inodes
  {
    var t := Apply(s, c);
    RemovalResolves(op, s, c);
    assert t.data == s.data;
    assert forall n <- t.root :: n in s.root && t.root[n] == s.root[n];
    assert NamesApart(t);
    assert OneEntryPerInode(t);
    assert Coherent(t);
  }

  lemma RemovalReads(s: Fs, t: Fs, n: Name)
    requires t.inodes == s.inodes && forall m :: m != n ==> Resolve(t, m) == Resolve(s, m)
    ensures forall m :: m != n ==> Lookup(t, m) == Lookup(s, m) && Keeps(s, t, m)
  {
  }

  lemma RemovalResolves(op: Op, s: Fs, c: Call)
    requires NamesApart(s) && Coherent(s) && Allowed(op, s, c) && (c.RemoveBehind? || c.RemoveEntry?)
    ensures var t := Apply(s, c);
      && (forall n :: n != c.name ==> Resolve(t, n) == Resolve(s, n))
      && (forall n :: Resolve(t, n).Some? ==> Resolve(t, n) == Resolve(s, n))
  {
    var t := Apply(s, c);
    if c.RemoveEntry? {
      assert c.name !in s.dirs;
      assert t.dirs == s.dirs && Current(t) == Current(s);
    } else if Current(s).Some? {
      assert Current(t) == Some(Current(s).value - {c.name});
    }
  }

  lemma CreateStep(op: Op, s: Fs, n: Name)
    requires Inv(s) && ValidOp(op) && Allowed(op, s, Create(n))
    ensures var t := Apply(s, Create(n));
      && Inv(t)
      && Resolve(t, n) == Some(s.next)
      && t.inodes == s.inodes[s.next := Inode([], DRIVER_GID)]
      && forall m :: m != n ==> Resolve(t, m) == Resolve(s, m)
  {
    var t := Apply(s, Create(n));
    CreateResolves(s, n);
    CreateNamesApart(s, n);
    CreateInodesApart(s, n, t);
  }

  lemma CreateNamesApart(s: Fs, n: Name)
    requires NamesApart(s) && !Reserved(n)
    ensures NamesApart(Apply(s, Create(n)))
  {
  }

  lemma CreateInodesApart(s: Fs, n: Name, t: Fs)
    requires OneEntryPerInode(s) && (forall i <- s.inodes :: i < s.next)
    requires Resolve(t, n) == Some(s.next) && forall m :: m != n ==> Resolve(t, m) == Resolve(s, m)
    requires t.root.Keys == s.root.Keys + {n} && t.inodes.Keys == s.inodes.Keys + {s.next}
    ensures OneEntryPerInode(t)
  {
    forall m <- t.root, m' <- t.root | m != m' && Resolve(t, m).Some?
      ensures Resolve(t, m) != Resolve(t, m')
    {
      if m == n || m' == n {
        var other := if m == n then m' else m;
        assert Resolve(t, other) == Resolve(s, other);
      }
    }
  }

  lemma CreateResolves(s: Fs, n: Name)
    requires Coherent(s) && Healthy(s) && Resolve(s, n).None? && !IsDir(s, n) && !Broken(s, {n})
    ensures var t := Apply(s, Create(n));
      && Resolve(t, n) == Some(s.next) && Coherent(t) && t.data == s.data
      && (forall m :: m != n ==> Resolve(t, m) == Resolve(s, m))
      && (forall m <- s.root :: m in t.root && t.root[m] == s.root[m])
  {
    var t := Apply(s, Create(n));
    if n in s.root {
      assert IsLink(s, n);
      assert Current(t) == Some(Current(s).value[n := s.next]);
    } else {
      assert Current(t) == Current(s);
    }
  }

  lemma FileStep(op: Op, s: Fs, c: Call)
    requires Inv(s) && Allowed(op, s, c) && (c.WriteAt? || c.Truncate? || c.Chmod? || c.Chown?)
    ensures var t := Apply(s, c);
      && Inv(t)
      && (forall m :: Resolve(t, m) == Resolve(s, m))
      && (forall i <- s.inodes :: i != c.ino ==> i in t.inodes && t.inodes[i] == s.inodes[i])
      && t.inodes.Keys == s.inodes.Keys
  {
    var t := Apply(s, c);
    assert t == s.(inodes := t.inodes);
    assert t.inodes.Keys == s.inodes.Keys;
    SameInodes(s, t);
  }

  lemma SameInodes(s: Fs, t: Fs)
    requires Inv(s) && t == s.(inodes := t.inodes) && t.inodes.Keys == s.inodes.Keys
    ensures Inv(t)
    ensures forall m :: Resolve(t, m) == Resolve(s, m)
  {
    assert Current(t) == Current(s);
    assert forall m :: Resolve(t, m) == Resolve(s, m);
    assert Coherent(t) && OneEntryPerInode(t) && NamesApart(t);
  }

  lemma SameEntries(s: Fs, t: Fs)
    requires Inv(s) && t == s.(present := t.present, dirGid := t.dirGid) && (s.present ==> t.present)
    ensures Inv(t)
    ensures forall m :: Resolve(t, m) == Resolve(s, m)
  {
    SameResolves(s, t);
    assert Coherent(t);
    assert OneEntryPerInode(t);
    assert NamesApart(t);
    assert WellFormed(t);
  }

  lemma SameResolves(s: Fs, t: Fs)
    requires t == s.(present := t.present, dirGid := t.dirGid)
    ensures Current(t) == Current(s)
    ensures forall m :: Resolve(t, m) == Resolve(s, m) && IsLink(t, m) == IsLink(s, m)
  {
  }

  /**
   Every allowed call keeps the invariant, keeps the inode of every name the write spares, and
   leaves what is read at every name other than its target as it was (a removed name excepted).
   */
  lemma StepKeeps(op: Op, s: Fs, c: Call)
    requires Inv(s) && ValidOp(op) && Allowed(op, s, c)
    ensures Inv(Apply(s, c)) && (Whole(s) ==> Whole(Apply(s, c)))
    ensures forall n :: Spares(op, n) ==> Keeps(s, Apply(s, c), n)
    ensures forall n :: Spares(op, n) && Target(c) != Some(n) ==> Lookup(Apply(s, c), n) == Lookup(s, n)
  {
    match c
    case RemoveBehind(_) =>
      RemovalStep(op, s, c);
      RemovalReads(s, Apply(s, c), c.name);
    case RemoveEntry(_) =>
      RemovalStep(op, s, c);
      RemovalReads(s, Apply(s, c), c.name);
    case Create(n) =>
      CreateStep(op, s, n);
      assert forall m :: m != n ==> Lookup(Apply(s, c), m) == Lookup(s, m);
    case MakeDir =>
      SameEntries(s, Apply(s, c));
    case ChownDir(_) =>
      SameEntries(s, Apply(s, c));
    case _ =>
      FileStep(op, s, c);
      FileStepReads(op, s, c);
  }

  lemma FileStepReads(op: Op, s: Fs, c: Call)
    requires Inv(s) && Allowed(op, s, c) && (c.WriteAt? || c.Truncate? || c.Chmod? || c.Chown?)
    ensures forall m :: m != c.name ==> Lookup(Apply(s, c), m) == Lookup(s, m)
  {
    FileStep(op, s, c);
    forall m | m != c.name && Resolve(s, m).Some?
      ensures Lookup(Apply(s, c), m) == Lookup(s, m)
    {
      assert m in s.root && c.name in s.root;
      assert Resolve(s, m) != Resolve(s, c.name);
    }
  }

  // ---- Runs of calls ---------------------------------------------------------------------

  /** One call of a run, with the write it belongs to. */
  datatype Step = Step(op: Op, call: Call)

  function After(s: Fs, t: seq<Step>): Fs {
    if t == [] then s else Apply(After(s, t[..|t| - 1]), t[|t| - 1].call)
  }

  /**
   A run of in-place writes, stopped, failed and repeated anywhere, and interleaved as far as each call
   is one its write may make: the entry behind a link is gone when the link goes, so that no removal
   races the creation of the same name.
   */
  predicate LegalRun(s: Fs, t: seq<Step>) {
    t == [] ||
    var front, last := t[..|t| - 1], t[|t| - 1];
    LegalRun(s, front) && ValidOp(last.op) && Allowed(last.op, After(s, front), last.call)
  }

  lemma {:induction false} LegalPrefix(s: Fs, t: seq<Step>, k: nat)
    requires LegalRun(s, t) && k <= |t|
    ensures LegalRun(s, t[..k])
  {
    if k == |t| {
      assert t[..k] == t;
    } else {
      assert t[..|t| - 1][..k] == t[..k];
      LegalPrefix(s, t[..|t| - 1], k);
    }
  }

  /**
   At every call of every run the layout is coherent and healthy, and where it was whole to begin
   with no payload ever finds it broken.
   */
  lemma HealthyAtEveryCall(s: Fs, t: seq<Step>, k: nat)
    requires Inv(s) && LegalRun(s, t) && k <= |t|
    ensures Inv(After(s, t[..k]))
    ensures Whole(s) ==> forall names :: !Broken(After(s, t[..k]), names)
  {
    InvAtEveryCall(s, t, k);
  }

  lemma {:induction false} InvAtEveryCall(s: Fs, t: seq<Step>, k: nat)
    requires Inv(s) && LegalRun(s, t) && k <= |t|
    ensures Inv(After(s, t[..k])) && (Whole(s) ==> Whole(After(s, t[..k])))
  {
    LegalPrefix(s, t, k);
    var u := t[..k];
    if u != [] {
      assert t[..k - 1] == u[..|u| - 1];
      InvAtEveryCall(s, t, k - 1);
      StepKeeps(u[|u| - 1].op, After(s, u[..|u| - 1]), u[|u| - 1].call);
    }
  }

  /**
   Watch survival: a name present in every full payload keeps the inode it has at any point of the
   run to the end of it, across every mix of `WriteFiles` and `WriteFile`, failed writes included.
   */
  lemma {:induction false} WatchSurvives(s: Fs, t: seq<Step>, n: Name, j: nat, k: nat)
    requires Inv(s) && LegalRun(s, t) && j <= k <= |t|
    requires forall x <- t :: Spares(x.op, n)
    ensures Keeps(After(s, t[..j]), After(s, t[..k]), n)
  {
    if j < k {
      WatchSurvives(s, t, n, j, k - 1);
      HealthyAtEveryCall(s, t, k - 1);
      LegalPrefix(s, t, k);
      var u := t[..k];
      assert u[..|u| - 1] == t[..k - 1] && u[|u| - 1] in t;
      StepKeeps(u[|u| - 1].op, After(s, t[..k - 1]), u[|u| - 1].call);
    }
  }

  // ---- The calls of one write ------------------------------------------------------------

  /** `t` is a (possibly stopped) series of calls one write makes from `s`. */
  predicate Legal(op: Op, s: Fs, t: seq<Call>) {
    t == [] ||
    (Legal(op, s, t[..|t| - 1]) && Permitted(op, Replay(s, t[..|t| - 1]), t[|t| - 1]))
  }

  function Steps(op: Op, u: seq<Call>): seq<Step> {
    if u == [] then [] else Steps(op, u[..|u| - 1]) + [Step(op, u[|u| - 1])]
  }

  /** What one write did, to its end or up to a failure, extends the run of everything before it. */
  lemma {:induction false} RunExtends(s: Fs, t: seq<Step>, op: Op, u: seq<Call>)
    requires LegalRun(s, t) && ValidOp(op) && Legal(op, After(s, t), u)
    ensures LegalRun(s, t + Steps(op, u)) && After(s, t + Steps(op, u)) == Replay(After(s, t), u)
  {
    if u == [] {
      assert t + [] == t;
    } else {
      var front := u[..|u| - 1];
      RunExtends(s, t, op, front);
      var all := t + Steps(op, u);
      assert all[..|all| - 1] == t + Steps(op, front);
    }
  }

  lemma {:induction false} ReplayConcat(s: Fs, t: seq<Call>, u: seq<Call>)
    ensures Replay(s, t + u) == Replay(Replay(s, t), u)
  {
    if u == [] {
      assert t + u == t;
    } else {
      assert (t + u)[..|t + u| - 1] == t + u[..|u| - 1];
      ReplayConcat(s, t, u[..|u| - 1]);
    }
  }

  lemma {:induction false} LegalConcat(op: Op, s: Fs, t: seq<Call>, u: seq<Call>)
    requires Legal(op, s, t) && Legal(op, Replay(s, t), u)
    ensures Legal(op, s, t + u)
  {
    if u == [] {
      assert t + u == t;
    } else {
      assert (t + u)[..|t + u| - 1] == t + u[..|u| - 1];
      LegalConcat(op, s, t, u[..|u| - 1]);
      ReplayConcat(s, t, u[..|u| - 1]);
    }
  }

  lemma {:induction false} LegalSplit(op: Op, s: Fs, t: seq<Call>, u: seq<Call>)
    requires Legal(op, s, t + u)
    ensures Legal(op, s, t) && Legal(op, Replay(s, t), u)
  {
    if u == [] {
      assert t + u == t;
    } else {
      assert (t + u)[..|t + u| - 1] == t + u[..|u| - 1];
      LegalSplit(op, s, t, u[..|u| - 1]);
      ReplayConcat(s, t, u[..|u| - 1]);
    }
  }

  /** One write keeps the invariant and the inodes it spares; names it never targets read the same. */
  lemma {:induction false} WriteKeeps(op: Op, s: Fs, t: seq<Call>)
    requires Inv(s) && ValidOp(op) && Legal(op, s, t)
    ensures Inv(Replay(s, t))
    ensures forall n :: Spares(op, n) ==> Keeps(s, Replay(s, t), n)
    ensures forall n :: Spares(op, n) && (forall c <- t :: Target(c) != Some(n)) ==>
      Lookup(Replay(s, t), n) == Lookup(s, n)
  {
    if t != [] {
      var front := t[..|t| - 1];
      WriteKeeps(op, s, front);
      StepKeeps(op, Replay(s, front), t[|t| - 1]);
      assert forall c <- front :: c in t;
    }
  }

  // ---- The certificate is written last -----------------------------------------------------

  /**
   From the first call on the certificate's file on, every call is on that file, and every other
   payload file already holds its new content.
   */
  predicate CertLast(s: Fs, files: map<Name, Bytes>, cert: Name, t: seq<Call>) {
    forall k | 0 <= k < |t| && Target(t[k]) == Some(cert) ::
      && (forall j | k <= j < |t| :: Target(t[j]) == Some(cert))
      && OthersWritten(Replay(s, t[..k]), files, cert)
  }

  predicate OthersWritten(s: Fs, files: map<Name, Bytes>, cert: Name) {
    forall n <- files :: n != cert ==> Lookup(s, n) == Some(files[n])
  }

  /**
   Once what is read at the certificate's name differs in any way from what was read before the
   write, every other payload file holds its new content and no later call touches another file.
   */
  lemma CertChangeMeansOthersDone(op: Op, s: Fs, cert: Name, t: seq<Call>, k: nat)
    requires Inv(s) && ValidOp(op) && Legal(op, s, t) && cert in op.files
    requires CertLast(s, op.files, cert, t) && k <= |t|
    requires Lookup(Replay(s, t[..k]), cert) != Lookup(s, cert)
    ensures OthersWritten(Replay(s, t[..k]), op.files, cert)
    ensures forall j | k <= j < |t| :: Target(t[j]) == Some(cert)
  {
    var u := t[..k];
    SplitAt(t, k, k);
    LegalSplit(op, s, u, t[k..]);
    WriteKeeps(op, s, u);
    var first :| 0 <= first < k && Target(t[first]) == Some(cert);
    CertFrom(s, op.files, cert, t, first, k);
    SplitAt(t, first, k);
    CertOnly(op, s, cert, t[..first], t[first..k]);
  }

  lemma SplitAt(t: seq<Call>, j: nat, k: nat)
    requires j <= k <= |t|
    ensures t[..k] == t[..j] + t[j..k] && t == t[..k] + t[k..]
  {
  }

  lemma CertFrom(s: Fs, files: map<Name, Bytes>, cert: Name, t: seq<Call>, first: nat, k: nat)
    requires CertLast(s, files, cert, t) && first <= k <= |t| && first < |t| && Target(t[first]) == Some(cert)
    ensures forall j | 0 <= j < k - first :: Target(t[first..k][j]) == Some(cert)
    ensures OthersWritten(Replay(s, t[..first]), files, cert)
  {
  }

  lemma CertOnly(op: Op, s: Fs, cert: Name, t: seq<Call>, u: seq<Call>)
    requires Inv(s) && ValidOp(op) && Legal(op, s, t + u) && cert in op.files
    requires OthersWritten(Replay(s, t), op.files, cert)
    requires forall j | 0 <= j < |u| :: Target(u[j]) == Some(cert)
    ensures OthersWritten(Replay(s, t + u), op.files, cert)
  {
    OthersStayWritten(op, s, t, u, cert);
  }

  lemma OthersStayWritten(op: Op, s: Fs, t: seq<Call>, u: seq<Call>, cert: Name)
    requires Inv(s) && ValidOp(op) && Legal(op, s, t + u) && cert in op.files
    requires OthersWritten(Replay(s, t), op.files, cert)
    requires forall c <- u :: Target(c) == Some(cert)
    ensures OthersWritten(Replay(s, t + u), op.files, cert)
  {
    LegalSplit(op, s, t, u);
    ReplayConcat(s, t, u);
    WriteKeeps(op, s, t);
    WriteKeeps(op, Replay(s, t), u);
  }
}
