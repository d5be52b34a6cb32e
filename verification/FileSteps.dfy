/**
 One file being written in place while others are at work on the same volume: the steps of the writer,
 what each keeps, and what two writers of the same file do to each other.
 */
module FileSteps {
  import opened Prelude
  import opened VolumeFs
  import opened InplaceSteps
  import opened InplaceRewrite
  import SharedFile

  /** Where `writeFileInPlace` is with one file. */
  datatype FilePc =
    | Compare                      // stat, and read the content that is there
    | Opening
    | Filling(ino: Ino, p: nat)    // `p` bytes are written
    | Owning(ino: Ino)             // content done; mode and group remain
    | Complete

  /** Its next system call on name `n`; chunks have any size. */
  predicate FileNext(op: Op, n: Name, s: Fs, pc: FilePc, s': Fs, pc': FilePc)
    requires n in op.files
  {
    var data := op.files[n];
    match pc
    case Compare =>
      && s' == s
      && (pc' == Opening || (pc'.Owning? && Lookup(s, n) == Some(data) && Resolve(s, n) == Some(pc'.ino)))
    case Opening =>
      && s.present && !IsDir(s, n) && pc'.Filling? && pc'.p == 0
      && (match Resolve(s, n)
          case Some(i) => s' == s && pc'.ino == i
          case None => s' == Apply(s, Create(n)) && pc'.ino == s.next)
    case Filling(i, p) =>
      if p < |data| then
        && pc'.Filling? && pc'.ino == i && p < pc'.p <= |data|
        && s' == Apply(s, WriteAt(n, i, p, data[p..pc'.p]))
      else
        pc' == Owning(i) && s' == Apply(s, Truncate(n, i, |data|))
    case Owning(i) =>
      || (s' == s && pc' == Complete)
      || (pc' == pc && s' == Apply(s, Chmod(n, i)))
      || (pc' == pc && op.group.Some? && s' == Apply(s, Chown(n, i, op.group.value)))
    case Complete => false
  }

  // ---- What a step keeps -----------------------------------------------------------------------------

  /** The open file is still the one the name leads to. */
  predicate Attached(s: Fs, n: Name, pc: FilePc) {
    match pc
    case Filling(i, _) => Resolve(s, n) == Some(i)
    case Owning(i) => Resolve(s, n) == Some(i)
    case _ => true
  }

  /** What the name reads; a file that is not there yet is empty. */
  function ContentAt(s: Fs, n: Name): Bytes {
    if Lookup(s, n).Some? then Lookup(s, n).value else []
  }

  /** How much of the file has the writer's content, unless somebody writes other bytes to it. */
  predicate Filled(s: Fs, n: Name, data: Bytes, pc: FilePc) {
    match pc
    case Filling(_, p) => Lookup(s, n).Some? && SharedFile.Intact(Lookup(s, n).value, data, p)
    case Owning(_) => Lookup(s, n) == Some(data)
    case Complete => Lookup(s, n) == Some(data)
    case _ => true
  }

  /** The call a file step makes is allowed, whatever has happened since the last one. */
  lemma FileNextKeeps(op: Op, n: Name, s: Fs, pc: FilePc, s': Fs, pc': FilePc)
    requires Inv(s) && Whole(s) && ValidOp(op) && n in op.files
    requires Attached(s, n, pc) && FileNext(op, n, s, pc, s', pc')
    ensures Inv(s') && Whole(s') && Attached(s', n, pc')
    ensures forall m :: Spares(op, m) ==> Keeps(s, s', m)
    ensures forall m :: Spares(op, m) && m != n ==> Lookup(s', m) == Lookup(s, m)
  {
    match pc
    case Opening =>
      if Resolve(s, n).None? {
        StepKeeps(op, s, Create(n));
        CreateStep(op, s, n);
      }
    case Filling(i, p) =>
      var data := op.files[n];
      var c := if p < |data| then WriteAt(n, i, p, data[p..pc'.p]) else Truncate(n, i, |data|);
      StepKeeps(op, s, c);
    case Owning(i) =>
      if s' == Apply(s, Chmod(n, i)) && pc' == pc {
        StepKeeps(op, s, Chmod(n, i));
      } else if pc' == pc {
        StepKeeps(op, s, Chown(n, i, op.group.value));
      }
    case _ =>
  }

  /** The entry of another name is as before, and no file has appeared behind it. */
  predicate SameEntry(s: Fs, t: Fs, m: Name) {
    && (m in t.root <==> m in s.root) && (m in s.root ==> t.root[m] == s.root[m])
    && (Behind(t, m) ==> Behind(s, m))
  }

  /** The current timestamped directory has a file of that name. */
  predicate Behind(s: Fs, m: Name) {
    Current(s).Some? && m in Current(s).value
  }

  lemma FileNextEntries(op: Op, n: Name, s: Fs, pc: FilePc, s': Fs, pc': FilePc, m: Name)
    requires n in op.files && FileNext(op, n, s, pc, s', pc') && m != n
    ensures SameEntry(s, s', m)
  {
  }

  // ---- Two writers of one file -------------------------------------------------------------------------

  /** The writer as one of those that share a file. */
  function WriterOf(pc: FilePc): SharedFile.Writer {
    match pc
    case Compare => SharedFile.Comparing
    case Opening => SharedFile.Writing(0)
    case Filling(_, p) => SharedFile.Writing(p)
    case _ => SharedFile.Finished
  }

  /** Each step is one call of such a writer, or leaves file and writer as they are. */
  lemma FileNextIsShared(op: Op, n: Name, s: Fs, pc: FilePc, s': Fs, pc': FilePc)
    requires Inv(s) && n in op.files && FileNext(op, n, s, pc, s', pc')
    requires Attached(s, n, pc) && Inv(s') && Attached(s', n, pc')
    requires pc.Filling? ==> pc.p <= |op.files[n]|
    ensures (ContentAt(s', n) == ContentAt(s, n) && WriterOf(pc') == WriterOf(pc))
      || SharedFile.WriterNext(ContentAt(s, n), WriterOf(pc), op.files[n], ContentAt(s', n), WriterOf(pc'))
    ensures Lookup(s, n).Some? || pc'.Filling? || pc'.Owning? ==> Lookup(s', n).Some?
  {
    assert Resolve(s, n).Some? ==> n in s.root;
  }

  /** Where nobody writes other bytes, the part written so far stays written. */
  lemma FileNextFills(op: Op, n: Name, s: Fs, pc: FilePc, s': Fs, pc': FilePc)
    requires Inv(s) && n in op.files && FileNext(op, n, s, pc, s', pc')
    requires Attached(s, n, pc) && Filled(s, n, op.files[n], pc) && Inv(s') && Attached(s', n, pc')
    ensures Filled(s', n, op.files[n], pc')
  {
    FileNextIsShared(op, n, s, pc, s', pc');
    var c, c', w, w' := ContentAt(s, n), ContentAt(s', n), WriterOf(pc), WriterOf(pc');
    if SharedFile.WriterNext(c, w, op.files[n], c', w') {
      SharedFile.OwnBytes(c, w, op.files[n], c', w');
    }
  }

  /** A writer of the same bytes leaves in place what this one has written. */
  lemma FileNextShares(op: Op, n: Name, s: Fs, pc: FilePc, s': Fs, pc': FilePc, other: FilePc)
    requires Inv(s) && n in op.files && FileNext(op, n, s, pc, s', pc')
    requires Attached(s, n, pc) && Filled(s, n, op.files[n], pc) && Inv(s') && Attached(s', n, pc')
    ensures Filled(s, n, op.files[n], other) ==> Filled(s', n, op.files[n], other)
    ensures Lookup(s, n) == Some(op.files[n]) ==> Lookup(s', n) == Some(op.files[n])
  {
    FileNextIsShared(op, n, s, pc, s', pc');
    var c, c', w, w', data := ContentAt(s, n), ContentAt(s', n), WriterOf(pc), WriterOf(pc'), op.files[n];
    if SharedFile.WriterNext(c, w, data, c', w') {
      if c == data {
        SharedFile.DataStays(w, data, c', w');
      }
      if other.Filling? && SharedFile.Intact(c, data, other.p) {
        SharedFile.OthersBytes(c, data, other.p, w, data, c', w');
      }
    }
  }

  // ---- The writer itself takes these steps ---------------------------------------------------------------

  /** Where a writer is that has got so far on its open file `i`. */
  function PcOf(progress: Progress, i: Ino): FilePc {
    match progress
    case Wrote(p) => Filling(i, p)
    case _ => Owning(i)
  }

  lemma WriterStep(op: Op, s: Fs, n: Name, i: Ino, before: Progress, c: Call)
    requires n in op.files && Permitted(op, s, c)
    requires !Advance(before, c, n, i, op.files[n]).Other?
    ensures FileNext(op, n, s, PcOf(before, i), Apply(s, c), PcOf(Advance(before, c, n, i, op.files[n]), i))
  {
  }

  /** Each call the in-place writer makes on an open file is a step of the race above. */
  lemma WriterTakesSteps(op: Op, s: Fs, n: Name, i: Ino, u: seq<Call>, k: nat)
    requires n in op.files && Legal(op, s, u) && k < |u|
    requires !ProgressOf(u, n, i, op.files[n]).Other?
    ensures FileNext(op, n,
      Replay(s, u[..k]), PcOf(ProgressOf(u[..k], n, i, op.files[n]), i),
      Replay(s, u[..k + 1]), PcOf(ProgressOf(u[..k + 1], n, i, op.files[n]), i))
  {
    var t := u[..k + 1];
    SplitAt(u, k + 1, k + 1);
    LegalSplit(op, s, t, u[k + 1..]);
    ProgressPrefix(u, k + 1, n, i, op.files[n]);
    assert t[..|t| - 1] == u[..k];
    WriterStep(op, Replay(s, u[..k]), n, i, ProgressOf(u[..k], n, i, op.files[n]), u[k]);
  }
}
