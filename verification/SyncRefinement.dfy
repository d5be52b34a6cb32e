/**
 That the trust bundle protocol is about the writer as it stands: whatever the in-place writer does to
 the CA file of a volume is a series of the calls the protocol allows a renewal, and a pass.
 */
module SyncRefinement {
  import opened Prelude
  import opened VolumeFs
  import opened InplaceSteps
  import opened InplaceStorage
  import opened FileSteps
  import opened RaceRefinement
  import SharedFile
  import CaRun

  /** The writer as the protocol sees it; a file that is to be opened counts as not opened yet. */
  function WriterSeen(pc: FilePc): SharedFile.Writer {
    match pc
    case Compare => SharedFile.Comparing
    case Opening => SharedFile.Comparing
    case Filling(_, p) => SharedFile.Writing(p)
    case _ => SharedFile.Finished
  }

  /** The call the protocol sees in a step, if it sees one. */
  function CallSeen(pc: FilePc, pc': FilePc): Option<CaRun.FileCall> {
    match (pc, pc')
    case (Compare, Owning(_)) => Some(CaRun.Same)
    case (Opening, Filling(_, _)) => Some(CaRun.Open)
    case (Filling(_, _), Filling(_, q)) => Some(CaRun.Chunk(q))
    case (Filling(_, _), Owning(_)) => Some(CaRun.Cut)
    case _ => None
  }

  /** The writer has not got past its data, and its file is where its name leads. */
  predicate Sound(op: Op, n: Name, s: Fs, pc: FilePc)
    requires n in op.files
  {
    Inv(s) && Whole(s) && ValidOp(op) && Attached(s, n, pc) && (pc.Filling? ==> pc.p <= |op.files[n]|)
  }

  lemma StepSeen(op: Op, n: Name, s: Fs, pc: FilePc, s': Fs, pc': FilePc)
    requires n in op.files && Sound(op, n, s, pc) && FileNext(op, n, s, pc, s', pc')
    ensures Sound(op, n, s', pc')
    ensures match CallSeen(pc, pc')
      case Some(call) =>
        && CaRun.CallPossible(true, Lookup(s, n), WriterSeen(pc), op.files[n], call)
        && CaRun.AfterCall(Lookup(s, n), WriterSeen(pc), op.files[n], call) == (Lookup(s', n), WriterSeen(pc'))
      case None => Lookup(s', n) == Lookup(s, n) && WriterSeen(pc') == WriterSeen(pc)
  {
    FileNextKeeps(op, n, s, pc, s', pc');
    if pc.Filling? {
      WriteSeen(op, n, s, pc, s', pc');
    } else if pc.Opening? {
      OpenSeen(op, n, s, s', pc');
    } else {
      assert Resolve(s, n).Some? ==> n in s.root;
    }
  }

  lemma OpenSeen(op: Op, n: Name, s: Fs, s': Fs, pc': FilePc)
    requires n in op.files && Inv(s) && FileNext(op, n, s, Opening, s', pc') && Attached(s', n, pc')
    ensures CaRun.AfterCall(Lookup(s, n), SharedFile.Comparing, op.files[n], CaRun.Open) ==
      (Lookup(s', n), WriterSeen(pc'))
  {
    assert Resolve(s, n).Some? ==> n in s.root;
  }

  lemma WriteSeen(op: Op, n: Name, s: Fs, pc: FilePc, s': Fs, pc': FilePc)
    requires n in op.files && pc.Filling? && Sound(op, n, s, pc) && FileNext(op, n, s, pc, s', pc')
    requires Attached(s', n, pc')
    ensures CallSeen(pc, pc').Some?
    ensures var call := CallSeen(pc, pc').value;
      && CaRun.CallPossible(true, Lookup(s, n), WriterSeen(pc), op.files[n], call)
      && CaRun.AfterCall(Lookup(s, n), WriterSeen(pc), op.files[n], call) == (Lookup(s', n), WriterSeen(pc'))
  {
    assert n in s.root;
  }

  /** The protocol with one renewal's writer, and the file of its volume, where the path has got to. */
  function RenewalAt(cs: CaRun.State, v: CaRun.Vol, data: Bytes, file: Option<Bytes>, w: SharedFile.Writer)
    : CaRun.State
  {
    cs.(vols := cs.vols[v := file],
        renewing := if w.Finished? then cs.renewing - {v} else cs.renewing[v := CaRun.Renewal(data, w)])
  }

  /** The same for the pass. */
  function PassAt(cs: CaRun.State, v: CaRun.Vol, file: Option<Bytes>, w: SharedFile.Writer): CaRun.State
    requires cs.pc.Passing? && cs.pc.job.Some?
  {
    cs.(vols := cs.vols[v := file], pc := CaRun.Advanced(cs.pc, w))
  }

  /** The volume's file is the one the path starts from, and its renewal is about to compare. */
  predicate RenewalStarts(cs: CaRun.State, v: CaRun.Vol, data: Bytes, file: Option<Bytes>) {
    && cs.inPlace && v in cs.vols && cs.vols[v] == file
    && v in cs.renewing && cs.renewing[v] == CaRun.Renewal(data, SharedFile.Comparing)
  }

  predicate PassStarts(cs: CaRun.State, v: CaRun.Vol, data: Bytes, file: Option<Bytes>) {
    && cs.inPlace && v in cs.vols && cs.vols[v] == file
    && cs.pc.Passing? && cs.pc.job == Some(CaRun.Job(v, data, SharedFile.Comparing, false))
  }

  predicate CallsOf(run: seq<CaRun.Action>, v: CaRun.Vol) {
    forall a <- run :: a.RenewCall? && a.v == v
  }

  predicate CallsOfPass(run: seq<CaRun.Action>) {
    forall a <- run :: a.PassCall?
  }

  /** Along a path of file steps the renewal makes its calls. */
  lemma {:induction false} RenewalFollows(op: Op, n: Name, path: seq<FileState>, k: nat, cs: CaRun.State, v: CaRun.Vol)
    returns (run: seq<CaRun.Action>)
    requires n in op.files && FilePath(op, n, path) && k < |path|
    requires Sound(op, n, path[0].fs, path[0].pc) && path[0].pc == Compare
    requires RenewalStarts(cs, v, op.files[n], Lookup(path[0].fs, n))
    ensures Sound(op, n, path[k].fs, path[k].pc)
    ensures CaRun.Runs(cs, run) && CallsOf(run, v)
    ensures CaRun.After(cs, run) == RenewalAt(cs, v, op.files[n], Lookup(path[k].fs, n), WriterSeen(path[k].pc))
  {
    if k == 0 {
      run := [];
      assert cs.vols[v := cs.vols[v]] == cs.vols && cs.renewing[v := cs.renewing[v]] == cs.renewing;
    } else {
      run := RenewalFollows(op, n, path, k - 1, cs, v);
      var a, b := path[k - 1], path[k - 1 + 1];
      assert FileNext(op, n, a.fs, a.pc, b.fs, b.pc);
      StepSeen(op, n, a.fs, a.pc, b.fs, b.pc);
      var call := CallSeen(a.pc, b.pc);
      if call.Some? {
        RenewalGoesOn(cs, v, op.files[n], run, a, b, n, call.value);
        run := run + [CaRun.RenewCall(v, call.value)];
      }
    }
  }

  lemma RenewalGoesOn(cs: CaRun.State, v: CaRun.Vol, data: Bytes, run: seq<CaRun.Action>, a: FileState, b: FileState,
      n: Name, call: CaRun.FileCall)
    requires cs.inPlace && CaRun.Runs(cs, run)
    requires CaRun.After(cs, run) == RenewalAt(cs, v, data, Lookup(a.fs, n), WriterSeen(a.pc))
    requires CaRun.CallPossible(true, Lookup(a.fs, n), WriterSeen(a.pc), data, call)
    requires CaRun.AfterCall(Lookup(a.fs, n), WriterSeen(a.pc), data, call) == (Lookup(b.fs, n), WriterSeen(b.pc))
    ensures var longer := run + [CaRun.RenewCall(v, call)];
      && CaRun.Runs(cs, longer)
      && CaRun.After(cs, longer) == RenewalAt(cs, v, data, Lookup(b.fs, n), WriterSeen(b.pc))
  {
    var t := CaRun.After(cs, run);
    CaRun.RunsOne(t, CaRun.RenewCall(v, call));
    CaRun.RunsConcat(cs, run, [CaRun.RenewCall(v, call)]);
    RenewalMoves(cs, v, data, Lookup(a.fs, n), WriterSeen(a.pc), Lookup(b.fs, n), WriterSeen(b.pc));
  }

  lemma RenewalMoves(cs: CaRun.State, v: CaRun.Vol, data: Bytes, file: Option<Bytes>, w: SharedFile.Writer,
      file': Option<Bytes>, w': SharedFile.Writer)
    requires !w.Finished?
    ensures RenewalAt(RenewalAt(cs, v, data, file, w), v, data, file', w') == RenewalAt(cs, v, data, file', w')
  {
    var t, u := RenewalAt(RenewalAt(cs, v, data, file, w), v, data, file', w'), RenewalAt(cs, v, data, file', w');
    assert t.vols == u.vols;
    assert t.renewing == u.renewing;
  }

  /** Along a path of file steps the pass makes its calls. */
  lemma {:induction false} PassFollows(op: Op, n: Name, path: seq<FileState>, k: nat, cs: CaRun.State, v: CaRun.Vol)
    returns (run: seq<CaRun.Action>)
    requires n in op.files && FilePath(op, n, path) && k < |path|
    requires Sound(op, n, path[0].fs, path[0].pc) && path[0].pc == Compare
    requires PassStarts(cs, v, op.files[n], Lookup(path[0].fs, n))
    ensures Sound(op, n, path[k].fs, path[k].pc)
    ensures CaRun.Runs(cs, run) && CallsOfPass(run)
    ensures CaRun.After(cs, run) == PassAt(cs, v, Lookup(path[k].fs, n), WriterSeen(path[k].pc))
  {
    if k == 0 {
      run := [];
      assert cs.vols[v := cs.vols[v]] == cs.vols;
    } else {
      run := PassFollows(op, n, path, k - 1, cs, v);
      var a, b := path[k - 1], path[k - 1 + 1];
      assert FileNext(op, n, a.fs, a.pc, b.fs, b.pc);
      StepSeen(op, n, a.fs, a.pc, b.fs, b.pc);
      var call := CallSeen(a.pc, b.pc);
      if call.Some? {
        PassGoesOn(cs, v, op.files[n], run, a, b, n, call.value);
        run := run + [CaRun.PassCall(call.value)];
      }
    }
  }

  lemma PassGoesOn(cs: CaRun.State, v: CaRun.Vol, data: Bytes, run: seq<CaRun.Action>, a: FileState, b: FileState,
      n: Name, call: CaRun.FileCall)
    requires cs.inPlace && cs.pc.Passing? && CaRun.Runs(cs, run)
    requires cs.pc.job == Some(CaRun.Job(v, data, SharedFile.Comparing, false))
    requires CaRun.After(cs, run) == PassAt(cs, v, Lookup(a.fs, n), WriterSeen(a.pc))
    requires CaRun.CallPossible(true, Lookup(a.fs, n), WriterSeen(a.pc), data, call)
    requires CaRun.AfterCall(Lookup(a.fs, n), WriterSeen(a.pc), data, call) == (Lookup(b.fs, n), WriterSeen(b.pc))
    ensures var longer := run + [CaRun.PassCall(call)];
      CaRun.Runs(cs, longer) && CaRun.After(cs, longer) == PassAt(cs, v, Lookup(b.fs, n), WriterSeen(b.pc))
  {
    var t := CaRun.After(cs, run);
    CaRun.RunsOne(t, CaRun.PassCall(call));
    CaRun.RunsConcat(cs, run, [CaRun.PassCall(call)]);
    assert t.vols[v := Lookup(b.fs, n)] == PassAt(cs, v, Lookup(b.fs, n), WriterSeen(b.pc)).vols;
  }

  /**
   Whatever `WriteFileInPlace` does to the CA file, to its end or up to a failure, is a series of calls of a
   renewal in the protocol, and leaves in the protocol's volume what a pod reads.
   */
  lemma WriterIsRenewal(op: Op, s: Fs, n: Name, t: seq<Call>, done: bool, cs: CaRun.State, v: CaRun.Vol)
    returns (run: seq<CaRun.Action>)
    requires Inv(s) && Whole(s) && s.present && ValidOp(op) && n in op.files && !IsDir(s, n)
    requires Ran(op, s, t, Replay(s, t)) && WritesOneFile(s, n, op.files[n], t, done)
    requires RenewalStarts(cs, v, op.files[n], Lookup(s, n))
    ensures CaRun.Runs(cs, run) && CallsOf(run, v)
    ensures CaRun.After(cs, run).vols == cs.vols[v := Lookup(Replay(s, t), n)]
    ensures done ==> v !in CaRun.After(cs, run).renewing
  {
    var path := FileFollows(op, s, n, t, done);
    run := RenewalFollows(op, n, path, |path| - 1, cs, v);
  }

  /** The same for the pass. */
  lemma WriterIsPass(op: Op, s: Fs, n: Name, t: seq<Call>, done: bool, cs: CaRun.State, v: CaRun.Vol)
    returns (run: seq<CaRun.Action>)
    requires Inv(s) && Whole(s) && s.present && ValidOp(op) && n in op.files && !IsDir(s, n)
    requires Ran(op, s, t, Replay(s, t)) && WritesOneFile(s, n, op.files[n], t, done)
    requires PassStarts(cs, v, op.files[n], Lookup(s, n))
    ensures CaRun.Runs(cs, run) && CallsOfPass(run)
    ensures CaRun.After(cs, run).vols == cs.vols[v := Lookup(Replay(s, t), n)]
    ensures done ==> CaRun.After(cs, run).pc == CaRun.Passing(cs.pc.todo - {v}, None)
  {
    var path := FileFollows(op, s, n, t, done);
    run := PassFollows(op, n, path, |path| - 1, cs, v);
  }
}
