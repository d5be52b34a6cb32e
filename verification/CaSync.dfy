/** When the trust bundle protocol comes to rest, and what then holds on the volumes. */
module CaSync {
  import opened Prelude
  import opened VolumeFs
  import opened SharedFile
  import opened CaRun
  import RootCa

  // ---- Quiescence ------------------------------------------------------------------------------------------

  /**
   Something is on its way that is to start another pass. It will, unless the loop gets blocked for good
   before it does.
   */
  predicate Pending(s: State) {
    s.inflight > 0 || Tokens(s) > 0
  }

  predicate Quiescent(s: State) {
    s.pc.Selecting? && !Pending(s)
  }

  /** A renewal has the CA file open. */
  predicate InRenewal(s: State, v: Vol) {
    v in s.renewing && s.renewing[v].writer.Writing?
  }

  /** A CA file that has been written, and that no renewal is writing, holds the current bundle. */
  predicate InSync(s: State, v: Vol) {
    v in s.vols && s.vols[v].Some? && !InRenewal(s, v) ==> s.vols[v] == Some(s.bundle)
  }

  predicate Synced(s: State) {
    forall v <- s.vols :: InSync(s, v)
  }

  /** The pass is at the volume. */
  predicate AtJob(s: State, v: Vol) {
    s.pc.Passing? && s.pc.job.Some? && s.pc.job.value.vol == v
  }

  /** The pass has the CA file open. */
  predicate InPass(s: State, v: Vol) {
    AtJob(s, v) && !s.pc.job.value.gone && s.pc.job.value.writer.Writing?
  }

  /** The pass has yet to finish with the volume. */
  predicate Ahead(s: State, v: Vol) {
    s.pc.Passing? && v in s.pc.todo && !(AtJob(s, v) && s.pc.job.value.gone)
  }

  predicate WriterShape(w: Writer, pem: Bytes) {
    !w.Finished? && (w.Writing? ==> w.p <= |pem|)
  }

  /** Open files exist, no writer has got past its data, and the loop has not quit unasked. */
  predicate Shape(s: State) {
    && QuitsWhenTold(s)
    && (s.pc.Passing? && s.pc.job.Some? ==>
          var j := s.pc.job.value;
          && j.vol in s.pc.todo && WriterShape(j.writer, j.pem)
          && (j.gone ==> j.writer.Writing?)
          && (j.writer.Writing? && !j.gone ==> j.vol in s.vols && s.vols[j.vol].Some?))
    && (forall v <- s.renewing ::
          && v in s.vols && WriterShape(s.renewing[v].writer, s.renewing[v].pem)
          && (s.renewing[v].writer.Writing? ==> s.vols[v].Some?))
  }

  /** With this content the volume ends up right, if no renewal touches it before the present pass is over. */
  predicate Mends(s: State, v: Vol, file: Option<Bytes>) {
    if InPass(s, v) then Intact(Held(file), s.bundle, s.pc.job.value.writer.p)
    else Ahead(s, v) || file.None? || file == Some(s.bundle)
  }

  /** An old bundle is being written. */
  predicate Stale(s: State, v: Vol) {
    InRenewal(s, v) && s.renewing[v].pem != s.bundle
  }

  /** The current bundle is being written. */
  predicate Fresh(s: State, v: Vol) {
    InRenewal(s, v) && s.renewing[v].pem == s.bundle
  }

  predicate Fine(s: State, v: Vol)
    requires v in s.vols
  {
    || Stale(s, v)
    || Mends(s, v, s.vols[v])
    || (Fresh(s, v) && !Ahead(s, v) && Intact(Held(s.vols[v]), s.bundle, s.renewing[v].writer.p))
  }

  predicate JobCurrent(s: State) {
    s.pc.Passing? && s.pc.job.Some? ==> s.pc.job.value.pem == s.bundle
  }

  predicate SyncInv(s: State) {
    Shape(s) && (!s.cancelled && !Pending(s) ==> JobCurrent(s) && forall v <- s.vols :: Fine(s, v))
  }

  /** The step ends a renewal's write of `v`, complete or not. */
  predicate Ends(s: State, a: Action, v: Vol)
    requires Enabled(s, a)
  {
    || (a.RenewCall? && a.v == v && (a.call.Cut? || a.call.Whole?))
    || (a.RenewDrop? && a.v == v && InRenewal(s, v))
  }

  /** What is in the file when the renewal's write has ended. */
  function Left(s: State, a: Action, v: Vol): Option<Bytes>
    requires Enabled(s, a)
  {
    if v in Next(s, a).vols then Next(s, a).vols[v] else None
  }

  /**
   A renewal's write ends at a moment when that does no harm of its own: another pass is due; or the
   present pass has yet to open the file; or it has it open, and all that it has written is still in
   place; or the file is right.
   */
  predicate Harmless(s: State, v: Vol, left: Option<Bytes>) {
    Pending(s) || Mends(s, v, left)
  }

  predicate HarmlessStep(s: State, a: Action)
    requires Enabled(s, a)
  {
    a.RenewCall? || a.RenewDrop? ==> Ends(s, a, a.v) ==> Harmless(s, a.v, Left(s, a, a.v))
  }

  predicate HarmlessRun(s: State, run: seq<Action>)
    requires Runs(s, run)
    decreases |run|
  {
    run == [] || (HarmlessStep(s, run[0]) && HarmlessRun(Next(s, run[0]), run[1..]))
  }

  /** A writer opens the file only where it has read something else, not because it failed to read it. */
  predicate ReadStep(s: State, a: Action)
    requires Enabled(s, a)
  {
    match a
    case PassCall(call) =>
      var j := s.pc.job.value;
      call.Open? || call.Whole? ==> JobFile(s, j) != Some(j.pem)
    case RenewCall(v, call) => call.Open? || call.Whole? ==> s.vols[v] != Some(s.renewing[v].pem)
    case _ => true
  }

  predicate ReadRun(s: State, run: seq<Action>)
    requires Runs(s, run)
    decreases |run|
  {
    run == [] || (ReadStep(s, run[0]) && ReadRun(Next(s, run[0]), run[1..]))
  }

  // ---- One call on a file ------------------------------------------------------------------------------------

  /** In place, the calls are those of the writers of a shared file. */
  lemma CallIsNext(inPlace: bool, file: Option<Bytes>, w: Writer, pem: Bytes, call: FileCall)
    requires CallPossible(inPlace, file, w, pem, call) && !call.Whole?
    ensures var (file', w') := AfterCall(file, w, pem, call);
      WriterNext(Held(file), w, pem, Held(file'), w')
  {
  }

  lemma OwnCall(inPlace: bool, file: Option<Bytes>, w: Writer, pem: Bytes, call: FileCall)
    requires CallPossible(inPlace, file, w, pem, call) && (w.Writing? ==> Intact(Held(file), pem, w.p))
    ensures var (file', w') := AfterCall(file, w, pem, call);
      && (w'.Writing? ==> Intact(Held(file'), pem, w'.p))
      && (w'.Finished? ==> file' == Some(pem))
  {
    if !call.Whole? {
      CallIsNext(inPlace, file, w, pem, call);
      var (file', w') := AfterCall(file, w, pem, call);
      OwnBytes(Held(file), w, pem, Held(file'), w');
    }
  }

  /** Another writer of the same bytes leaves them in place. */
  lemma OtherCall(inPlace: bool, file: Option<Bytes>, w: Writer, pem: Bytes, call: FileCall, p: nat)
    requires CallPossible(inPlace, file, w, pem, call) && p <= |pem|
    ensures var (file', w') := AfterCall(file, w, pem, call);
      && (Intact(Held(file), pem, p) ==> Intact(Held(file'), pem, p))
      && (file == Some(pem) ==> file' == Some(pem))
  {
    if !call.Whole? {
      CallIsNext(inPlace, file, w, pem, call);
      var (file', w') := AfterCall(file, w, pem, call);
      if Intact(Held(file), pem, p) {
        OthersBytes(Held(file), pem, p, w, pem, Held(file'), w');
      }
      if file == Some(pem) {
        DataStays(w, pem, Held(file'), w');
      }
    }
  }

  // ---- The invariant -----------------------------------------------------------------------------------------

  lemma ShapeStep(s: State, a: Action)
    requires Shape(s) && Enabled(s, a)
    ensures Shape(Next(s, a))
  {
    match a
    case PassCall(call) => PassCallShape(s, call);
    case RenewCall(v, call) => RenewCallShape(s, v, call);
    case Unpublish(v) => UnpublishShape(s, v);
    case PassFail(left) => PassFailShape(s, left);
    case _ => OtherShape(s, a);
  }

  lemma PassCallShape(s: State, call: FileCall)
    requires Shape(s) && Enabled(s, PassCall(call))
    ensures Shape(Next(s, PassCall(call)))
  {
  }

  lemma RenewCallShape(s: State, v: Vol, call: FileCall)
    requires Shape(s) && Enabled(s, RenewCall(v, call))
    ensures Shape(Next(s, RenewCall(v, call)))
  {
  }

  lemma UnpublishShape(s: State, v: Vol)
    requires Shape(s) && Enabled(s, Unpublish(v))
    ensures Shape(Next(s, Unpublish(v)))
  {
  }

  lemma PassFailShape(s: State, left: Option<Bytes>)
    requires Shape(s) && Enabled(s, PassFail(left))
    ensures Shape(Next(s, PassFail(left)))
  {
  }

  lemma OtherShape(s: State, a: Action)
    requires Shape(s) && Enabled(s, a) && !a.PassCall? && !a.RenewCall? && !a.Unpublish? && !a.PassFail?
    ensures Shape(Next(s, a))
  {
  }

  /** A renewal's call keeps its volume fine. */
  lemma RenewCallFine(s: State, v: Vol, call: FileCall)
    requires Shape(s) && v in s.vols && Fine(s, v) && JobCurrent(s) && !Pending(s)
    requires Enabled(s, RenewCall(v, call)) && HarmlessStep(s, RenewCall(v, call))
    ensures Fine(Next(s, RenewCall(v, call)), v)
  {
    var r := s.renewing[v];
    if r.pem == s.bundle {
      if InPass(s, v) {
        OtherCall(s.inPlace, s.vols[v], r.writer, r.pem, call, s.pc.job.value.writer.p);
      } else if !Ahead(s, v) {
        OtherCall(s.inPlace, s.vols[v], r.writer, r.pem, call, 0);
        if s.vols[v] != Some(s.bundle) {
          OwnCall(s.inPlace, s.vols[v], r.writer, r.pem, call);
        }
      }
    }
  }

  /** The pass's call keeps its volume fine. */
  lemma PassCallFine(s: State, call: FileCall)
    requires Shape(s) && JobCurrent(s) && !Pending(s) && Enabled(s, PassCall(call))
    requires !s.pc.job.value.gone && Fine(s, s.pc.job.value.vol)
    ensures Fine(Next(s, PassCall(call)), s.pc.job.value.vol)
  {
    var j := s.pc.job.value;
    if !Stale(s, j.vol) {
      OwnCall(s.inPlace, s.vols[j.vol], j.writer, j.pem, call);
    }
  }

  /** Nothing that the volume's state depends on has changed. */
  predicate Unmoved(s: State, t: State, v: Vol) {
    && v in s.vols && v in t.vols && t.vols[v] == s.vols[v] && t.bundle == s.bundle
    && (v in t.renewing <==> v in s.renewing) && (v in s.renewing ==> t.renewing[v] == s.renewing[v])
    && Ahead(t, v) == Ahead(s, v) && InPass(t, v) == InPass(s, v)
    && (InPass(s, v) ==> t.pc.job == s.pc.job)
  }

  lemma UnmovedFine(s: State, t: State, v: Vol)
    requires Unmoved(s, t, v) && Fine(s, v)
    ensures Fine(t, v)
  {
  }

  lemma SyncStep(s: State, a: Action)
    requires SyncInv(s) && Enabled(s, a) && HarmlessStep(s, a)
    ensures SyncInv(Next(s, a))
  {
    ShapeStep(s, a);
    var t := Next(s, a);
    if !t.cancelled && !Pending(t) && !a.StartPass? {
      assert !Pending(s);
      forall v <- t.vols
        ensures Fine(t, v)
      {
        FineStep(s, a, v);
      }
    }
  }

  lemma FineStep(s: State, a: Action, v: Vol)
    requires SyncInv(s) && !s.cancelled && !Pending(s) && Enabled(s, a) && HarmlessStep(s, a)
    requires !a.StartPass? && !Pending(Next(s, a)) && v in Next(s, a).vols
    ensures Fine(Next(s, a), v)
  {
    match a
    case RenewCall(u, call) => FineAfterRenewCall(s, u, call, v);
    case PassCall(call) => FineAfterPassCall(s, call, v);
    case RenewDrop(u) => FineAfterDrop(s, u, v);
    case Register(u) => FineAfterRegister(s, u, v);
    case Unpublish(u) => FineAfterUnpublish(s, u, v);
    case _ => FineAfterOther(s, a, v);
  }

  lemma FineAfterRenewCall(s: State, u: Vol, call: FileCall, v: Vol)
    requires SyncInv(s) && !s.cancelled && !Pending(s) && Enabled(s, RenewCall(u, call)) && v in s.vols
    requires HarmlessStep(s, RenewCall(u, call))
    ensures Fine(Next(s, RenewCall(u, call)), v)
  {
    assert Fine(s, v);
    if u == v {
      RenewCallFine(s, v, call);
    } else {
      UnmovedFine(s, Next(s, RenewCall(u, call)), v);
    }
  }

  lemma FineAfterPassCall(s: State, call: FileCall, v: Vol)
    requires SyncInv(s) && !s.cancelled && !Pending(s) && Enabled(s, PassCall(call)) && v in s.vols
    ensures Fine(Next(s, PassCall(call)), v)
  {
    assert Fine(s, v);
    if AtJob(s, v) && !s.pc.job.value.gone {
      PassCallFine(s, call);
    } else {
      UnmovedFine(s, Next(s, PassCall(call)), v);
    }
  }

  lemma FineAfterDrop(s: State, u: Vol, v: Vol)
    requires SyncInv(s) && !s.cancelled && !Pending(s) && Enabled(s, RenewDrop(u)) && v in s.vols
    requires HarmlessStep(s, RenewDrop(u))
    ensures Fine(Next(s, RenewDrop(u)), v)
  {
    assert Fine(s, v);
    if u != v {
      UnmovedFine(s, Next(s, RenewDrop(u)), v);
    }
  }

  lemma FineAfterRegister(s: State, u: Vol, v: Vol)
    requires SyncInv(s) && !s.cancelled && !Pending(s) && Enabled(s, Register(u)) && v in s.vols.Keys + {u}
    ensures Fine(Next(s, Register(u)), v)
  {
    if u != v {
      assert Fine(s, v);
      UnmovedFine(s, Next(s, Register(u)), v);
    }
  }

  lemma FineAfterUnpublish(s: State, u: Vol, v: Vol)
    requires SyncInv(s) && !s.cancelled && !Pending(s) && Enabled(s, Unpublish(u)) && v in s.vols && v != u
    ensures Fine(Next(s, Unpublish(u)), v)
  {
    assert Fine(s, v);
    UnmovedFine(s, Next(s, Unpublish(u)), v);
  }

  /** Steps that touch no file. */
  lemma FineAfterOther(s: State, a: Action, v: Vol)
    requires SyncInv(s) && !s.cancelled && !Pending(s) && Enabled(s, a) && !Pending(Next(s, a)) && v in s.vols
    requires !a.StartPass? && !a.RenewCall? && !a.PassCall? && !a.RenewDrop? && !a.Register? && !a.Unpublish?
    ensures Fine(Next(s, a), v)
  {
    assert Fine(s, v);
  }

  lemma {:induction false} SyncRun(s: State, run: seq<Action>)
    requires SyncInv(s) && Runs(s, run) && HarmlessRun(s, run)
    ensures SyncInv(After(s, run))
    decreases |run|
  {
    if run != [] {
      SyncStep(s, run[0]);
      SyncRun(Next(s, run[0]), run[1..]);
    }
  }

  /**
   Quiescence implies sync: subscribed with all volumes in sync, and with harmless renewals only,
   whenever no sender, token, retry or pass is outstanding, every listed CA file that has been written,
   and is not being written by a renewal at that moment, holds the current bundle.
   */
  lemma QuiescentIsSynced(s: State, run: seq<Action>)
    requires Initial(s) && Synced(s) && Runs(s, run) && HarmlessRun(s, run)
    requires !After(s, run).cancelled && Quiescent(After(s, run))
    ensures Synced(After(s, run))
  {
    SyncRun(s, run);
  }

  predicate AllThere(s: State) {
    forall v <- s.vols :: s.vols[v].Some?
  }

  predicate NoRegistration(run: seq<Action>) {
    forall a <- run :: !a.Register?
  }

  lemma FilesStep(s: State, a: Action)
    requires AllThere(s) && Shape(s) && Enabled(s, a) && !a.Register?
    ensures AllThere(Next(s, a))
  {
  }

  lemma {:induction false} FilesStay(s: State, run: seq<Action>)
    requires AllThere(s) && Shape(s) && Runs(s, run) && NoRegistration(run)
    ensures AllThere(After(s, run))
    decreases |run|
  {
    if run != [] {
      assert run[0] in run;
      assert forall a <- run[1..] :: a in run;
      ShapeStep(s, run[0]);
      FilesStep(s, run[0]);
      FilesStay(Next(s, run[0]), run[1..]);
    }
  }

  /** Where every volume had its CA file to begin with and none is registered, none is exempt. */
  lemma EveryVolumeHoldsBundle(s: State, run: seq<Action>, v: Vol)
    requires Initial(s) && Synced(s) && AllThere(s) && Runs(s, run) && HarmlessRun(s, run) && NoRegistration(run)
    requires !After(s, run).cancelled && Quiescent(After(s, run))
    requires v in After(s, run).vols && !InRenewal(After(s, run), v)
    ensures After(s, run).vols[v] == Some(After(s, run).bundle)
  {
    QuiescentIsSynced(s, run);
    FilesStay(s, run);
    assert InSync(After(s, run), v);
  }

  /**
   Every quiescent state that can be reached from `s` by harmless renewals is in sync; `reading` leaves
   out the runs in which a read fails.
   */
  ghost predicate AlwaysSettles(s: State, reading: bool) {
    forall run | Runs(s, run) && HarmlessRun(s, run) && (reading ==> ReadRun(s, run)) && AtRest(After(s, run)) ::
      Synced(After(s, run))
  }

  predicate AtRest(s: State) {
    !s.cancelled && Quiescent(s)
  }

  lemma InvSettles(s: State, reading: bool)
    requires SyncInv(s)
    ensures AlwaysSettles(s, reading)
  {
    forall run | Runs(s, run) && HarmlessRun(s, run) && AtRest(After(s, run))
      ensures Synced(After(s, run))
    {
      SyncRun(s, run);
    }
  }

  /**
   There is no initial pass: whatever rest a start comes to is in sync exactly when all volumes are in
   sync at subscription.
   */
  lemma SettlesExactly(s: State, reading: bool)
    requires Initial(s)
    ensures AlwaysSettles(s, reading) <==> Synced(s)
  {
    if Synced(s) {
      InvSettles(s, reading);
    } else {
      assert Runs(s, []) && HarmlessRun(s, []) && ReadRun(s, []) && After(s, []) == s;
    }
  }

  // ---- The trust bundle source behind it ------------------------------------------------------------------

  /** The loop is subscriber `i` of the source. */
  predicate Driven(s: State, source: RootCa.Source, i: nat) {
    && i < |source.subscribers|
    && s.bundle == source.pem
    && s.inflight == source.subscribers[i].senders
    && s.received == source.subscribers[i].received
  }

  /** What the loop sees of one event at its source. */
  function Seen(kind: RootCa.Kind, s: State, source: RootCa.Source, i: nat, e: RootCa.Event): seq<Action> {
    if RootCa.Announces(kind, source, e) then [Change(e.read.value)]
    else if e == RootCa.Receive(i) then [TakeEvent]
    else []
  }

  /** Every event at a source of either kind is a step, or no step, of the protocol; none is left out. */
  lemma SourceDrives(kind: RootCa.Kind, s: State, source: RootCa.Source, i: nat, e: RootCa.Event)
    requires Driven(s, source, i) && RootCa.Possible(source, e)
    requires e == RootCa.Receive(i) ==> s.pc.Selecting?
    ensures Runs(s, Seen(kind, s, source, i, e))
    ensures Driven(After(s, Seen(kind, s, source, i, e)), RootCa.Step(kind, source, e), i)
  {
    if RootCa.Announces(kind, source, e) {
      RunsOne(s, Change(e.read.value));
    } else if e == RootCa.Receive(i) {
      RunsOne(s, TakeEvent);
    }
  }
}
