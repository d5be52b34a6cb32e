/**
 `camanager.run` as a protocol of several actors: the trust bundle source with its sender goroutines,
 the select loop with its one-slot channel, the retry goroutines, the pass over all volumes, and the
 renewals that write the same files. In in-place mode a file is written one system call at a time, by
 the pass and by a renewal without any lock between them.
 */
module CaRun {
  import opened Prelude
  import opened VolumeFs
  import opened SharedFile

  type Vol = string

  /**
   The pass at one volume, with the bundle that was read for it. If the volume is unpublished while its
   file is open, the writes go on to a file that is gone.
   */
  datatype Job = Job(vol: Vol, pem: Bytes, writer: Writer, gone: bool)

  /** A renewal of a volume, from the moment it reads the bundle. */
  datatype Renewal = Renewal(pem: Bytes, writer: Writer)

  datatype Pc =
    | Selecting
    | Forwarding                                     // in the watcher branch, sending to the slot
    | Passing(todo: set<Vol>, job: Option<Job>)      // in `updateRootCAFiles`
    | Closed

  datatype State = State(
    inPlace: bool,                  // the write mode
    bundle: Bytes,
    inflight: nat,                  // sender goroutines blocked on the watcher channel
    pc: Pc,
    slot: bool,                     // `updateChan` is full
    waiting: nat,                   // retry goroutines before their timer
    sending: nat,                   // retry goroutines at their send
    cancelled: bool,
    vols: map<Vol, Option<Bytes>>,  // the listed volumes with their CA file
    renewing: map<Vol, Renewal>,    // at most one renewal of a volume at a time
    received: nat, started: nat, failed: nat)

  /** What a writer does next: in place it opens, writes chunks and cuts, else all happens at once. */
  datatype FileCall = Same | Open | Chunk(q: nat) | Cut | Whole

  datatype Action =
    | Change(bundle: Bytes)
    | TakeEvent | Forward | StartPass
    | Visit(v: Vol) | PassCall(call: FileCall) | PassOk | PassFail(left: Option<Bytes>)
    | TimerFires | RetrySend
    | Register(v: Vol) | Unpublish(v: Vol)
    | RenewRead(v: Vol) | RenewCall(v: Vol, call: FileCall) | RenewDrop(v: Vol)
    | Cancel | RetryQuits | Close

  function Held(file: Option<Bytes>): Bytes {
    if file.Some? then file.value else []
  }

  predicate CallPossible(inPlace: bool, file: Option<Bytes>, w: Writer, pem: Bytes, call: FileCall) {
    match call
    case Same => w.Comparing? && file == Some(pem)
    case Open => inPlace && w.Comparing?
    case Chunk(q) => w.Writing? && w.p < q <= |pem|
    case Cut => w.Writing? && w.p == |pem|
    case Whole => !inPlace && w.Comparing?
  }

  /** The file and the writer after the call. */
  function AfterCall(file: Option<Bytes>, w: Writer, pem: Bytes, call: FileCall): (Option<Bytes>, Writer)
    requires call.Chunk? ==> w.Writing? && w.p < call.q <= |pem|
  {
    match call
    case Same => (file, Finished)
    case Open => (Some(Held(file)), Writing(0))
    case Chunk(q) => (Some(Overwrite(Held(file), w.p, pem[w.p..q])), Writing(q))
    case Cut => (Some(Resize(Held(file), |pem|)), Finished)
    case Whole => (Some(pem), Finished)
  }

  function JobFile(s: State, j: Job): Option<Bytes> {
    if !j.gone && j.vol in s.vols then s.vols[j.vol] else None
  }

  predicate Enabled(s: State, a: Action) {
    match a
    case Change(b) => true
    case TakeEvent => s.pc.Selecting? && s.inflight > 0
    case Forward => s.pc.Forwarding? && !s.slot
    case StartPass => s.pc.Selecting? && s.slot
    case Visit(v) => s.pc.Passing? && s.pc.job.None? && v in s.pc.todo && v in s.vols
    case PassCall(call) =>
      && s.pc.Passing? && s.pc.job.Some?
      && var j := s.pc.job.value;
         (j.gone || j.vol in s.vols) && CallPossible(s.inPlace, JobFile(s, j), j.writer, j.pem, call)
    case PassOk => s.pc.Passing? && s.pc.todo == {}
    case PassFail(left) =>
      && s.pc.Passing?
      && (left.Some? ==> s.pc.job.Some? && !s.pc.job.value.gone && s.pc.job.value.vol in s.vols)
    case TimerFires => s.waiting > 0
    case RetrySend => s.sending > 0 && !s.slot
    case Register(v) => v !in s.vols
    case Unpublish(v) => v in s.vols
    case RenewRead(v) => v in s.vols && v !in s.renewing
    case RenewCall(v, call) =>
      v in s.renewing && v in s.vols
      && CallPossible(s.inPlace, s.vols[v], s.renewing[v].writer, s.renewing[v].pem, call)
    case RenewDrop(v) => v in s.renewing
    case Cancel => true
    case RetryQuits => s.cancelled && s.waiting > 0
    case Close => s.cancelled && s.pc.Selecting?
  }

  /** The pass with its job where it is now, or done with the volume. */
  function Advanced(pc: Pc, w: Writer): Pc
    requires pc.Passing? && pc.job.Some?
  {
    var j := pc.job.value;
    if w.Finished? then Passing(pc.todo - {j.vol}, None) else pc.(job := Some(j.(writer := w)))
  }

  /** A job that has the file of `v` open loses it. */
  function Bereft(pc: Pc, v: Vol): Pc {
    if pc.Passing? && pc.job.Some? && pc.job.value.vol == v && pc.job.value.writer.Writing?
    then pc.(job := Some(pc.job.value.(gone := true)))
    else pc
  }

  function Next(s: State, a: Action): State
    requires Enabled(s, a)
  {
    match a
    case Change(b) => s.(bundle := b, inflight := s.inflight + 1)
    case TakeEvent => s.(inflight := s.inflight - 1, pc := Forwarding, received := s.received + 1)
    case Forward => s.(slot := true, pc := Selecting)
    case StartPass => s.(slot := false, pc := Passing(s.vols.Keys, None), started := s.started + 1)
    case Visit(v) => s.(pc := s.pc.(job := Some(Job(v, s.bundle, Comparing, false))))
    case PassCall(call) =>
      var j := s.pc.job.value;
      var (file, w) := AfterCall(JobFile(s, j), j.writer, j.pem, call);
      s.(vols := if j.gone then s.vols else s.vols[j.vol := file], pc := Advanced(s.pc, w))
    case PassOk => s.(pc := Selecting)
    case PassFail(left) =>
      var vols := if left.Some? then s.vols[s.pc.job.value.vol := left] else s.vols;
      s.(vols := vols, pc := Selecting, waiting := s.waiting + 1, failed := s.failed + 1)
    case TimerFires => s.(waiting := s.waiting - 1, sending := s.sending + 1)
    case RetrySend => s.(sending := s.sending - 1, slot := true)
    case Register(v) => s.(vols := s.vols[v := None])
    case Unpublish(v) => s.(vols := s.vols - {v}, renewing := s.renewing - {v}, pc := Bereft(s.pc, v))
    case RenewRead(v) => s.(renewing := s.renewing[v := Renewal(s.bundle, Comparing)])
    case RenewCall(v, call) =>
      var r := s.renewing[v];
      var (file, w) := AfterCall(s.vols[v], r.writer, r.pem, call);
      s.(vols := s.vols[v := file],
         renewing := if w.Finished? then s.renewing - {v} else s.renewing[v := r.(writer := w)])
    case RenewDrop(v) => s.(renewing := s.renewing - {v})
    case Cancel => s.(cancelled := true)
    case RetryQuits => s.(waiting := s.waiting - 1)
    case Close => s.(pc := Closed)
  }

  predicate Runs(s: State, run: seq<Action>)
    decreases |run|
  {
    run == [] || (Enabled(s, run[0]) && Runs(Next(s, run[0]), run[1..]))
  }

  function After(s: State, run: seq<Action>): State
    requires Runs(s, run)
    decreases |run|
  {
    if run == [] then s else After(Next(s, run[0]), run[1..])
  }

  lemma RunsCons(s: State, a: Action, rest: seq<Action>)
    requires Enabled(s, a) && Runs(Next(s, a), rest)
    ensures Runs(s, [a] + rest) && After(s, [a] + rest) == After(Next(s, a), rest)
  {
    assert ([a] + rest)[1..] == rest;
  }

  lemma RunsOne(s: State, a: Action)
    requires Enabled(s, a)
    ensures Runs(s, [a]) && After(s, [a]) == Next(s, a)
  {
    assert [a][1..] == [];
    assert Runs(Next(s, a), []);
  }

  lemma {:induction false} RunsConcat(s: State, t: seq<Action>, u: seq<Action>)
    requires Runs(s, t) && Runs(After(s, t), u)
    ensures Runs(s, t + u) && After(s, t + u) == After(After(s, t), u)
    decreases |t|
  {
    if t == [] {
      assert t + u == u;
    } else {
      RunsConcat(Next(s, t[0]), t[1..], u);
      RunsCons(s, t[0], t[1..] + u);
      assert [t[0]] + (t[1..] + u) == t + u;
    }
  }

  lemma RunsTwo(s: State, a: Action, b: Action)
    requires Enabled(s, a) && Enabled(Next(s, a), b)
    ensures Runs(s, [a, b]) && After(s, [a, b]) == Next(Next(s, a), b)
  {
    RunsOne(Next(s, a), b);
    RunsCons(s, a, [b]);
    assert [a] + [b] == [a, b];
  }

  /** Just subscribed; renewals may have read the bundle, but none is writing. */
  predicate Initial(s: State) {
    && s.pc.Selecting? && s.inflight == 0 && !s.slot && s.waiting == 0 && s.sending == 0 && !s.cancelled
    && s.received == 0 && s.started == 0 && s.failed == 0
    && (forall v <- s.renewing :: v in s.vols && s.renewing[v].writer.Comparing?)
  }

  // ---- Tokens ------------------------------------------------------------------------------------------

  /** What will still start a pass: held by the channel, by the loop, or by a retry goroutine. */
  function Tokens(s: State): nat {
    (if s.slot then 1 else 0) + (if s.pc.Forwarding? then 1 else 0) + s.waiting + s.sending
  }

  predicate Balanced(s: State) {
    !s.cancelled ==> s.received + s.failed == s.started + Tokens(s)
  }

  lemma TokenStep(s: State, a: Action)
    requires Balanced(s) && Enabled(s, a)
    ensures Balanced(Next(s, a))
  {
  }

  /**
   Token conservation: before cancellation, events received and passes failed add up to passes started
   and tokens outstanding. Nothing that should start a pass is dropped, merged or made up.
   */
  lemma {:induction false} TokensConserved(s: State, run: seq<Action>)
    requires Balanced(s) && Runs(s, run)
    ensures Balanced(After(s, run))
    decreases |run|
  {
    if run != [] {
      TokenStep(s, run[0]);
      TokensConserved(Next(s, run[0]), run[1..]);
    }
  }

  /** The balance of a loop just started, spelt out. */
  lemma TokensFromStart(s: State, run: seq<Action>)
    requires Initial(s) && Runs(s, run) && !After(s, run).cancelled
    ensures var t := After(s, run);
      t.received + t.failed == t.started + t.waiting + t.sending
        + (if t.slot then 1 else 0) + (if t.pc.Forwarding? then 1 else 0)
  {
    TokensConserved(s, run);
  }

  /** A failed pass, or an event taken, leaves a token until the next pass starts. */
  lemma TokenRemains(s: State, a: Action, run: seq<Action>)
    requires Balanced(s) && Enabled(s, a) && (a.PassFail? || a.TakeEvent?)
    requires Runs(Next(s, a), run) && StartPass !in run && !After(Next(s, a), run).cancelled
    ensures Tokens(After(Next(s, a), run)) > 0
  {
    TokensStay(Next(s, a), run);
  }

  lemma TokenStays(s: State, a: Action)
    requires Enabled(s, a) && !a.StartPass? && !Next(s, a).cancelled
    ensures !s.cancelled && Tokens(Next(s, a)) >= Tokens(s)
  {
  }

  lemma {:induction false} TokensStay(s: State, run: seq<Action>)
    requires Runs(s, run) && StartPass !in run && !After(s, run).cancelled
    ensures !s.cancelled && Tokens(After(s, run)) >= Tokens(s)
    decreases |run|
  {
    if run != [] {
      TokensStay(Next(s, run[0]), run[1..]);
      TokenStays(s, run[0]);
    }
  }

  // ---- The one way to get stuck --------------------------------------------------------------------------

  /** The loop sends to a slot only itself would empty. */
  predicate SendsToItself(s: State) {
    s.pc.Forwarding? && s.slot
  }

  /** Whatever anybody does, cancelling included, the loop stays where it is. */
  ghost predicate BlockedForever(s: State) {
    forall run | Runs(s, run) :: After(s, run).pc == s.pc
  }

  lemma {:induction false} StuckStays(s: State, run: seq<Action>)
    requires SendsToItself(s) && Runs(s, run)
    ensures SendsToItself(After(s, run))
    decreases |run|
  {
    if run != [] {
      StuckStays(Next(s, run[0]), run[1..]);
    }
  }

  /** A run after which the loop is somewhere else. */
  function WayOut(s: State): seq<Action> {
    match s.pc
    case Selecting => if s.slot then [StartPass] else [Change(s.bundle + [0]), TakeEvent]
    case Forwarding => [Forward]
    case _ => [PassFail(None)]
  }

  /** The loop stays where it is for good exactly when it sends to the full slot that only it empties, or has quit. */
  lemma BlockedExactly(s: State)
    ensures BlockedForever(s) <==> SendsToItself(s) || s.pc.Closed?
  {
    if SendsToItself(s) || s.pc.Closed? {
      forall run | Runs(s, run)
        ensures After(s, run).pc == s.pc
      {
        if SendsToItself(s) {
          StuckStays(s, run);
        } else {
          ClosedStays(s, run);
        }
      }
    } else if s.pc.Selecting? && !s.slot {
      RunsTwo(s, Change(s.bundle + [0]), TakeEvent);
      assert After(s, [Change(s.bundle + [0]), TakeEvent]).pc != s.pc;
    } else {
      RunsOne(s, WayOut(s)[0]);
      assert After(s, [WayOut(s)[0]]).pc != s.pc;
    }
  }

  // ---- What a step may do to a pass and to a volume ---------------------------------------------------------

  /** The pass has a volume in hand, the same one before and after. */
  predicate SameJob(j: Job, k: Job) {
    j.vol == k.vol && j.pem == k.pem && (j.gone ==> k.gone)
  }

  /**
   A pass works on one volume at a time: it takes up a listed one that it has yet to deal with, with the
   bundle of the moment, and drops it only when done with it. It ends with none left, or by failing.
   */
  lemma PassMoves(s: State, a: Action)
    requires s.pc.Passing? && Enabled(s, a)
    ensures match Next(s, a).pc
      case Passing(todo, job) =>
        || (todo == s.pc.todo && s.pc.job.None? && job.None?)
        || (todo == s.pc.todo && s.pc.job.None? && job.Some? && job.value.vol in todo && job.value.vol in s.vols
            && job.value == Job(job.value.vol, s.bundle, Comparing, false))
        || (todo == s.pc.todo && s.pc.job.Some? && job.Some? && SameJob(s.pc.job.value, job.value))
        || (s.pc.job.Some? && job.None? && todo == s.pc.todo - {s.pc.job.value.vol})
      case Selecting =>
        || (s.pc.todo == {} && Next(s, a).waiting == s.waiting)
        || (Next(s, a).waiting == s.waiting + 1 && Next(s, a).failed == s.failed + 1)
      case _ => false
  {
  }

  /** A file is changed by the pass that has it, by its renewal, or by its volume's coming and going. */
  lemma FileChanges(s: State, a: Action, v: Vol)
    requires Enabled(s, a) && (v in s.vols || v in Next(s, a).vols)
    requires !(v in s.vols && v in Next(s, a).vols && Next(s, a).vols[v] == s.vols[v])
    ensures
      || (v in s.vols && v in Next(s, a).vols && s.pc.Passing? && s.pc.job.Some?
          && s.pc.job.value.vol == v && !s.pc.job.value.gone)
      || (v in s.vols && v in Next(s, a).vols && v in s.renewing)
      || (v !in s.vols && Next(s, a).vols[v].None?)
      || (v in s.vols && v !in Next(s, a).vols && v !in Next(s, a).renewing)
  {
  }

  /** What is listed is listed until it is unpublished, and a renewal that is dropped is over. */
  lemma GoneForGood(s: State, v: Vol)
    ensures Enabled(s, Unpublish(v)) <==> v in s.vols
    ensures Enabled(s, Unpublish(v)) ==> Next(s, Unpublish(v)).vols == s.vols - {v}
    ensures Enabled(s, RenewDrop(v)) <==> v in s.renewing
    ensures Enabled(s, RenewDrop(v)) ==> Next(s, RenewDrop(v)).renewing == s.renewing - {v}
  {
  }

  // ---- Quitting ------------------------------------------------------------------------------------------

  /** The loop has quit only if it was told to. */
  predicate QuitsWhenTold(s: State) {
    s.pc.Closed? ==> s.cancelled
  }

  lemma QuitStep(s: State, a: Action)
    requires QuitsWhenTold(s) && Enabled(s, a)
    ensures QuitsWhenTold(Next(s, a)) && (s.cancelled ==> Next(s, a).cancelled)
  {
  }

  lemma {:induction false} QuitRun(s: State, run: seq<Action>)
    requires QuitsWhenTold(s) && Runs(s, run)
    ensures QuitsWhenTold(After(s, run)) && (s.cancelled ==> After(s, run).cancelled)
    decreases |run|
  {
    if run != [] {
      QuitStep(s, run[0]);
      QuitRun(Next(s, run[0]), run[1..]);
    }
  }

  /** Over every run of a loop just started: it has quit only after it was cancelled, and that lasts. */
  lemma QuitsOnlyCancelled(s: State, run: seq<Action>)
    requires Initial(s) && Runs(s, run)
    ensures After(s, run).pc.Closed? ==> After(s, run).cancelled
  {
    QuitRun(s, run);
  }

  lemma {:induction false} ClosedStays(s: State, run: seq<Action>)
    requires s.pc.Closed? && Runs(s, run)
    ensures After(s, run).pc.Closed?
    decreases |run|
  {
    if run != [] {
      ClosedStays(Next(s, run[0]), run[1..]);
    }
  }

  /** The one step that quits is taken at the select, after cancelling. */
  lemma QuitsAtSelect(s: State, a: Action)
    requires Enabled(s, a) && !s.pc.Closed? && Next(s, a).pc.Closed?
    ensures s.pc.Selecting? && s.cancelled
  {
  }

  function Quitting(n: nat): seq<Action> {
    if n == 0 then [] else [RetryQuits] + Quitting(n - 1)
  }

  /** After cancelling, every retry that waits for its timer can end, without anything else happening. */
  lemma {:induction false} RetriesQuit(s: State)
    requires s.cancelled
    ensures Runs(s, Quitting(s.waiting)) && After(s, Quitting(s.waiting)) == s.(waiting := 0)
    decreases s.waiting
  {
    if s.waiting > 0 {
      RetriesQuit(Next(s, RetryQuits));
      RunsCons(s, RetryQuits, Quitting(s.waiting - 1));
    }
  }

  /** The loop can be cancelled at any time, and quits from its select. */
  lemma CancelQuits(s: State)
    ensures Enabled(s, Cancel) && Next(s, Cancel) == s.(cancelled := true)
    ensures s.pc.Selecting? ==> Runs(s, [Cancel, Close]) && After(s, [Cancel, Close]).pc.Closed?
  {
    if s.pc.Selecting? {
      RunsTwo(s, Cancel, Close);
    }
  }

  /**
   Two changes in quick succession, as a file announces them, are enough to get there, from every initial
   state.
   */
  lemma TwoChangesBlock(s: State, b: Bytes, c: Bytes)
    requires Initial(s) && b != s.bundle && c != b
    ensures var run := [Change(b), Change(c), TakeEvent, Forward, TakeEvent];
      Runs(s, run) && SendsToItself(After(s, run))
  {
    var s1 := Next(s, Change(b));
    var s2 := Next(s1, Change(c));
    var s3 := Next(s2, TakeEvent);
    var s4 := Next(s3, Forward);
    RunsOne(s4, TakeEvent);
    RunsCons(s3, Forward, [TakeEvent]);
    RunsCons(s2, TakeEvent, [Forward, TakeEvent]);
    RunsCons(s1, Change(c), [TakeEvent, Forward, TakeEvent]);
    RunsCons(s, Change(b), [Change(c), TakeEvent, Forward, TakeEvent]);
    assert [Forward] + [TakeEvent] == [Forward, TakeEvent];
    assert [TakeEvent] + [Forward, TakeEvent] == [TakeEvent, Forward, TakeEvent];
    assert [Change(c)] + [TakeEvent, Forward, TakeEvent] == [Change(c), TakeEvent, Forward, TakeEvent];
    assert [Change(b)] + [Change(c), TakeEvent, Forward, TakeEvent] ==
      [Change(b), Change(c), TakeEvent, Forward, TakeEvent];
  }

  /** Nobody but the loop can fill the slot while it forwards. */
  predicate Clear(s: State) {
    !s.slot && s.waiting == 0 && s.sending == 0
  }

  /** The watcher fires only while the slot and the retries are empty. */
  predicate CalmRun(s: State, run: seq<Action>)
    requires Runs(s, run)
    decreases |run|
  {
    run == [] || ((run[0].TakeEvent? ==> Clear(s)) && CalmRun(Next(s, run[0]), run[1..]))
  }

  lemma {:induction false} CalmNeverBlocks(s: State, run: seq<Action>)
    requires Runs(s, run) && CalmRun(s, run) && (s.pc.Forwarding? ==> Clear(s))
    ensures !SendsToItself(After(s, run))
    decreases |run|
  {
    if run != [] {
      CalmNeverBlocks(Next(s, run[0]), run[1..]);
    }
  }

  /** An event taken can end in the block before it is forwarded exactly if anything else holds a token. */
  lemma BlockComesExactly(s: State)
    requires Enabled(s, TakeEvent)
    ensures !Clear(s) <==>
      exists run | Runs(Next(s, TakeEvent), run) && Forward !in run :: SendsToItself(After(Next(s, TakeEvent), run))
  {
    var t := Next(s, TakeEvent);
    if s.slot {
      assert Runs(t, []) && After(t, []) == t;
    } else if s.sending > 0 {
      RunsOne(t, RetrySend);
    } else if s.waiting > 0 {
      RunsTwo(t, TimerFires, RetrySend);
    } else {
      forall run | Runs(t, run) && Forward !in run
        ensures !SendsToItself(After(t, run))
      {
        ClearStays(t, run);
      }
    }
  }

  lemma {:induction false} ClearStays(s: State, run: seq<Action>)
    requires s.pc.Forwarding? && Clear(s) && Runs(s, run) && Forward !in run
    ensures Clear(After(s, run))
    decreases |run|
  {
    if run != [] {
      ClearStays(Next(s, run[0]), run[1..]);
    }
  }
}
