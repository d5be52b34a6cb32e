/**
 Whether the trust bundle protocol comes to rest, and exactly which ends of a renewal's write keep it
 from coming to rest in sync.
 */
module CaSettle {
  import opened Prelude
  import opened VolumeFs
  import opened SharedFile
  import opened CaRun
  import opened CaSync

  // ---- Left to itself the loop comes to rest ---------------------------------------------------------------

  /** A step of the loop and its retries; a pass fails only where a volume it expects is gone. */
  predicate LoopStep(s: State, a: Action) {
    match a
    case TakeEvent => true
    case Forward => true
    case StartPass => true
    case Visit(_) => true
    case PassCall(_) => true
    case PassOk => true
    case PassFail(left) => left.None? && s.pc.Passing? && !(s.pc.todo <= s.vols.Keys)
    case TimerFires => true
    case RetrySend => true
    case _ => false
  }

  /** Nobody else does anything, and no read fails. */
  predicate LoopRun(s: State, run: seq<Action>)
    requires Runs(s, run)
    decreases |run|
  {
    run == [] || (LoopStep(s, run[0]) && ReadStep(s, run[0]) && LoopRun(Next(s, run[0]), run[1..]))
  }

  /** Left to itself the loop can come to rest with every volume in sync. */
  ghost predicate CanSettle(s: State) {
    exists run :: Runs(s, run) && LoopRun(s, run) && AtRest(After(s, run)) && Synced(After(s, run))
  }

  ghost predicate LoopLeads(s: State, run: seq<Action>, t: State) {
    Runs(s, run) && LoopRun(s, run) && After(s, run) == t
  }

  lemma LoopCons(s: State, a: Action, rest: seq<Action>, t: State)
    requires Enabled(s, a) && LoopStep(s, a) && ReadStep(s, a) && LoopLeads(Next(s, a), rest, t)
    ensures LoopLeads(s, [a] + rest, t)
  {
    RunsCons(s, a, rest);
    assert ([a] + rest)[1..] == rest;
  }

  lemma {:induction false} LoopConcat(s: State, run: seq<Action>, t: State, more: seq<Action>, u: State)
    requires LoopLeads(s, run, t) && LoopLeads(t, more, u)
    ensures LoopLeads(s, run + more, u)
    decreases |run|
  {
    if run == [] {
      assert run + more == more;
    } else {
      LoopConcat(Next(s, run[0]), run[1..], t, more, u);
      LoopCons(s, run[0], run[1..] + more, u);
      assert [run[0]] + (run[1..] + more) == run + more;
    }
  }

  lemma {:induction false} LoopIsHarmless(s: State, run: seq<Action>)
    requires Runs(s, run) && LoopRun(s, run)
    ensures HarmlessRun(s, run) && ReadRun(s, run)
    decreases |run|
  {
    if run != [] {
      LoopIsHarmless(Next(s, run[0]), run[1..]);
    }
  }

  function JobRank(s: State): nat
    requires s.pc.Passing?
  {
    if s.pc.job.None? then 3
    else if s.pc.job.value.writer.Comparing? then 2
    else if s.pc.job.value.writer.Writing? && s.pc.job.value.writer.p < |s.pc.job.value.pem| then 1
    else 0
  }

  /** The pass makes progress, and nothing but the pass and the files changes. */
  predicate Closer(s: State, t: State) {
    && s.pc.Passing? && t.pc.Passing? && Shape(t)
    && t == s.(pc := t.pc, vols := t.vols) && t.vols.Keys == s.vols.Keys && t.pc.todo <= s.pc.todo
    && (|t.pc.todo| < |s.pc.todo| || (t.pc.todo == s.pc.todo && JobRank(t) < JobRank(s)))
  }

  /** What the pass does next at a volume it has visited. */
  function NextCall(s: State): FileCall
    requires s.pc.Passing? && s.pc.job.Some?
  {
    var j := s.pc.job.value;
    if j.writer.Writing? then (if j.writer.p < |j.pem| then Chunk(|j.pem|) else Cut)
    else if JobFile(s, j) == Some(j.pem) then Same
    else if s.inPlace then Open
    else Whole
  }

  /** With a volume visited that is there. */
  predicate Busy(s: State) {
    s.pc.Passing? && Shape(s) && s.pc.job.Some? && (s.pc.job.value.gone || s.pc.job.value.vol in s.vols)
  }

  lemma NextCallPossible(s: State)
    requires Busy(s)
    ensures Enabled(s, PassCall(NextCall(s))) && ReadStep(s, PassCall(NextCall(s)))
  {
  }

  lemma CallCloser(s: State)
    requires Busy(s)
    ensures var a := PassCall(NextCall(s));
      Enabled(s, a) && ReadStep(s, a) && Closer(s, Next(s, a))
  {
    NextCallPossible(s);
    ShapeStep(s, PassCall(NextCall(s)));
    RankFalls(s, Next(s, PassCall(NextCall(s))));
  }

  lemma RankFalls(s: State, t: State)
    requires Busy(s) && Enabled(s, PassCall(NextCall(s))) && t == Next(s, PassCall(NextCall(s)))
    ensures t.pc.Passing? && t.pc.todo <= s.pc.todo
    ensures |t.pc.todo| < |s.pc.todo| || (t.pc.todo == s.pc.todo && JobRank(t) < JobRank(s))
  {
    var todo, u := s.pc.todo, s.pc.job.value.vol;
    assert |todo - {u}| < |todo| by {
      assert todo == todo - {u} + {u};
    }
  }

  lemma VisitCloser(s: State, u: Vol)
    requires s.pc.Passing? && Shape(s) && s.pc.job.None? && u in s.pc.todo && u in s.vols
    ensures Enabled(s, Visit(u)) && Closer(s, Next(s, Visit(u))) && Next(s, Visit(u)).vols == s.vols
  {
    ShapeStep(s, Visit(u));
  }

  /** The loop is back at its select, with as many tokens, or with one more for a pass that had to fail. */
  predicate BackAtSelect(s: State, t: State) {
    && t.pc.Selecting? && Shape(t) && t.cancelled == s.cancelled
    && t.slot == s.slot && t.inflight == s.inflight && t.sending == s.sending
    && s.pc.Passing? && t.waiting == if s.pc.todo <= s.vols.Keys then s.waiting else s.waiting + 1
  }

  lemma {:induction false} PassEnds(s: State) returns (run: seq<Action>, t: State)
    requires s.pc.Passing? && Shape(s)
    ensures LoopLeads(s, run, t) && BackAtSelect(s, t)
    decreases |s.pc.todo|, if s.pc.Passing? then JobRank(s) else 0
  {
    var a: Action;
    if !(s.pc.todo <= s.vols.Keys) || s.pc.todo == {} {
      a := if s.pc.todo == {} then PassOk else PassFail(None);
      ShapeStep(s, a);
      run, t := [], Next(s, a);
      assert LoopLeads(Next(s, a), run, t);
    } else {
      if s.pc.job.Some? {
        CallCloser(s);
        a := PassCall(NextCall(s));
      } else {
        var u :| u in s.pc.todo;
        VisitCloser(s, u);
        a := Visit(u);
      }
      run, t := PassEnds(Next(s, a));
    }
    LoopCons(s, a, run, t);
    run := [a] + run;
  }

  /** How far the tokens are from being used up. */
  function Work(s: State): nat {
    4 * s.inflight + 3 * s.waiting + 2 * s.sending + (if s.slot then 1 else 0)
  }

  /** The next steps of a loop that has something to do. */
  lemma LoopWorks(s: State) returns (run: seq<Action>, t: State)
    requires s.pc.Selecting? && Shape(s) && Pending(s)
    ensures LoopLeads(s, run, t) && t.pc.Selecting? && Shape(t) && t.cancelled == s.cancelled && Work(t) < Work(s)
  {
    if s.slot {
      var s1 := Next(s, StartPass);
      ShapeStep(s, StartPass);
      run, t := PassEnds(s1);
      LoopCons(s, StartPass, run, t);
      run := [StartPass] + run;
    } else if s.sending > 0 || s.waiting > 0 {
      var a := if s.sending > 0 then RetrySend else TimerFires;
      ShapeStep(s, a);
      t := Next(s, a);
      assert LoopLeads(t, [], t);
      LoopCons(s, a, [], t);
      run := [a] + [];
    } else {
      var s1 := Next(s, TakeEvent);
      t := Next(s1, Forward);
      ShapeStep(s, TakeEvent);
      ShapeStep(s1, Forward);
      assert LoopLeads(t, [], t);
      LoopCons(s1, Forward, [], t);
      LoopCons(s, TakeEvent, [Forward] + [], t);
      run := [TakeEvent] + ([Forward] + []);
    }
  }

  lemma {:induction false} LoopDrains(s: State) returns (run: seq<Action>, t: State)
    requires s.pc.Selecting? && Shape(s)
    ensures LoopLeads(s, run, t) && Quiescent(t) && t.cancelled == s.cancelled
    decreases Work(s)
  {
    if Pending(s) {
      var s1: State;
      run, s1 := LoopWorks(s);
      var more;
      more, t := LoopDrains(s1);
      LoopConcat(s, run, s1, more, t);
      run := run + more;
    } else {
      run, t := [], s;
    }
  }

  lemma LoopRests(s: State) returns (run: seq<Action>, t: State)
    requires Shape(s) && !s.cancelled && !SendsToItself(s)
    ensures LoopLeads(s, run, t) && Quiescent(t) && t.cancelled == s.cancelled
  {
    var s1 := s;
    run := [];
    assert LoopLeads(s, run, s1);
    if s.pc.Passing? {
      run, s1 := PassEnds(s);
    } else if s.pc.Forwarding? {
      s1 := Next(s, Forward);
      ShapeStep(s, Forward);
      assert LoopLeads(s1, [], s1);
      LoopCons(s, Forward, [], s1);
      run := [Forward] + [];
    }
    var more;
    more, t := LoopDrains(s1);
    LoopConcat(s, run, s1, more, t);
    run := run + more;
  }

  /** Where nothing is amiss, the protocol left to itself can settle exactly if it is not blocked for good. */
  lemma CanSettleExactly(s: State)
    requires SyncInv(s) && !s.cancelled
    ensures CanSettle(s) <==> !SendsToItself(s)
  {
    if SendsToItself(s) {
      forall run | Runs(s, run)
        ensures !Quiescent(After(s, run))
      {
        StuckStays(s, run);
      }
    } else {
      var run, t := LoopRests(s);
      LoopIsHarmless(s, run);
      SyncRun(s, run);
    }
  }

  // ---- Renewals that do harm ---------------------------------------------------------------------------------

  /**
   A renewal that ends while its bundle is still the current one does no harm, however its write and
   the pass's overlap.
   */
  lemma CurrentBundleIsHarmless(s: State, v: Vol, call: FileCall)
    requires SyncInv(s) && !s.cancelled && Enabled(s, RenewCall(v, call)) && (call.Cut? || call.Whole?)
    requires s.renewing[v].pem == s.bundle
    ensures Harmless(s, v, Left(s, RenewCall(v, call), v))
  {
    if !Pending(s) {
      var r := s.renewing[v];
      assert Fine(s, v);
      if InPass(s, v) {
        OtherCall(s.inPlace, s.vols[v], r.writer, r.pem, call, s.pc.job.value.writer.p);
      } else if !Ahead(s, v) {
        OtherCall(s.inPlace, s.vols[v], r.writer, r.pem, call, 0);
        if s.vols[v] != Some(s.bundle) {
          OwnCall(s.inPlace, s.vols[v], r.writer, r.pem, call);
        }
      }
    }
  }

  lemma HarmlessCons(s: State, a: Action, rest: seq<Action>)
    requires Enabled(s, a) && HarmlessStep(s, a) && ReadStep(s, a)
    requires Runs(Next(s, a), rest) && HarmlessRun(Next(s, a), rest) && ReadRun(Next(s, a), rest)
    ensures Runs(s, [a] + rest) && HarmlessRun(s, [a] + rest) && ReadRun(s, [a] + rest)
    ensures After(s, [a] + rest) == After(Next(s, a), rest)
  {
    RunsCons(s, a, rest);
    assert ([a] + rest)[1..] == rest;
  }

  /** All is quiet, and nobody has touched `v`. */
  predicate QuietEnd(s: State, t: State, v: Vol) {
    && !t.cancelled && Quiescent(t)
    && v in s.vols && v in t.vols && t.vols[v] == s.vols[v] && t.bundle == s.bundle
    && (InRenewal(t, v) <==> InRenewal(s, v))
  }

  /** A pass with nothing else outstanding, and done with `v`. */
  predicate Finishing(s: State, v: Vol) {
    s.pc.Passing? && Shape(s) && !s.cancelled && !Pending(s) && v in s.vols && !Ahead(s, v)
  }

  /** The step brings the pass nearer to its end and has no part in `v` or in any renewal. */
  predicate Onward(s: State, a: Action, v: Vol) {
    && (a.Register? || a.Visit? || a.PassCall?) && Enabled(s, a) && ReadStep(s, a)
    && var t := Next(s, a);
       Finishing(t, v) && v in s.vols && t.vols[v] == s.vols[v] && t.bundle == s.bundle && t.renewing == s.renewing
  }

  predicate Nearer(t: State, s: State) {
    Closer(s, t) || (t.pc == s.pc && s.pc.Passing? && |t.pc.todo - t.vols.Keys| < |s.pc.todo - s.vols.Keys|)
  }

  lemma OnwardRegister(s: State, v: Vol, u: Vol)
    requires Finishing(s, v) && u in s.pc.todo && u !in s.vols
    ensures Onward(s, Register(u), v) && Nearer(Next(s, Register(u)), s)
  {
    ShapeStep(s, Register(u));
    assert s.pc.todo - s.vols.Keys == s.pc.todo - (s.vols.Keys + {u}) + {u};
    assert Next(s, Register(u)).vols.Keys == s.vols.Keys + {u};
  }

  /** A volume the pass still expects is registered again if need be. */
  lemma OnwardExists(s: State, v: Vol) returns (a: Action)
    requires Finishing(s, v) && s.pc.todo != {}
    ensures Onward(s, a, v) && Nearer(Next(s, a), s)
  {
    var u: Vol :| u in s.pc.todo && (s.pc.job.Some? ==> u == s.pc.job.value.vol);
    if Busy(s) {
      CallCloser(s);
      a := PassCall(NextCall(s));
    } else if u !in s.vols {
      OnwardRegister(s, v, u);
      a := Register(u);
    } else {
      VisitCloser(s, u);
      a := Visit(u);
    }
  }

  lemma NothingLeft(s: State, v: Vol)
    requires Finishing(s, v) && s.pc.todo == {}
    ensures Runs(s, [PassOk]) && HarmlessRun(s, [PassOk]) && ReadRun(s, [PassOk])
    ensures QuietEnd(s, After(s, [PassOk]), v)
  {
    var t := Next(s, PassOk);
    assert HarmlessRun(t, []) && Runs(t, []) && ReadRun(t, []) && After(t, []) == t;
    HarmlessCons(s, PassOk, []);
    assert [PassOk] + [] == [PassOk];
  }

  lemma {:induction false} PassFinishes(s: State, v: Vol) returns (run: seq<Action>)
    requires Finishing(s, v)
    ensures Runs(s, run) && HarmlessRun(s, run) && ReadRun(s, run) && QuietEnd(s, After(s, run), v)
    decreases |s.pc.todo|, if s.pc.Passing? then JobRank(s) else 0, |s.pc.todo - s.vols.Keys|
  {
    if s.pc.todo == {} {
      NothingLeft(s, v);
      run := [PassOk];
    } else {
      var a := OnwardExists(s, v);
      run := PassFinishes(Next(s, a), v);
      HarmlessCons(s, a, run);
      run := [a] + run;
    }
  }

  /** The rest of a write does not repair what is broken in the part already written. */
  lemma BrokenStays(c: Bytes, data: Bytes, p: nat)
    requires p <= |data| && !Intact(c, data, p)
    ensures Resize(if p < |data| then Overwrite(c, p, data[p..]) else c, |data|) != data
  {
    var i :| 0 <= i < p && At(c, i) != data[i];
    var d := if p < |data| then Overwrite(c, p, data[p..]) else c;
    if p < |data| {
      OverwriteAt(c, p, data[p..]);
    }
    ResizeAt(d, |data|);
    assert At(Resize(d, |data|), i) == At(c, i);
  }

  /** The pass has the file of `v` open, and part of what it wrote is no longer in place. */
  predicate Spoilt(s: State, v: Vol) {
    && s.pc.Passing? && Shape(s) && !s.cancelled && !Pending(s) && JobCurrent(s)
    && InPass(s, v) && !InRenewal(s, v)
    && !Intact(Held(s.vols[v]), s.bundle, s.pc.job.value.writer.p)
  }

  lemma SpoiltEnds(s: State, v: Vol) returns (run: seq<Action>)
    requires Spoilt(s, v)
    ensures Runs(s, run) && HarmlessRun(s, run) && ReadRun(s, run)
    ensures AtRest(After(s, run)) && !Synced(After(s, run))
  {
    var j := s.pc.job.value;
    BrokenStays(Held(s.vols[v]), s.bundle, j.writer.p);
    var s1 := s;
    if j.writer.p < |s.bundle| {
      assert j.pem[j.writer.p..|j.pem|] == j.pem[j.writer.p..];
      s1 := Next(s, PassCall(Chunk(|s.bundle|)));
      ShapeStep(s, PassCall(Chunk(|s.bundle|)));
    }
    var s2 := Next(s1, PassCall(Cut));
    ShapeStep(s1, PassCall(Cut));
    run := PassFinishes(s2, v);
    assert !InSync(After(s2, run), v);
    HarmlessCons(s1, PassCall(Cut), run);
    run := [PassCall(Cut)] + run;
    if j.writer.p < |s.bundle| {
      HarmlessCons(s, PassCall(Chunk(|s.bundle|)), run);
      run := [PassCall(Chunk(|s.bundle|))] + run;
    }
  }

  lemma HarmfulShows(s: State, a: Action, v: Vol) returns (run: seq<Action>)
    requires SyncInv(s) && !s.cancelled && Enabled(s, a) && Ends(s, a, v)
    requires !Harmless(s, v, Left(s, a, v))
    ensures var t := Next(s, a);
      && Runs(t, run) && HarmlessRun(t, run) && ReadRun(t, run)
      && AtRest(After(t, run)) && !Synced(After(t, run))
  {
    var t := Next(s, a);
    ShapeStep(s, a);
    assert v in t.vols && !InRenewal(t, v);
    if InPass(s, v) {
      run := SpoiltEnds(t, v);
    } else {
      run := [];
      if s.pc.Passing? {
        run := PassFinishes(t, v);
      }
      assert QuietEnd(t, After(t, run), v);
      assert !InSync(After(t, run), v);
    }
  }

  /**
   Exactly when the end of a renewal's write, complete or not, leaves a protocol that can come to rest and
   whose every rest is in sync: if the loop is not blocked for good, and the end is harmless. Without the
   second a volume can keep other bytes than the bundle's with nothing left to correct it, although no read
   ever fails; without the first no pass starts again.
   */
  lemma RenewalSettlesExactly(s: State, a: Action, v: Vol, reading: bool)
    requires SyncInv(s) && !s.cancelled && Enabled(s, a) && Ends(s, a, v)
    ensures AlwaysSettles(Next(s, a), reading) <==> Harmless(s, v, Left(s, a, v))
    ensures AlwaysSettles(Next(s, a), reading) && CanSettle(Next(s, a)) <==>
      !SendsToItself(s) && Harmless(s, v, Left(s, a, v))
  {
    var t := Next(s, a);
    if Harmless(s, v, Left(s, a, v)) {
      SyncStep(s, a);
      InvSettles(t, reading);
      CanSettleExactly(t);
    } else {
      var run := HarmfulShows(s, a, v);
    }
  }
}
