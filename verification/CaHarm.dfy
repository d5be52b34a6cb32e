/** Two runs in which a renewal strands a volume with other bytes than the bundle's. */
module CaHarm {
  import opened Prelude
  import opened VolumeFs
  import opened SharedFile
  import opened CaRun
  import opened CaSync

  /** The run leads there, and no read fails on the way. */
  predicate Leads(s: State, run: seq<Action>, t: State) {
    Runs(s, run) && ReadRun(s, run) && After(s, run) == t
  }

  lemma LeadsCons(s: State, a: Action, rest: seq<Action>, t: State)
    requires Enabled(s, a) && ReadStep(s, a) && Leads(Next(s, a), rest, t)
    ensures Leads(s, [a] + rest, t)
  {
    RunsCons(s, a, rest);
    assert ([a] + rest)[1..] == rest;
  }

  lemma LeadsTwo(s: State, a: Action, b: Action)
    requires Enabled(s, a) && ReadStep(s, a) && Enabled(Next(s, a), b) && ReadStep(Next(s, a), b)
    ensures Leads(s, [a, b], Next(Next(s, a), b))
  {
    var t := Next(Next(s, a), b);
    assert Leads(t, [], t);
    LeadsCons(Next(s, a), b, [], t);
    LeadsCons(s, a, [b] + [], t);
    assert [a] + ([b] + []) == [a, b];
  }

  lemma {:induction false} LeadsOn(s: State, run: seq<Action>, t: State, more: seq<Action>, u: State)
    requires Leads(s, run, t) && Leads(t, more, u)
    ensures Leads(s, run + more, u)
    decreases |run|
  {
    if run == [] {
      assert run + more == more;
    } else {
      LeadsOn(Next(s, run[0]), run[1..], t, more, u);
      LeadsCons(s, run[0], run[1..] + more, u);
      assert [run[0]] + (run[1..] + more) == run + more;
    }
  }

  /** One volume that holds the bundle, and bytes to write on both sides. */
  predicate OneVolume(s: State, v: Vol, newer: Bytes) {
    && Initial(s) && s.inPlace && s.bundle != [] && newer != [] && s.bundle != newer
    && s.vols == map[v := Some(s.bundle)] && s.renewing == map[]
  }

  const UNTIL_OPEN: seq<Action> := [TakeEvent, Forward, StartPass]

  /** A renewal has read the bundle, it has changed, and the pass for that has opened the file. */
  function Opened(s: State, v: Vol, newer: Bytes): State {
    s.(bundle := newer, received := 1, started := 1, pc := Passing({v}, Some(Job(v, newer, Writing(0), false))),
       renewing := map[v := Renewal(s.bundle, Comparing)])
  }

  function UntilOpened(v: Vol, newer: Bytes): seq<Action> {
    [RenewRead(v), Change(newer)] + UNTIL_OPEN + [Visit(v), PassCall(Open)]
  }

  lemma OpenedReached(s: State, v: Vol, newer: Bytes)
    requires OneVolume(s, v, newer)
    ensures Leads(s, UntilOpened(v, newer), Opened(s, v, newer))
  {
    var s2 := Next(Next(s, RenewRead(v)), Change(newer));
    LeadsTwo(s, RenewRead(v), Change(newer));
    PassStarts(s2);
    var s4 := After(s2, UNTIL_OPEN);
    assert s4.pc.todo == {v};
    LeadsTwo(s4, Visit(v), PassCall(Open));
    var t := Next(Next(s4, Visit(v)), PassCall(Open));
    assert t.vols == s.vols && t.pc == Opened(s, v, newer).pc;
    assert t == Opened(s, v, newer);
    LeadsOn(s2, UNTIL_OPEN, s4, [Visit(v), PassCall(Open)], t);
    LeadsOn(s, [RenewRead(v), Change(newer)], s2, UNTIL_OPEN + [Visit(v), PassCall(Open)], t);
    assert [RenewRead(v), Change(newer)] + (UNTIL_OPEN + [Visit(v), PassCall(Open)]) == UntilOpened(v, newer);
  }

  lemma PassStarts(s: State)
    requires s.pc.Selecting? && s.inflight > 0 && !s.slot
    ensures Leads(s, UNTIL_OPEN, s.(inflight := s.inflight - 1, received := s.received + 1, started := s.started + 1,
      pc := Passing(s.vols.Keys, None)))
  {
    var s1 := Next(s, TakeEvent);
    var s2 := Next(s1, Forward);
    LeadsTwo(s1, Forward, StartPass);
    LeadsCons(s, TakeEvent, [Forward, StartPass], Next(s2, StartPass));
    assert [TakeEvent] + [Forward, StartPass] == UNTIL_OPEN;
  }

  /** A whole write by one writer. */
  lemma WholeWrite(file: Option<Bytes>, pem: Bytes)
    requires pem != []
    ensures var (written, w) := AfterCall(file, Writing(0), pem, Chunk(|pem|));
      w == Writing(|pem|) && AfterCall(written, w, pem, Cut) == (Some(pem), Finished)
  {
    OwnCall(true, file, Writing(0), pem, Chunk(|pem|));
    var (file', w') := AfterCall(file, Writing(0), pem, Chunk(|pem|));
    OwnCall(true, file', w', pem, Cut);
  }

  function RenewalWrites(v: Vol, pem: Bytes): seq<Action> {
    [RenewCall(v, Open), RenewCall(v, Chunk(|pem|)), RenewCall(v, Cut)]
  }

  lemma RenewalWritten(s: State, v: Vol, older: Bytes)
    requires s.inPlace && v in s.vols && v in s.renewing && s.renewing[v] == Renewal(older, Comparing) && older != []
    requires s.vols[v] != Some(older)
    ensures Leads(s, RenewalWrites(v, older), s.(vols := s.vols[v := Some(older)], renewing := s.renewing - {v}))
  {
    var s1 := Next(s, RenewCall(v, Open));
    var s2 := Next(s1, RenewCall(v, Chunk(|older|)));
    var s3 := Next(s2, RenewCall(v, Cut));
    WholeWrite(s1.vols[v], older);
    assert s3.vols == s.vols[v := Some(older)] && s3.renewing == s.renewing - {v};
    LeadsTwo(s1, RenewCall(v, Chunk(|older|)), RenewCall(v, Cut));
    LeadsCons(s, RenewCall(v, Open), [RenewCall(v, Chunk(|older|)), RenewCall(v, Cut)], s3);
    assert [RenewCall(v, Open)] + [RenewCall(v, Chunk(|older|)), RenewCall(v, Cut)] == RenewalWrites(v, older);
  }

  function PassWrites(pem: Bytes): seq<Action> {
    [PassCall(Chunk(|pem|)), PassCall(Cut), PassOk]
  }

  /** The rest of the pass over a single volume. */
  lemma PassWritten(s: State, v: Vol, newer: Bytes, p: nat)
    requires s.pc == Passing({v}, Some(Job(v, newer, Writing(p), false))) && v in s.vols && p < |newer|
    ensures Leads(s, PassWrites(newer), s.(pc := Selecting,
      vols := s.vols[v := Some(Resize(Overwrite(Held(s.vols[v]), p, newer[p..]), |newer|))]))
  {
    var s1 := Next(s, PassCall(Chunk(|newer|)));
    var s2 := Next(s1, PassCall(Cut));
    assert newer[p..|newer|] == newer[p..];
    assert s2.pc.todo == {};
    assert s2.vols == s.vols[v := Some(Resize(Overwrite(Held(s.vols[v]), p, newer[p..]), |newer|))];
    LeadsTwo(s1, PassCall(Cut), PassOk);
    LeadsCons(s, PassCall(Chunk(|newer|)), [PassCall(Cut), PassOk], Next(s2, PassOk));
    assert [PassCall(Chunk(|newer|))] + [PassCall(Cut), PassOk] == PassWrites(newer);
  }

  /** Nothing is outstanding, nobody is writing, and the one volume holds `bytes`, not the bundle. */
  predicate StrandedWith(s: State, v: Vol, bytes: Bytes) {
    AtRest(s) && s.renewing == map[] && s.vols == map[v := Some(bytes)] && bytes != s.bundle
  }

  /**
   A renewal reads the bundle, a whole update comes and goes, the renewal writes what it read, and the
   volume keeps the old bundle for good. No read fails in this run.
   */
  lemma StaleRenewalStrands(s: State, v: Vol, newer: Bytes)
    requires OneVolume(s, v, newer)
    ensures var run := UntilOpened(v, newer) + (PassWrites(newer) + RenewalWrites(v, s.bundle));
      && Runs(s, run) && ReadRun(s, run) && After(s, run).bundle == newer
      && StrandedWith(After(s, run), v, s.bundle) && !Synced(After(s, run))
  {
    var s1 := Opened(s, v, newer);
    OpenedReached(s, v, newer);
    PassWritten(s1, v, newer, 0);
    var s2 := After(s1, PassWrites(newer));
    RestOver(s.bundle, newer, 0);
    assert s.bundle[..0] + newer[0..] == newer;
    RenewalWritten(s2, v, s.bundle);
    var s3 := After(s2, RenewalWrites(v, s.bundle));
    LeadsOn(s1, PassWrites(newer), s2, RenewalWrites(v, s.bundle), s3);
    LeadsOn(s, UntilOpened(v, newer), s1, PassWrites(newer) + RenewalWrites(v, s.bundle), s3);
    assert !InSync(s3, v);
  }

  /** The run of two writes that overlap at byte `j`. */
  function Overlapping(v: Vol, older: Bytes, newer: Bytes, j: nat): seq<Action> {
    UntilOpened(v, newer) + ([PassCall(Chunk(j))] + (RenewalWrites(v, older) + PassWrites(newer)))
  }

  /**
   The two writes overlap: the pass has written up to byte `j` when the renewal finds the file different,
   puts the whole old bundle over it, and the pass goes on. Where the bundles differ before `j` and at
   `j`, the volume keeps the beginning of the old one and the rest of the new one, neither of the two, for
   good. No read fails in this run.
   */
  lemma OverlappingRenewalMixes(s: State, v: Vol, newer: Bytes, i: nat, j: nat)
    requires OneVolume(s, v, newer) && i < j < |s.bundle| && j < |newer|
    requires s.bundle[i] != newer[i] && s.bundle[j] != newer[j]
    ensures var run, mixed := Overlapping(v, s.bundle, newer, j), s.bundle[..j] + newer[j..];
      && Runs(s, run) && ReadRun(s, run) && After(s, run).bundle == newer
      && StrandedWith(After(s, run), v, mixed) && mixed != s.bundle && !Synced(After(s, run))
  {
    var older := s.bundle;
    var s1 := Opened(s, v, newer);
    OpenedReached(s, v, newer);
    var s2 := Next(s1, PassCall(Chunk(j)));
    assert s2.pc == Passing({v}, Some(Job(v, newer, Writing(j), false)));
    BeginningDiffers(older, newer, i, j);
    RenewalWritten(s2, v, older);
    var s3 := After(s2, RenewalWrites(v, older));
    PassWritten(s3, v, newer, j);
    var s4 := After(s3, PassWrites(newer));
    RestOver(older, newer, j);
    LeadsOn(s2, RenewalWrites(v, older), s3, PassWrites(newer), s4);
    LeadsCons(s1, PassCall(Chunk(j)), RenewalWrites(v, older) + PassWrites(newer), s4);
    LeadsOn(s, UntilOpened(v, newer), s1, [PassCall(Chunk(j))] + (RenewalWrites(v, older) + PassWrites(newer)), s4);
    NeitherBundle(older, newer, i, j);
    assert !InSync(s4, v);
  }

  lemma BeginningDiffers(older: Bytes, newer: Bytes, i: nat, j: nat)
    requires i < j <= |newer| && i < |older| && older[i] != newer[i]
    ensures Overwrite(older, 0, newer[0..j]) != older
  {
    OverwriteAt(older, 0, newer[0..j]);
    assert At(Overwrite(older, 0, newer[0..j]), i) == newer[i];
  }

  lemma NeitherBundle(older: Bytes, newer: Bytes, i: nat, j: nat)
    requires i < j < |older| && j < |newer| && older[i] != newer[i] && older[j] != newer[j]
    ensures older[..j] + newer[j..] != older && older[..j] + newer[j..] != newer
  {
    var mixed := older[..j] + newer[j..];
    assert mixed[i] == older[i] && mixed[j] == newer[j];
  }

  lemma RestOver(c: Bytes, data: Bytes, p: nat)
    requires p <= |c| && p < |data|
    ensures Resize(Overwrite(c, p, data[p..]), |data|) == c[..p] + data[p..]
  {
    var d := Overwrite(c, p, data[p..]);
    OverwriteAt(c, p, data[p..]);
    ResizeAt(d, |data|);
    var e := c[..p] + data[p..];
    assert forall i | 0 <= i < |data| :: At(Resize(d, |data|), i) == At(e, i);
    SameBytes(Resize(d, |data|), e);
  }
}
