/**
 Certificate renewal and trust bundle updates on one volume in in-place mode, interleaved system call
 by system call: the keypair of the last recorded renewal always stays on disk.
 */
module KeypairRace {
  import opened Prelude
  import opened VolumeFs
  import opened InplaceSteps
  import opened FileSteps

  // ---- The two actors ------------------------------------------------------------------------------

  /**
   `writeKeypair`: the data directory is prepared, its listing is pruned, payload `op.files` is written
   in the order `names`, and then recorded in the metadata. `left` are the listed names still to be
   removed, with whether they were links; the file behind `at` is removed already.
   */
  datatype Renewal =
    | Resting(recorded: Option<map<Name, Bytes>>)
    | Preparing(op: Op, names: seq<Name>)
    | Pruning(op: Op, names: seq<Name>, left: map<Name, bool>, at: Option<Name>)
    | Delivering(op: Op, names: seq<Name>, k: nat, pc: FilePc)
    | Recording(op: Op)

  /** `updateRootCAFiles` on this volume, through `WriteFile`. */
  datatype Update = Idle | Placing(op: Op) | Updating(op: Op, pc: FilePc)

  datatype World = World(fs: Fs, renewal: Renewal, update: Update)

  /** A payload as `writeKeypair` builds it where trust bundles are configured. */
  predicate RenewalOp(op: Op, names: seq<Name>, ca: Name) {
    && ValidOp(op) && op.whole && ca in op.files
    && (forall n <- names :: n in op.files)
    && (forall n <- op.files :: n in names)
    && (forall i, j | 0 <= i < j < |names| :: names[i] != names[j])
  }

  predicate UpdateOp(op: Op, ca: Name) {
    ValidOp(op) && !op.whole && op.files.Keys == {ca}
  }

  /** The data directory is made and given its group. */
  predicate DirectoryNext(op: Op, s: Fs, s': Fs) {
    || s' == Apply(s, MakeDir)
    || (s.present && op.group.Some? && s' == Apply(s, ChownDir(op.group.value)))
  }

  /** What a listing shows that is not in the payload. */
  function Unlisted(s: Fs, keep: set<Name>): map<Name, bool> {
    map n | n in s.root && n !in keep :: IsLink(s, n)
  }

  /** The next removal at `n`: the file behind a link first, then the entry; whatever has become of them. */
  predicate PruneNext(n: Name, s: Fs, left: map<Name, bool>, at: Option<Name>, s': Fs, left': map<Name, bool>,
      at': Option<Name>)
  {
    && n in left && (at.Some? ==> at == Some(n))
    && if left[n] && at.None? then s' == Apply(s, RemoveBehind(n)) && left' == left && at' == Some(n)
       else s' == Apply(s, RemoveEntry(n)) && left' == left - {n} && at' == None
  }

  /** A layout found broken is handed to the csi-lib writer, which may do anything to it. */
  predicate RenewalNext(ca: Name, s: Fs, r: Renewal, s': Fs, r': Renewal) {
    match r
    case Resting(_) => s' == s && r'.Preparing? && RenewalOp(r'.op, r'.names, ca)
    case Preparing(op, names) =>
      || Broken(s, op.files.Keys)
      || (s' == s && r' == Resting(None))
      || (r' == r && DirectoryNext(op, s, s'))
      || (s' == s && s.present && r' == Pruning(op, names, Unlisted(s, op.files.Keys), None))
    case Pruning(op, names, left, at) =>
      || (s' == s && r' == Resting(None))
      || (s' == s && left == map[] && r' == Delivering(op, names, 0, Compare))
      || (r'.Pruning? && r' == r.(left := r'.left, at := r'.at)
          && exists n <- left :: PruneNext(n, s, left, at, s', r'.left, r'.at))
    case Delivering(op, names, k, pc) =>
      || (s' == s && r' == Resting(None))
      || (s' == s && k >= |names| && r' == Recording(op))
      || (s' == s && k < |names| && pc == Complete && r' == Delivering(op, names, k + 1, Compare))
      || (k < |names| && names[k] in op.files && r'.Delivering? && r' == r.(pc := r'.pc)
          && FileNext(op, names[k], s, pc, s', r'.pc))
    case Recording(op) => s' == s && (r' == Resting(Some(op.files)) || r' == Resting(None))
  }

  /** A layout found broken is refused. */
  predicate UpdateNext(ca: Name, s: Fs, u: Update, s': Fs, u': Update) {
    match u
    case Idle => s' == s && u'.Placing? && UpdateOp(u'.op, ca)
    case Placing(op) =>
      || (s' == s && u' == Idle)
      || (u' == u && DirectoryNext(op, s, s'))
      || (s' == s && s.present && !Broken(s, {ca}) && u' == Updating(op, Compare))
    case Updating(op, pc) =>
      || (s' == s && u' == Idle)
      || (ca in op.files && u'.Updating? && u' == u.(pc := u'.pc) && FileNext(op, ca, s, pc, s', u'.pc))
  }

  predicate Next(ca: Name, w: World, w': World) {
    || (w'.update == w.update && RenewalNext(ca, w.fs, w.renewal, w'.fs, w'.renewal))
    || (w'.renewal == w.renewal && UpdateNext(ca, w.fs, w.update, w'.fs, w'.update))
  }

  predicate Run(ca: Name, ws: seq<World>) {
    && ws != []
    && Inv(ws[0].fs) && Whole(ws[0].fs)
    && ws[0].renewal == Resting(None) && ws[0].update == Idle
    && forall k | 0 <= k < |ws| - 1 :: Next(ca, ws[k], ws[k + 1])
  }

  // ---- The invariant -------------------------------------------------------------------------------

  predicate Holds(s: Fs, files: map<Name, Bytes>, n: Name) {
    n in files && Lookup(s, n) == Some(files[n])
  }

  /** Every file of the payload but the trust bundle is on disk. */
  predicate KeypairHolds(s: Fs, files: map<Name, Bytes>, ca: Name) {
    forall n <- files :: n != ca ==> Holds(s, files, n)
  }

  /** The listing is still right about what is left to be removed. */
  predicate PruneInv(s: Fs, keep: set<Name>, left: map<Name, bool>, at: Option<Name>) {
    && (forall n <- left :: n !in keep && n in s.root && left[n] == IsLink(s, n))
    && (at.Some? ==> at.value in left && left[at.value] && !Behind(s, at.value))
  }

  predicate RenewalInv(s: Fs, r: Renewal, ca: Name) {
    match r
    case Resting(recorded) => recorded.Some? ==> KeypairHolds(s, recorded.value, ca)
    case Preparing(op, names) => RenewalOp(op, names, ca)
    case Pruning(op, names, left, at) => RenewalOp(op, names, ca) && PruneInv(s, op.files.Keys, left, at)
    case Delivering(op, names, k, pc) =>
      && RenewalOp(op, names, ca)
      && (forall j | 0 <= j < k && j < |names| :: names[j] != ca ==> Holds(s, op.files, names[j]))
      && (k < |names| ==> Attached(s, names[k], pc))
      && (k < |names| && names[k] != ca ==> Filled(s, names[k], op.files[names[k]], pc))
    case Recording(op) => KeypairHolds(s, op.files, ca)
  }

  predicate UpdateInv(s: Fs, u: Update, ca: Name) {
    match u
    case Idle => true
    case Placing(op) => UpdateOp(op, ca)
    case Updating(op, pc) => UpdateOp(op, ca) && Attached(s, ca, pc)
  }

  predicate RaceInv(w: World, ca: Name) {
    && Inv(w.fs) && Whole(w.fs)
    && RenewalInv(w.fs, w.renewal, ca) && UpdateInv(w.fs, w.update, ca)
  }

  /** What one call of an actor leaves the other actor. */
  ghost predicate Undisturbed(s: Fs, s': Fs, ca: Name, n: Name) {
    && Inv(s') && Whole(s')
    && Keeps(s, s', ca)
    && (forall m :: m != n ==> Lookup(s', m) == Lookup(s, m) && Keeps(s, s', m) && SameEntry(s, s', m))
  }

  lemma DirectoryKeeps(op: Op, s: Fs, s': Fs)
    requires Inv(s) && Whole(s) && ValidOp(op) && DirectoryNext(op, s, s')
    ensures Inv(s') && Whole(s')
    ensures forall n :: Keeps(s, s', n) && Lookup(s', n) == Lookup(s, n) && SameEntry(s, s', n)
  {
    SameEntries(s, s');
    SameResolves(s, s');
  }

  /** A removal is allowed whatever the update has done since the listing, and since the last removal. */
  lemma PruneStep(op: Op, n: Name, s: Fs, left: map<Name, bool>, at: Option<Name>, s': Fs, left': map<Name, bool>,
      at': Option<Name>)
    requires Inv(s) && Whole(s) && ValidOp(op) && op.whole
    requires PruneInv(s, op.files.Keys, left, at) && PruneNext(n, s, left, at, s', left', at')
    ensures Inv(s') && Whole(s') && PruneInv(s', op.files.Keys, left', at')
    ensures forall m <- op.files :: Keeps(s, s', m) && Lookup(s', m) == Lookup(s, m)
  {
    var c := if left[n] && at.None? then RemoveBehind(n) else RemoveEntry(n);
    assert Allowed(op, s, c);
    StepKeeps(op, s, c);
    assert forall m <- left' :: m in left;
  }

  /** A renewal's step keeps its own account, and the trust bundle's file where it is. */
  lemma RenewalStep(ca: Name, s: Fs, r: Renewal, s': Fs, r': Renewal)
    requires Inv(s) && Whole(s) && RenewalInv(s, r, ca) && RenewalNext(ca, s, r, s', r')
    ensures Inv(s') && Whole(s') && RenewalInv(s', r', ca) && Keeps(s, s', ca)
  {
    match r
    case Preparing(op, names) =>
      if r'.Preparing? {
        DirectoryKeeps(op, s, s');
      }
    case Pruning(op, names, left, at) =>
      if r'.Pruning? {
        var n :| n in left && PruneNext(n, s, left, at, s', r'.left, r'.at);
        PruneStep(op, n, s, left, at, s', r'.left, r'.at);
      }
    case Delivering(op, names, k, pc) =>
      if r'.Delivering? && r'.k == k {
        WritingStep(ca, s, op, names, k, pc, s', r'.pc);
      } else if r'.Delivering? {
        FileDone(ca, s, op, names, k);
      } else if r'.Recording? {
        AllDone(ca, s, op, names);
      }
    case _ =>
  }

  lemma WritingStep(ca: Name, s: Fs, op: Op, names: seq<Name>, k: nat, pc: FilePc, s': Fs, pc': FilePc)
    requires Inv(s) && Whole(s) && RenewalInv(s, Delivering(op, names, k, pc), ca)
    requires k < |names| && names[k] in op.files && FileNext(op, names[k], s, pc, s', pc')
    ensures Inv(s') && Whole(s') && RenewalInv(s', Delivering(op, names, k, pc'), ca) && Keeps(s, s', ca)
  {
    FileNextKeeps(op, names[k], s, pc, s', pc');
    if names[k] != ca {
      FileNextFills(op, names[k], s, pc, s', pc');
    }
    forall j | 0 <= j < k && names[j] != ca
      ensures Holds(s', op.files, names[j])
    {
      assert Holds(s, op.files, names[j]) && names[j] != names[k];
    }
  }

  lemma FileDone(ca: Name, s: Fs, op: Op, names: seq<Name>, k: nat)
    requires k < |names| && RenewalInv(s, Delivering(op, names, k, Complete), ca)
    ensures RenewalInv(s, Delivering(op, names, k + 1, Compare), ca)
  {
    assert names[k] in names;
  }

  lemma AllDone(ca: Name, s: Fs, op: Op, names: seq<Name>)
    requires RenewalOp(op, names, ca)
    requires forall j | 0 <= j < |names| :: names[j] != ca ==> Holds(s, op.files, names[j])
    ensures KeypairHolds(s, op.files, ca)
  {
    forall n <- op.files | n != ca
      ensures Holds(s, op.files, n)
    {
      assert n in names;
      var j :| 0 <= j < |names| && names[j] == n;
    }
  }

  /** An update's step keeps its own account, and leaves every other file as it is. */
  lemma UpdateStep(ca: Name, s: Fs, u: Update, s': Fs, u': Update)
    requires Inv(s) && Whole(s) && UpdateInv(s, u, ca) && UpdateNext(ca, s, u, s', u')
    ensures Undisturbed(s, s', ca, ca) && UpdateInv(s', u', ca)
  {
    match u
    case Idle =>
    case Placing(op) =>
      if u'.Placing? {
        DirectoryKeeps(op, s, s');
      }
    case Updating(op, pc) =>
      if u'.Updating? {
        FileNextKeeps(op, ca, s, pc, s', u'.pc);
        forall m | m != ca
          ensures SameEntry(s, s', m)
        {
          FileNextEntries(op, ca, s, pc, s', u'.pc, m);
        }
      }
  }

  lemma PruneUndisturbed(ca: Name, s: Fs, s': Fs, keep: set<Name>, left: map<Name, bool>, at: Option<Name>)
    requires PruneInv(s, keep, left, at) && ca in keep && Undisturbed(s, s', ca, ca)
    ensures PruneInv(s', keep, left, at)
  {
    forall n <- left
      ensures n !in keep && n in s'.root && left[n] == IsLink(s', n)
    {
      assert SameEntry(s, s', n);
    }
    if at.Some? {
      assert SameEntry(s, s', at.value);
    }
  }

  /** What an update leaves alone is all that a renewal relies on. */
  lemma RenewalUndisturbed(ca: Name, s: Fs, s': Fs, r: Renewal)
    requires RenewalInv(s, r, ca) && Undisturbed(s, s', ca, ca)
    ensures RenewalInv(s', r, ca)
  {
    match r
    case Pruning(op, names, left, at) => PruneUndisturbed(ca, s, s', op.files.Keys, left, at);
    case Delivering(op, names, k, pc) =>
      forall j | 0 <= j < k && j < |names| && names[j] != ca
        ensures Holds(s', op.files, names[j])
      {
        assert Holds(s, op.files, names[j]);
      }
      if k < |names| {
        assert Keeps(s, s', names[k]);
      }
    case Resting(recorded) =>
      if recorded.Some? {
        KeypairUndisturbed(s, s', recorded.value, ca);
      }
    case Recording(op) => KeypairUndisturbed(s, s', op.files, ca);
    case _ =>
  }

  lemma KeypairUndisturbed(s: Fs, s': Fs, files: map<Name, Bytes>, ca: Name)
    requires KeypairHolds(s, files, ca) && Undisturbed(s, s', ca, ca)
    ensures KeypairHolds(s', files, ca)
  {
    forall n <- files | n != ca
      ensures Holds(s', files, n)
    {
      assert Holds(s, files, n);
    }
  }

  lemma {:induction false} RaceInvariant(ca: Name, ws: seq<World>, k: nat)
    requires Run(ca, ws) && k < |ws|
    ensures RaceInv(ws[k], ca)
  {
    if k > 0 {
      RaceInvariant(ca, ws, k - 1);
      var w, w' := ws[k - 1], ws[k - 1 + 1];
      assert Next(ca, w, w');
      if w'.update == w.update && RenewalNext(ca, w.fs, w.renewal, w'.fs, w'.renewal) {
        RenewalStep(ca, w.fs, w.renewal, w'.fs, w'.renewal);
      } else {
        UpdateStep(ca, w.fs, w.update, w'.fs, w'.update);
        RenewalUndisturbed(ca, w.fs, w'.fs, w.renewal);
      }
    }
  }

  /**
   No keypair rollback: from the moment the metadata of a renewal is recorded until the next renewal
   starts, whatever trust bundle updates do in between, a pod reads every file of that renewal other
   than the trust bundle exactly as it was written.
   */
  lemma NoKeypairRollback(ca: Name, ws: seq<World>, k: nat, n: Name)
    requires Run(ca, ws) && k < |ws|
    requires ws[k].renewal.Resting? && ws[k].renewal.recorded.Some?
    requires n != ca && n in ws[k].renewal.recorded.value
    ensures Lookup(ws[k].fs, n) == Some(ws[k].renewal.recorded.value[n])
  {
    RaceInvariant(ca, ws, k);
    assert Holds(ws[k].fs, ws[k].renewal.recorded.value, n);
  }

  // ---- The trust bundle's own file ---------------------------------------------------------------------

  predicate RenewalCarries(r: Renewal, ca: Name, b: Bytes) {
    r.Resting? || (ca in r.op.files && r.op.files[ca] == b)
  }

  predicate UpdateCarries(u: Update, ca: Name, b: Bytes) {
    u.Idle? || (ca in u.op.files && u.op.files[ca] == b)
  }

  /** Whoever is at work writes this bundle. */
  predicate Carries(w: World, ca: Name, b: Bytes) {
    RenewalCarries(w.renewal, ca, b) && UpdateCarries(w.update, ca, b)
  }

  predicate PastCutAt(pc: FilePc) {
    pc.Owning? || pc.Complete?
  }

  /** The renewal, or the update, has cut the trust bundle's file to length or found it right. */
  predicate PastCut(w: World, ca: Name) {
    || (w.renewal.Delivering? && w.renewal.k < |w.renewal.names| && w.renewal.names[w.renewal.k] == ca
        && PastCutAt(w.renewal.pc))
    || (w.update.Updating? && PastCutAt(w.update.pc))
  }

  predicate RenewalFills(s: Fs, r: Renewal, ca: Name, b: Bytes) {
    r.Delivering? && r.k < |r.names| && r.names[r.k] == ca ==> Filled(s, ca, b, r.pc)
  }

  predicate UpdateFills(s: Fs, u: Update, ca: Name, b: Bytes) {
    u.Updating? ==> Filled(s, ca, b, u.pc)
  }

  /** What both have written of it is in place, and once either is past its cut all of it is. */
  predicate BundleInv(w: World, ca: Name, b: Bytes, past: bool) {
    && RenewalFills(w.fs, w.renewal, ca, b) && UpdateFills(w.fs, w.update, ca, b)
    && (past ==> Lookup(w.fs, ca) == Some(b))
  }

  lemma BundleRenewalStep(ca: Name, b: Bytes, w: World, w': World, past: bool)
    requires RaceInv(w, ca) && RaceInv(w', ca) && Carries(w, ca, b) && Carries(w', ca, b) && BundleInv(w, ca, b, past)
    requires w'.update == w.update && RenewalNext(ca, w.fs, w.renewal, w'.fs, w'.renewal)
    ensures BundleInv(w', ca, b, past)
  {
    var s, s', r, r' := w.fs, w'.fs, w.renewal, w'.renewal;
    if r.Preparing? && r'.Preparing? {
      DirectoryKeeps(r.op, s, s');
    } else if r.Pruning? && r'.Pruning? {
      var n :| n in r.left && PruneNext(n, s, r.left, r.at, s', r'.left, r'.at);
      PruneStep(r.op, n, s, r.left, r.at, s', r'.left, r'.at);
    } else if r.Delivering? && r'.Delivering? && r'.k == r.k {
      BundleDeliveryStep(ca, b, w, w', past);
    }
  }

  lemma BundleDeliveryStep(ca: Name, b: Bytes, w: World, w': World, past: bool)
    requires RaceInv(w, ca) && RaceInv(w', ca) && Carries(w, ca, b) && BundleInv(w, ca, b, past)
    requires w'.update == w.update && w.renewal.Delivering? && w'.renewal.Delivering?
    requires w'.renewal == w.renewal.(pc := w'.renewal.pc)
    requires w.renewal.k < |w.renewal.names| && w.renewal.names[w.renewal.k] in w.renewal.op.files
    requires FileNext(w.renewal.op, w.renewal.names[w.renewal.k], w.fs, w.renewal.pc, w'.fs, w'.renewal.pc)
    ensures BundleInv(w', ca, b, past)
  {
    var s, s', r, r' := w.fs, w'.fs, w.renewal, w'.renewal;
    var n := r.names[r.k];
    if n == ca {
      FileNextFills(r.op, ca, s, r.pc, s', r'.pc);
      FileNextShares(r.op, ca, s, r.pc, s', r'.pc, if w.update.Updating? then w.update.pc else Compare);
    } else {
      FileNextKeeps(r.op, n, s, r.pc, s', r'.pc);
    }
  }

  lemma BundleUpdateStep(ca: Name, b: Bytes, w: World, w': World, past: bool)
    requires RaceInv(w, ca) && RaceInv(w', ca) && Carries(w, ca, b) && Carries(w', ca, b) && BundleInv(w, ca, b, past)
    requires w'.renewal == w.renewal && UpdateNext(ca, w.fs, w.update, w'.fs, w'.update)
    ensures BundleInv(w', ca, b, past)
  {
    var s, s', u, u' := w.fs, w'.fs, w.update, w'.update;
    if u.Placing? && u'.Placing? {
      DirectoryKeeps(u.op, s, s');
    } else if u.Updating? && u'.Updating? {
      FileNextFills(u.op, ca, s, u.pc, s', u'.pc);
      FileNextShares(u.op, ca, s, u.pc, s', u'.pc, if w.renewal.Delivering? then w.renewal.pc else Compare);
    }
  }

  /**
   The trust bundle's own file: while renewals and updates carry the same bundle, a pod reads exactly
   that bundle from the moment the first of them is past its cut, however their writes interleave.
   */
  lemma SameBundleHolds(ca: Name, ws: seq<World>, b: Bytes, j: nat, k: nat)
    requires Run(ca, ws) && j <= k < |ws| && (forall i | 0 <= i <= k :: Carries(ws[i], ca, b))
    requires PastCut(ws[j], ca)
    ensures Lookup(ws[k].fs, ca) == Some(b)
  {
    BundleHolds(ca, ws, b, j, k);
  }

  lemma {:induction false} BundleHolds(ca: Name, ws: seq<World>, b: Bytes, j: nat, k: nat)
    requires Run(ca, ws) && k < |ws| && j < |ws| && (forall i | 0 <= i <= k :: Carries(ws[i], ca, b))
    requires PastCut(ws[j], ca)
    ensures BundleInv(ws[k], ca, b, j <= k)
  {
    if k > 0 {
      BundleHolds(ca, ws, b, j, k - 1);
      RaceInvariant(ca, ws, k - 1);
      RaceInvariant(ca, ws, k);
      var w, w' := ws[k - 1], ws[k - 1 + 1];
      assert Next(ca, w, w');
      if w'.update == w.update && RenewalNext(ca, w.fs, w.renewal, w'.fs, w'.renewal) {
        BundleRenewalStep(ca, b, w, w', j <= k - 1);
      } else {
        BundleUpdateStep(ca, b, w, w', j <= k - 1);
      }
    }
  }
}
