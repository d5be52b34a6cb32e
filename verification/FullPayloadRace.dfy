/**
 The same race in atomic-dir mode, where a trust bundle update has to read the certificate and the key
 off the volume and write them back. Every write is all or nothing here; the race is in the reads.
 */
module FullPayloadRace {
  import opened VolumeFs
  import opened VolumeStore

  /** A value read off the volume after so many renewals. */
  datatype Read = Read(data: Bytes, at: nat)

  datatype Update =
    | Idle
    | HasCert(cert: Read)
    | HasPair(cert: Read, key: Read)

  /** `renewals` are the payloads written by renewals so far. */
  datatype World = World(disk: Contents, renewals: seq<Contents>, update: Update)

  datatype Event = Renew(files: Contents) | ReadCert | ReadKey | Publish(bundle: Bytes) | GiveUp

  function Last(w: World): Contents {
    if w.renewals == [] then map[] else w.renewals[|w.renewals| - 1]
  }

  predicate Enabled(names: FileNames, w: World, e: Event) {
    match e
    case Renew(files) => names.cert in files && names.key in files && names.ca in files
    case ReadCert => w.update.Idle? && names.cert in w.disk
    case ReadKey => w.update.HasCert? && names.key in w.disk
    case Publish(_) => w.update.HasPair?
    case GiveUp => true
  }

  function Step(names: FileNames, w: World, e: Event): World
    requires Enabled(names, w, e)
  {
    match e
    case Renew(files) => World(files, w.renewals + [files], w.update)
    case ReadCert => w.(update := HasCert(Read(w.disk[names.cert], |w.renewals|)))
    case ReadKey => w.(update := HasPair(w.update.cert, Read(w.disk[names.key], |w.renewals|)))
    case Publish(bundle) =>
      w.(disk := map[names.cert := w.update.cert.data, names.key := w.update.key.data, names.ca := bundle],
         update := Idle)
    case GiveUp => w.(update := Idle)
  }

  predicate Runs(names: FileNames, w: World, events: seq<Event>)
    decreases |events|
  {
    events == [] ||
    (Enabled(names, w, events[0]) && Runs(names, Step(names, w, events[0]), events[1..]))
  }

  function After(names: FileNames, w: World, events: seq<Event>): World
    requires Runs(names, w, events)
    decreases |events|
  {
    if events == [] then w else After(names, Step(names, w, events[0]), events[1..])
  }

  /** The keypair on disk is the last renewal's. */
  predicate Synced(names: FileNames, w: World) {
    && w.renewals != []
    && names.cert in w.disk && names.key in w.disk
    && names.cert in Last(w) && names.key in Last(w)
    && w.disk[names.cert] == Last(w)[names.cert]
    && w.disk[names.key] == Last(w)[names.key]
  }

  /** Every renewal has a certificate and a key of its own. */
  predicate AllFresh(names: FileNames, renewals: seq<Contents>) {
    && (forall j | 0 <= j < |renewals| :: names.cert in renewals[j] && names.key in renewals[j])
    && (forall j, k | 0 <= j < k < |renewals| ::
         renewals[j][names.cert] != renewals[k][names.cert] && renewals[j][names.key] != renewals[k][names.key])
  }

  /** What was read is what the renewal of that time had written. */
  predicate ReadOf(w: World, n: Name, r: Read) {
    && 0 < r.at <= |w.renewals|
    && n in w.renewals[r.at - 1]
    && r.data == w.renewals[r.at - 1][n]
  }

  predicate ReadsTrue(names: FileNames, w: World) {
    match w.update
    case Idle => true
    case HasCert(cert) => ReadOf(w, names.cert, cert)
    case HasPair(cert, key) => ReadOf(w, names.cert, cert) && ReadOf(w, names.key, key) && cert.at <= key.at
  }

  predicate NoPublish(events: seq<Event>) {
    forall e <- events :: !e.Publish?
  }

  lemma {:induction false} ReadsStayTrue(names: FileNames, w: World, events: seq<Event>)
    requires Synced(names, w) && ReadsTrue(names, w) && Runs(names, w, events) && NoPublish(events)
    ensures var w' := After(names, w, events);
      Synced(names, w') && ReadsTrue(names, w') && w.renewals <= w'.renewals
    decreases |events|
  {
    if events != [] {
      var w1 := Step(names, w, events[0]);
      assert events[0] in events;
      assert forall e <- events[1..] :: e in events;
      if events[0].Renew? {
        assert forall k | 0 <= k < |w.renewals| :: w1.renewals[k] == w.renewals[k];
      }
      ReadsStayTrue(names, w1, events[1..]);
    }
  }

  /**
   Exactly when an update keeps the keypair: after it publishes, the pair on disk is the last
   renewal's if and only if no renewal has landed since it read the certificate.
   */
  lemma PublishKeepsPairExactly(names: FileNames, w: World, events: seq<Event>, bundle: Bytes)
    requires names.Distinct() && Synced(names, w) && w.update.Idle?
    requires Runs(names, w, events) && NoPublish(events)
    requires var w1 := After(names, w, events); w1.update.HasPair? && AllFresh(names, w1.renewals)
    ensures var w1 := After(names, w, events);
      Synced(names, Step(names, w1, Publish(bundle))) <==> w1.update.cert.at == |w1.renewals|
  {
    ReadsStayTrue(names, w, events);
    var w1 := After(names, w, events);
    var top := |w1.renewals| - 1;
    assert Last(w1) == w1.renewals[top];
    if w1.update.cert.at != |w1.renewals| {
      assert w1.renewals[w1.update.cert.at - 1][names.cert] != w1.renewals[top][names.cert];
    }
  }

  /**
   A renewal that lands between the two reads leaves a certificate and a key that were never issued
   together by any renewal.
   */
  lemma RenewalBetweenReadsTearsPair(names: FileNames, w: World, events: seq<Event>, bundle: Bytes, j: nat)
    requires names.Distinct() && Synced(names, w) && w.update.Idle?
    requires Runs(names, w, events) && NoPublish(events)
    requires var w1 := After(names, w, events);
      && w1.update.HasPair? && AllFresh(names, w1.renewals) && w1.update.cert.at < w1.update.key.at
      && j < |w1.renewals|
    ensures var w1 := After(names, w, events);
      var torn := Step(names, w1, Publish(bundle)).disk;
      !(torn[names.cert] == w1.renewals[j][names.cert] && torn[names.key] == w1.renewals[j][names.key])
  {
    ReadsStayTrue(names, w, events);
    var w1 := After(names, w, events);
    var c, k := w1.update.cert.at - 1, w1.update.key.at - 1;
    if j != c {
      assert w1.renewals[if j < c then j else c][names.cert] != w1.renewals[if j < c then c else j][names.cert];
    } else {
      assert w1.renewals[c][names.key] != w1.renewals[k][names.key];
    }
  }

  /** Exactly when the pair an update publishes was issued together, by whichever renewal. */
  lemma PublishedPairIssuedExactly(names: FileNames, w: World, events: seq<Event>, bundle: Bytes)
    requires names.Distinct() && Synced(names, w) && w.update.Idle?
    requires Runs(names, w, events) && NoPublish(events)
    requires var w1 := After(names, w, events); w1.update.HasPair? && AllFresh(names, w1.renewals)
    ensures var w1 := After(names, w, events);
      var disk := Step(names, w1, Publish(bundle)).disk;
      (exists j | 0 <= j < |w1.renewals| ::
         disk[names.cert] == w1.renewals[j][names.cert] && disk[names.key] == w1.renewals[j][names.key])
      <==> w1.update.cert.at == w1.update.key.at
  {
    ReadsStayTrue(names, w, events);
    var w1 := After(names, w, events);
    var disk := Step(names, w1, Publish(bundle)).disk;
    var c := w1.update.cert.at - 1;
    if w1.update.cert.at == w1.update.key.at {
      assert disk[names.cert] == w1.renewals[c][names.cert] && disk[names.key] == w1.renewals[c][names.key];
    } else {
      forall j | 0 <= j < |w1.renewals|
        ensures !(disk[names.cert] == w1.renewals[j][names.cert] && disk[names.key] == w1.renewals[j][names.key])
      {
        RenewalBetweenReadsTearsPair(names, w, events, bundle, j);
      }
    }
  }

  predicate NoRenewal(events: seq<Event>) {
    forall e <- events :: !e.Renew?
  }

  /** What an update in progress has read is what the disk still holds. */
  predicate ReadsDisk(names: FileNames, w: World) {
    && names.cert in w.disk && names.key in w.disk
    && match w.update
       case Idle => true
       case HasCert(cert) => cert.data == w.disk[names.cert]
       case HasPair(cert, key) => cert.data == w.disk[names.cert] && key.data == w.disk[names.key]
  }

  /** Nothing repairs a lost keypair but the next renewal: updates go on writing back what they find. */
  lemma OnlyRenewalRepairs(names: FileNames, w: World, events: seq<Event>)
    requires names.Distinct() && w.update.Idle? && names.cert in w.disk && names.key in w.disk
    requires Runs(names, w, events) && NoRenewal(events)
    ensures var w' := After(names, w, events);
      && names.cert in w'.disk && w'.disk[names.cert] == w.disk[names.cert]
      && names.key in w'.disk && w'.disk[names.key] == w.disk[names.key]
      && (Synced(names, w') <==> Synced(names, w))
  {
    PairStays(names, w, events);
  }

  lemma {:induction false} PairStays(names: FileNames, w: World, events: seq<Event>)
    requires names.Distinct() && ReadsDisk(names, w) && Runs(names, w, events) && NoRenewal(events)
    ensures var w' := After(names, w, events);
      && ReadsDisk(names, w') && w'.renewals == w.renewals
      && w'.disk[names.cert] == w.disk[names.cert] && w'.disk[names.key] == w.disk[names.key]
    decreases |events|
  {
    if events != [] {
      assert events[0] in events;
      assert forall e <- events[1..] :: e in events;
      PairStays(names, Step(names, w, events[0]), events[1..]);
    }
  }

  /** The rollback, event by event: the new pair is written in full, and the old one comes back. */
  lemma RenewalRolledBack(names: FileNames, before: Contents, after: Contents, bundle: Bytes)
    requires names.Distinct()
    requires names.cert in before && names.key in before && names.ca in before
    requires names.cert in after && names.key in after && names.ca in after
    requires before[names.cert] != after[names.cert]
    ensures var w := World(before, [before], Idle);
      var events := [ReadCert, ReadKey, Renew(after), Publish(bundle)];
      && Synced(names, w) && Runs(names, w, events)
      && var w' := After(names, w, events);
      && Last(w') == after && ReadsDisk(names, w')
      && w'.disk[names.cert] == before[names.cert] && w'.disk[names.key] == before[names.key]
      && !Synced(names, w')
  {
    var w := World(before, [before], Idle);
    var w1 := Step(names, w, ReadCert);
    var w2 := Step(names, w1, ReadKey);
    var w3 := Step(names, w2, Renew(after));
    var w4 := Step(names, w3, Publish(bundle));
    var e4 := [Publish(bundle)];
    var e3 := [Renew(after)] + e4;
    var e2 := [ReadKey] + e3;
    var e1 := [ReadCert] + e2;
    assert e1 == [ReadCert, ReadKey, Renew(after), Publish(bundle)];
    assert Runs(names, w4, []) && After(names, w4, []) == w4;
    assert e4[1..] == [] && Runs(names, w3, e4) && After(names, w3, e4) == w4;
    assert e3[1..] == e4 && Runs(names, w2, e3) && After(names, w2, e3) == w4;
    assert e2[1..] == e3 && Runs(names, w1, e2) && After(names, w1, e2) == w4;
    assert e1[1..] == e2 && Runs(names, w, e1) && After(names, w, e1) == w4;
  }
}
