/** `updateRootCAFiles`: one pass over all volumes that brings their trust bundle up to date. */
module CaManager {
  import opened Prelude
  import opened VolumeFs
  import opened VolumeStore
  import RootCa

  /** What a pass is to do, on a store that can write single files or only whole payloads. */
  datatype Pass = Pass(singleFile: bool, names: FileNames, pem: Bytes) {

    predicate UpToDate(files: Contents) {
      names.ca in files && files[names.ca] == pem
    }

    /** The store can write a new bundle to this volume: alone, or next to a keypair that is there. */
    predicate CanWrite(files: Contents) {
      singleFile || (names.cert in files && names.key in files)
    }

    /** A volume whose bundle has been written. */
    function Rewritten(files: Contents): Contents
      requires CanWrite(files)
    {
      if singleFile then files[names.ca := pem]
      else map[names.cert := files[names.cert], names.key := files[names.key], names.ca := pem]
    }

    /**
     A volume that has had its turn. One that is up to date already is left alone, unless its bundle
     could not be read.
     */
    predicate HadTurn(before: Contents, now: Contents, faulty: bool) {
      || (UpToDate(before) && now == before)
      || ((faulty || !UpToDate(before)) && CanWrite(before) && now == Rewritten(before))
    }

    /** No turn can bring the volume up to date, as the store refuses it or its keypair is missing. */
    predicate Hopeless(files: Contents, refused: bool) {
      !UpToDate(files) && (refused || !CanWrite(files))
    }
  }

  /** Only `n` may differ. */
  predicate SameBut(before: Contents, now: Contents, n: Name) {
    now - {n} == before - {n}
  }

  predicate OnlyBundles(before: map<Vol, Contents>, now: map<Vol, Contents>, ca: Name) {
    now.Keys == before.Keys && forall v <- before :: SameBut(before[v], now[v], ca)
  }

  /** What a turn does for the pods that read the volume, in either mode. */
  lemma TurnLaws(pass: Pass, before: Contents, now: Contents, faulty: bool)
    requires pass.names.Distinct() && pass.HadTurn(before, now, faulty)
    ensures pass.names.ca in now && now[pass.names.ca] == pass.pem
    ensures pass.HadTurn(now, now, false)
    ensures pass.names.cert in before ==> pass.names.cert in now && now[pass.names.cert] == before[pass.names.cert]
    ensures pass.names.key in before ==> pass.names.key in now && now[pass.names.key] == before[pass.names.key]
    ensures pass.singleFile ==> SameBut(before, now, pass.names.ca)
  {
  }

  /**
   In atomic-dir mode another file, a keystore for one, survives a turn exactly if the turn leaves the
   volume alone.
   */
  lemma OthersSurviveExactly(pass: Pass, before: Contents, now: Contents, faulty: bool, n: Name)
    requires !pass.singleFile && pass.HadTurn(before, now, faulty) && n in before
    requires n != pass.names.cert && n != pass.names.key && n != pass.names.ca
    ensures n in now <==> now == before
    ensures n in now ==> pass.UpToDate(before)
  {
  }

  /** The turns of a whole pass; each volume has the bundle that was read for it. */
  datatype Turns = Turns(singleFile: bool, names: FileNames, pems: map<Vol, Bytes>) {

    predicate Had(v: Vol, before: Contents, now: Contents, faulty: bool) {
      v in pems && Pass(singleFile, names, pems[v]).HadTurn(before, now, faulty)
    }

    function Also(v: Vol, pem: Bytes): Turns {
      Turns(singleFile, names, pems[v := pem])
    }
  }

  /** The volumes of `ids` up to `k` have had their turn and nothing else has changed. */
  predicate SoFar(turns: Turns, before: map<Vol, Contents>, now: map<Vol, Contents>, ids: seq<Vol>, k: nat,
      faulty: bool)
  {
    && k <= |ids|
    && now.Keys == before.Keys
    && (forall i | 0 <= i < k :: ids[i] in before && turns.Had(ids[i], before[ids[i]], now[ids[i]], faulty))
    && (forall i | k <= i < |ids| :: ids[i] in before && now[ids[i]] == before[ids[i]])
  }

  /** The pass is over: every volume has had its turn, and with it the bundle read for it. */
  predicate AllHadTurn(turns: Turns, before: map<Vol, Contents>, now: map<Vol, Contents>, faulty: bool) {
    && now.Keys == before.Keys
    && forall v <- before ::
         && turns.Had(v, before[v], now[v], faulty)
         && Pass(turns.singleFile, turns.names, turns.pems[v]).UpToDate(now[v])
  }

  /** The pass stopped: all volumes but one are as before or have had their turn. */
  predicate StoppedAt(turns: Turns, before: map<Vol, Contents>, now: map<Vol, Contents>, at: Vol) {
    && now.Keys == before.Keys
    && forall v <- before :: v == at || now[v] == before[v] || turns.Had(v, before[v], now[v], true)
  }

  /** What a stopped pass leaves at every other volume: what was there, or its turn done in full. */
  lemma StoppedLeaves(turns: Turns, before: map<Vol, Contents>, now: map<Vol, Contents>, at: Vol, v: Vol)
    requires turns.names.Distinct() && StoppedAt(turns, before, now, at)
    ensures v in now <==> v in before
    ensures v in before && v != at ==>
      || now[v] == before[v]
      || (v in turns.pems && turns.names.ca in now[v] && now[v][turns.names.ca] == turns.pems[v]
          && forall n | n == turns.names.cert || n == turns.names.key :: n in before[v] ==>
               n in now[v] && now[v][n] == before[v][n])
  {
    if v in before && v != at && now[v] != before[v] {
      TurnLaws(Pass(turns.singleFile, turns.names, turns.pems[v]), before[v], now[v], true);
    }
  }

  lemma SoFarStopped(turns: Turns, before: map<Vol, Contents>, mid: map<Vol, Contents>, now: map<Vol, Contents>,
      ids: seq<Vol>, k: nat, faulty: bool)
    requires Lists(ids, before.Keys) && k < |ids| && SoFar(turns, before, mid, ids, k, faulty)
    requires ids[k] in now && now == mid[ids[k] := now[ids[k]]]
    ensures StoppedAt(turns, before, now, ids[k])
  {
    assert now.Keys == mid.Keys;
    forall v <- before | v != ids[k]
      ensures now[v] == before[v] || turns.Had(v, before[v], now[v], true)
    {
      var i :| 0 <= i < |ids| && ids[i] == v;
      assert now[v] == mid[v];
    }
  }

  lemma SoFarNext(turns: Turns, before: map<Vol, Contents>, mid: map<Vol, Contents>, now: map<Vol, Contents>,
      ids: seq<Vol>, k: nat, pem: Bytes, earlier: bool, faulty: bool)
    requires Lists(ids, before.Keys) && k < |ids| && SoFar(turns, before, mid, ids, k, earlier)
    requires earlier ==> faulty
    requires ids[k] in now && now == mid[ids[k] := now[ids[k]]]
    requires turns.Also(ids[k], pem).Had(ids[k], before[ids[k]], now[ids[k]], faulty)
    ensures SoFar(turns.Also(ids[k], pem), before, now, ids, k + 1, faulty)
  {
    assert now.Keys == mid.Keys;
    forall i | 0 <= i < |ids| && i != k
      ensures now[ids[i]] == mid[ids[i]]
    {
      assert ids[i] != ids[k];
    }
    forall i | 0 <= i < k
      ensures turns.Also(ids[k], pem).Had(ids[i], before[ids[i]], now[ids[i]], faulty)
    {
      assert turns.Had(ids[i], before[ids[i]], mid[ids[i]], earlier);
    }
  }

  lemma SoFarOver(turns: Turns, before: map<Vol, Contents>, now: map<Vol, Contents>, ids: seq<Vol>, faulty: bool)
    requires turns.names.Distinct() && Lists(ids, before.Keys) && SoFar(turns, before, now, ids, |ids|, faulty)
    ensures AllHadTurn(turns, before, now, faulty)
  {
    forall v <- before
      ensures turns.Had(v, before[v], now[v], faulty)
      ensures Pass(turns.singleFile, turns.names, turns.pems[v]).UpToDate(now[v])
    {
      var i :| 0 <= i < |ids| && ids[i] == v;
      TurnLaws(Pass(turns.singleFile, turns.names, turns.pems[v]), before[v], now[v], faulty);
    }
  }

  class CaManager {
    const store: Store
    const rootCAs: RootCa.File?
    const names: FileNames

    constructor (store: Store, rootCAs: RootCa.File?, names: FileNames)
      ensures this.store == store && this.rootCAs == rootCAs && this.names == names
    {
      this.store, this.rootCAs, this.names := store, rootCAs, names;
    }

    ghost function PassWith(pem: Bytes): Pass {
      Pass(store.singleFile, names, pem)
    }

    /** The store refuses the write a turn would make, whatever the system does. */
    ghost predicate Refused(v: Vol)
      reads store
    {
      v in if store.singleFile then store.refusesFile else store.refusesFiles
    }

    /** The write of one volume's turn: the bundle alone, or the keypair read back and all three. */
    method WriteBundle(v: Vol, pem: Bytes) returns (ok: bool)
      requires names.Distinct() && v in store.volumes
      modifies store`volumes, store`faults
      ensures v in store.volumes && store.volumes == old(store.volumes)[v := store.volumes[v]]
      ensures ok ==> PassWith(pem).CanWrite(old(store.volumes)[v]) && !Refused(v) && store.faults == old(store.faults)
      ensures ok ==> store.volumes[v] == PassWith(pem).Rewritten(old(store.volumes)[v])
      ensures ok || store.faults > old(store.faults) || !PassWith(pem).CanWrite(old(store.volumes)[v]) || Refused(v)
      ensures store.faults >= old(store.faults)
      ensures store.singleFile ==> SameBut(old(store.volumes)[v], store.volumes[v], names.ca)
    {
      assert store.volumes[v := store.volumes[v]] == store.volumes;
      if store.singleFile {
        ok := store.WriteFile(v, names.ca, pem);
        return;
      }
      var cert := store.ReadFile(v, names.cert);
      if cert.None? {
        return false;
      }
      var key := store.ReadFile(v, names.key);
      if key.None? {
        return false;
      }
      ok := store.WriteFiles(v, map[names.cert := cert.value, names.key := key.value, names.ca := pem]);
    }

    /** Between any two calls of a pass the source may take in other bundles. */
    method OthersReload()
      requires rootCAs != null
      modifies rootCAs
    {
      var reloads: nat :| reloads >= 0;
      for i := 0 to reloads {
        var read: Option<Bytes> := *;
        rootCAs.ReloadCertificatesPEM(read);
      }
    }

    /** One volume's turn, with the bundle of the moment. */
    method UpdateVolume(v: Vol) returns (ok: bool, ghost pem: Bytes)
      requires names.Distinct() && v in store.volumes && rootCAs != null
      modifies store`volumes, store`faults, rootCAs
      ensures pem == rootCAs.certificatesPEM
      ensures v in store.volumes && store.volumes == old(store.volumes)[v := store.volumes[v]]
      ensures store.faults >= old(store.faults)
      ensures ok ==> PassWith(pem).HadTurn(old(store.volumes)[v], store.volumes[v], store.faults > old(store.faults))
      ensures ok || store.faults > old(store.faults) || PassWith(pem).Hopeless(old(store.volumes)[v], Refused(v))
      ensures store.singleFile ==> SameBut(old(store.volumes)[v], store.volumes[v], names.ca)
    {
      assert store.volumes[v := store.volumes[v]] == store.volumes;
      OthersReload();
      pem := rootCAs.certificatesPEM;
      var meta := store.ReadMetadata(v);
      if !meta {
        return false, pem;
      }
      var caPEM := rootCAs.CertificatesPEM();
      // Where reading fails nothing is known of the file, and it is written.
      var caData := store.ReadFile(v, names.ca);
      if caData == Some(caPEM) {
        return true, pem;
      }
      ok := WriteBundle(v, caPEM);
    }

    /** The whole pass. */
    method UpdateRootCAFiles() returns (ok: bool, ghost turns: Turns)
      requires names.Distinct()
      modifies store`volumes, store`faults, rootCAs
      ensures turns.singleFile == store.singleFile && turns.names == names
      ensures rootCAs == null ==> ok && unchanged(store)
      // Success brings every listed volume up to date with the bundle of its turn, and touches nothing
      // that was.
      ensures ok && rootCAs != null ==>
        && AllHadTurn(turns, old(store.volumes), store.volumes, store.faults > old(store.faults))
        && forall v <- store.volumes ::
             v in turns.pems && names.ca in store.volumes[v] && store.volumes[v][names.ca] == turns.pems[v]
      // Failure has a reason, and leaves at most one volume in neither state.
      ensures !ok ==>
        && rootCAs != null
        && (store.faults > old(store.faults)
            || exists v <- old(store.volumes) ::
                 PassWith(rootCAs.certificatesPEM).Hopeless(old(store.volumes)[v], Refused(v)))
        && (unchanged(store`volumes) || exists v :: StoppedAt(turns, old(store.volumes), store.volumes, v))
      // Where one file can be written alone, no other file of any volume changes, whatever happens.
      ensures store.singleFile ==> OnlyBundles(old(store.volumes), store.volumes, names.ca)
    {
      turns := Turns(store.singleFile, names, map[]);
      if rootCAs == null {
        return true, turns;
      }
      ghost var before := store.volumes;
      var listing := store.ListVolumes();
      if listing.None? {
        return false, turns;
      }
      var ids := listing.value;
      var k := 0;
      while k < |ids|
        invariant turns.singleFile == store.singleFile && turns.names == names
        invariant SoFar(turns, before, store.volumes, ids, k, store.faults > old(store.faults))
        invariant store.faults >= old(store.faults)
        invariant store.singleFile ==> OnlyBundles(before, store.volumes, names.ca)
      {
        ghost var mid, earlier := store.volumes, store.faults > old(store.faults);
        ghost var pem: Bytes;
        ok, pem := UpdateVolume(ids[k]);
        if !ok {
          SoFarStopped(turns, before, mid, store.volumes, ids, k, earlier);
          return;
        }
        SoFarNext(turns, before, mid, store.volumes, ids, k, pem, earlier, store.faults > old(store.faults));
        turns := turns.Also(ids[k], pem);
        k := k + 1;
      }
      SoFarOver(turns, before, store.volumes, ids, store.faults > old(store.faults));
      ok := true;
    }
  }
}
