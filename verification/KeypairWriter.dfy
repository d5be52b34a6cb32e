/** `writeKeypair`: an issued certificate becomes the payload of a volume, and then its metadata. */
module KeypairWriter {
  import opened Prelude
  import opened VolumeFs
  import opened VolumeStore
  import RootCa

  /** A certificate of the issued chain, as far as the driver looks at it. */
  datatype Cert = Cert(der: Bytes, isCA: bool)

  /** An unset name switches a keystore off. */
  datatype Keystores = Keystores(enabled: bool, p12: Name, jks: Name) {
    predicate Wanted() {
      enabled && (p12 != "" || jks != "")
    }
  }

  /**
   What has been issued. The encodings are other libraries' work and may fail: the key's, the chain's
   into certificates, and the two keystores' for a leaf.
   */
  datatype Issued = Issued(chain: Bytes, keyPem: Option<Bytes>, certs: Option<seq<Cert>>,
    p12: Cert -> Option<Bytes>, jks: Cert -> Option<Bytes>)

  /** The first certificate that is not a CA, else the first. */
  predicate IsLeaf(certs: seq<Cert>, leaf: Cert, fellBack: bool) {
    if fellBack then certs != [] && leaf == certs[0] && forall c <- certs :: c.isCA
    else exists i | 0 <= i < |certs| :: leaf == certs[i] && !leaf.isCA && forall j | 0 <= j < i :: certs[j].isCA
  }

  lemma LeafUnique(certs: seq<Cert>, a: Cert, b: Cert, fa: bool, fb: bool)
    requires IsLeaf(certs, a, fa) && IsLeaf(certs, b, fb)
    ensures a == b && fa == fb
  {
  }

  method PickLeaf(certs: seq<Cert>) returns (leaf: Option<Cert>, fellBack: bool)
    ensures leaf.None? <==> certs == []
    ensures leaf.Some? && !fellBack ==>
      exists i | 0 <= i < |certs| :: leaf.value == certs[i] && !certs[i].isCA && forall j | 0 <= j < i :: certs[j].isCA
    ensures leaf.Some? && fellBack ==> leaf.value == certs[0] && forall c <- certs :: c.isCA
    ensures leaf.Some? ==> IsLeaf(certs, leaf.value, fellBack)
  {
    for i := 0 to |certs|
      invariant forall j | 0 <= j < i :: certs[j].isCA
    {
      if !certs[i].isCA {
        return Some(certs[i]), false;
      }
    }
    if certs != [] {
      return Some(certs[0]), true;
    }
    return None, false;
  }

  /** The payload of an issued certificate, with the trust bundle if one is configured. */
  ghost predicate IsPayload(data: Contents, names: FileNames, keystores: Keystores, issued: Issued,
      pem: Option<Bytes>)
  {
    && issued.keyPem.Some?
    && var plain := WithBundle(map[names.cert := issued.chain, names.key := issued.keyPem.value], names.ca, pem);
    && (!keystores.Wanted() ==> data == plain)
    && (keystores.Wanted() ==> issued.certs.Some? && exists leaf: Cert, fellBack: bool ::
         && IsLeaf(issued.certs.value, leaf, fellBack)
         && (keystores.p12 != "" ==> issued.p12(leaf).Some?)
         && (keystores.jks != "" ==> issued.jks(leaf).Some?)
         && data == WithStore(WithStore(plain, keystores.p12, issued.p12(leaf)), keystores.jks, issued.jks(leaf)))
  }

  /** All that goes into a payload can be encoded. */
  ghost predicate Buildable(names: FileNames, keystores: Keystores, issued: Issued, pem: Option<Bytes>) {
    exists data :: IsPayload(data, names, keystores, issued, pem)
  }

  /** What a payload needs: the key encoded, and for keystores a leaf and its encoding for each one named. */
  lemma BuildableExactly(names: FileNames, keystores: Keystores, issued: Issued, pem: Option<Bytes>)
    ensures Buildable(names, keystores, issued, pem) <==>
      && issued.keyPem.Some?
      && (keystores.enabled && (keystores.p12 != "" || keystores.jks != "") ==>
           && issued.certs.Some? && issued.certs.value != []
           && forall leaf: Cert, fellBack: bool | IsLeaf(issued.certs.value, leaf, fellBack) ::
                && (keystores.p12 != "" ==> issued.p12(leaf).Some?)
                && (keystores.jks != "" ==> issued.jks(leaf).Some?))
  {
    if issued.certs.Some? && issued.certs.value != [] {
      var certs := issued.certs.value;
      var leaf, fellBack := LeafExists(certs);
      forall l, f | IsLeaf(certs, l, f)
        ensures l == leaf
      {
        LeafUnique(certs, l, leaf, f, fellBack);
      }
      if issued.keyPem.Some? {
        var plain := WithBundle(map[names.cert := issued.chain, names.key := issued.keyPem.value], names.ca, pem);
        var data := if !keystores.Wanted() then plain
          else WithStore(WithStore(plain, keystores.p12, issued.p12(leaf)), keystores.jks, issued.jks(leaf));
        var p12 := keystores.p12 != "" ==> issued.p12(leaf).Some?;
        var jks := keystores.jks != "" ==> issued.jks(leaf).Some?;
        assert p12 && jks ==> IsPayload(data, names, keystores, issued, pem);
      }
    }
    if issued.keyPem.Some? && !keystores.Wanted() {
      var plain := WithBundle(map[names.cert := issued.chain, names.key := issued.keyPem.value], names.ca, pem);
      assert IsPayload(plain, names, keystores, issued, pem);
    }
  }

  lemma LeafExists(certs: seq<Cert>) returns (leaf: Cert, fellBack: bool)
    requires certs != []
    ensures IsLeaf(certs, leaf, fellBack)
  {
    leaf, fellBack := certs[0], true;
    var i := 0;
    while i < |certs|
      invariant i <= |certs| && forall j | 0 <= j < i :: certs[j].isCA
    {
      if !certs[i].isCA {
        return certs[i], false;
      }
      i := i + 1;
    }
  }

  function WithBundle(data: Contents, ca: Name, pem: Option<Bytes>): Contents {
    if pem.Some? then data[ca := pem.value] else data
  }

  function WithStore(data: Contents, name: Name, store: Option<Bytes>): Contents {
    if name != "" && store.Some? then data[name := store.value] else data
  }

  predicate KeystoresApart(names: FileNames, keystores: Keystores) {
    && keystores.p12 !in {names.cert, names.key, names.ca}
    && keystores.jks !in {names.cert, names.key, names.ca}
  }

  /** With names apart, what a pod finds: its own chain and key, and the bundle if there is one. */
  lemma PayloadHolds(data: Contents, names: FileNames, keystores: Keystores, issued: Issued, pem: Option<Bytes>)
    requires names.Distinct() && KeystoresApart(names, keystores)
    requires IsPayload(data, names, keystores, issued, pem)
    ensures {names.cert, names.key} <= data.Keys
    ensures data[names.cert] == issued.chain && Some(data[names.key]) == issued.keyPem
    ensures pem.Some? <==> names.ca in data
    ensures pem.Some? ==> data[names.ca] == pem.value
    ensures data.Keys - {names.cert, names.key, names.ca} <=
      if keystores.Wanted() then {keystores.p12, keystores.jks} else {}
  {
  }

  /**
   With all names apart, exactly which keystores are there: those that have a name, if keystores are
   enabled, each encoded for the leaf of the chain.
   */
  lemma KeystoresHold(data: Contents, names: FileNames, keystores: Keystores, issued: Issued, pem: Option<Bytes>)
    requires names.Distinct() && KeystoresApart(names, keystores)
    requires keystores.p12 != "" ==> keystores.p12 != keystores.jks
    requires "" !in {names.cert, names.key, names.ca} && IsPayload(data, names, keystores, issued, pem)
    ensures keystores.p12 in data <==> keystores.enabled && keystores.p12 != ""
    ensures keystores.jks in data <==> keystores.enabled && keystores.jks != ""
    ensures keystores.p12 in data || keystores.jks in data ==>
      issued.certs.Some? && exists leaf: Cert, fellBack: bool ::
        && IsLeaf(issued.certs.value, leaf, fellBack)
        && (keystores.p12 in data ==> Some(data[keystores.p12]) == issued.p12(leaf))
        && (keystores.jks in data ==> Some(data[keystores.jks]) == issued.jks(leaf))
  {
  }

  class KeypairWriter {
    const store: Store
    const rootCAs: RootCa.File?
    const names: FileNames
    const keystores: Keystores

    constructor (store: Store, rootCAs: RootCa.File?, names: FileNames, keystores: Keystores)
      ensures this.store == store && this.rootCAs == rootCAs && this.names == names && this.keystores == keystores
    {
      this.store, this.rootCAs, this.names, this.keystores := store, rootCAs, names, keystores;
    }

    ghost function Bundle(): Option<Bytes>
      reads rootCAs
    {
      if rootCAs == null then None else Some(rootCAs.certificatesPEM)
    }

    method BuildPayload(issued: Issued) returns (data: Option<Contents>)
      ensures data.Some? ==> IsPayload(data.value, names, keystores, issued, Bundle())
      ensures data.None? ==> !Buildable(names, keystores, issued, Bundle())
    {
      if issued.keyPem.None? {
        return None;
      }
      var d: Contents := map[names.cert := issued.chain, names.key := issued.keyPem.value];
      if rootCAs != null {
        var pem := rootCAs.CertificatesPEM();
        d := d[names.ca := pem];
      }
      if keystores.Wanted() {
        if issued.certs.None? {
          return None;
        }
        var leaf, fellBack := PickLeaf(issued.certs.value);
        if leaf.None? {
          return None;
        }
        forall l, f | IsLeaf(issued.certs.value, l, f)
          ensures l == leaf.value
        {
          LeafUnique(issued.certs.value, l, leaf.value, f, fellBack);
        }
        if keystores.p12 != "" {
          var p12 := issued.p12(leaf.value);
          if p12.None? {
            return None;
          }
          d := d[keystores.p12 := p12.value];
        }
        if keystores.jks != "" {
          var jks := issued.jks(leaf.value);
          if jks.None? {
            return None;
          }
          d := d[keystores.jks := jks.value];
        }
      }
      data := Some(d);
    }

    /** The payload first, then the metadata: a renewal is never recorded that is not on disk. */
    method WriteKeypair(v: Vol, issued: Issued, nextIssuance: int) returns (ok: bool)
      modifies store`volumes, store`metadata, store`faults
      ensures ok ==>
        && v in store.volumes && store.volumes == old(store.volumes)[v := store.volumes[v]]
        && store.metadata == old(store.metadata)[v := Meta(Some(nextIssuance))]
        && IsPayload(store.volumes[v], names, keystores, issued, Bundle())
        && store.faults == old(store.faults)
      ensures !ok ==> store.metadata == old(store.metadata)
      ensures ok ==> v !in store.refusesFiles
      ensures !ok ==>
        store.faults > old(store.faults) || v in store.refusesFiles || !Buildable(names, keystores, issued, Bundle())
      // A payload that cannot be built leaves the volume alone, and no other volume is ever touched.
      ensures !Buildable(names, keystores, issued, Bundle()) ==> !ok && unchanged(store)
      ensures store.volumes - {v} == old(store.volumes) - {v}
    {
      var data := BuildPayload(issued);
      if data.None? {
        return false;
      }
      ok := store.WriteFiles(v, data.value);
      assert Buildable(names, keystores, issued, Bundle());
      if !ok {
        return;
      }
      ok := store.WriteMetadata(v, Meta(Some(nextIssuance)));
    }
  }
}
