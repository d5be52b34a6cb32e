/**
 The store of all managed volumes: what can be read at each name of each volume, and the metadata. A
 completed write has the effect that the volume writers promise; a failed one need not.
 */
module VolumeStore {
  import opened Prelude
  import opened VolumeFs

  type Vol = string
  type Contents = map<Name, Bytes>

  /** The names `writeKeypair` and `updateRootCAFiles` use. */
  datatype FileNames = FileNames(cert: Name, key: Name, ca: Name) {
    predicate Distinct() {
      cert != key && cert != ca && key != ca
    }
  }

  datatype Meta = Meta(nextIssuance: Option<int>)

  class Store {
    // The store can write one file without the others.
    const singleFile: bool
    var volumes: map<Vol, Contents>
    var metadata: map<Vol, Meta>
    // Volumes whose next write is refused for what they are: their group is malformed, a directory is in
    // the way, or, for a single file, their layout is torn.
    var refusesFile: set<Vol>
    var refusesFiles: set<Vol>
    // Operations that have failed on their own account.
    var faults: nat

    constructor (singleFile: bool)
      ensures this.singleFile == singleFile && volumes == map[] && metadata == map[] && faults == 0
      ensures refusesFile == {} && refusesFiles == {}
    {
      this.singleFile := singleFile;
      volumes, metadata, faults := map[], map[], 0;
      refusesFile, refusesFiles := {}, {};
    }

    method Faults() returns (fault: bool)
      modifies this`faults
      ensures faults == old(faults) + (if fault then 1 else 0)
    {
      fault := *;
      if fault {
        faults := faults + 1;
      }
    }

    method ListVolumes() returns (r: Option<seq<Vol>>)
      modifies this`faults
      ensures faults == old(faults) + (if r.None? then 1 else 0)
      ensures r.Some? ==> Lists(r.value, volumes.Keys)
    {
      var fault := Faults();
      if fault {
        return None;
      }
      var ids, left := [], volumes.Keys;
      while left != {}
        invariant left <= volumes.Keys && Lists(ids, volumes.Keys - left)
        decreases left
      {
        var v :| v in left;
        ids, left := ids + [v], left - {v};
      }
      r := Some(ids);
    }

    method ReadMetadata(v: Vol) returns (ok: bool)
      modifies this`faults
      ensures faults == old(faults) + (if ok then 0 else 1)
    {
      var fault := Faults();
      return !fault;
    }

    method ReadFile(v: Vol, name: Name) returns (r: Option<Bytes>)
      requires v in volumes
      modifies this`faults
      ensures r.Some? ==> name in volumes[v] && r.value == volumes[v][name] && faults == old(faults)
      ensures r.None? ==> faults > old(faults) || (name !in volumes[v] && faults == old(faults))
    {
      var fault := Faults();
      r := if !fault && name in volumes[v] then Some(volumes[v][name]) else None;
    }

    /**
     As the in-place `WriteFile`: the other names keep their content, even if it fails, and a refusal
     changes nothing.
     */
    method WriteFile(v: Vol, name: Name, data: Bytes) returns (ok: bool)
      requires singleFile && v in volumes
      modifies this`volumes, this`faults
      ensures ok ==> volumes == old(volumes)[v := old(volumes)[v][name := data]] && faults == old(faults)
      ensures ok ==> v !in refusesFile
      ensures !ok ==> v in volumes && volumes == old(volumes)[v := volumes[v]]
      ensures !ok ==> volumes[v] - {name} == old(volumes)[v] - {name}
      ensures !ok ==> faults > old(faults) || (v in refusesFile && faults == old(faults) && volumes == old(volumes))
    {
      var fault := Faults();
      if !fault && v in refusesFile {
        assert volumes[v := volumes[v]] == volumes;
        return false;
      }
      if fault {
        var left: Bytes := *;
        volumes := volumes[v := volumes[v][name := left]];
        return false;
      }
      volumes := volumes[v := volumes[v][name := data]];
      ok := true;
    }

    /** As `WriteFiles` in either mode: the payload is all there is; a failure may leave anything. */
    method WriteFiles(v: Vol, files: Contents) returns (ok: bool)
      modifies this`volumes, this`faults
      ensures ok ==> volumes == old(volumes)[v := files] && faults == old(faults) && v !in refusesFiles
      ensures !ok ==> v in volumes && volumes == old(volumes)[v := volumes[v]]
      ensures !ok ==> faults > old(faults) || (v in refusesFiles && faults == old(faults))
    {
      var fault := Faults();
      if fault || v in refusesFiles {
        var left: Contents := *;
        volumes := volumes[v := left];
        return false;
      }
      volumes := volumes[v := files];
      ok := true;
    }

    method WriteMetadata(v: Vol, meta: Meta) returns (ok: bool)
      modifies this`metadata, this`faults
      ensures ok ==> metadata == old(metadata)[v := meta] && faults == old(faults)
      ensures !ok ==> metadata == old(metadata) && faults > old(faults)
    {
      var fault := Faults();
      if !fault {
        metadata := metadata[v := meta];
      }
      return !fault;
    }
  }

  /** Each volume once, in no particular order. */
  predicate Lists(ids: seq<Vol>, vols: set<Vol>) {
    && (forall i, j | 0 <= i < j < |ids| :: ids[i] != ids[j])
    && (forall v <- ids :: v in vols) && (forall v <- vols :: v in ids)
  }
}
