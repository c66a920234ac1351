/** The per-node key-value map (internal/storage/store.go). */
module Storage {
  import opened Basics
  import opened HybridClock

  datatype VersionedValue = VersionedValue(value: Bytes, version: int, timestamp: int, nodeId: string, hlc: Hlc, isLocal: bool)

  type Data = map<string, VersionedValue>

  /** The record `PutWithHLC` builds. */
  function Versioned(value: Bytes, nodeId: string, stamp: Hlc): VersionedValue {
    VersionedValue(value, stamp.physical, stamp.physical, nodeId, stamp, nodeId == stamp.node)
  }

  class Store {
    var data: Data

    constructor ()
      ensures data == map[]
    {
      data := map[];
    }

    /** Overwrites unconditionally: nothing compares `stamp` with the stamp already stored. */
    method PutWithHLC(key: string, value: Bytes, nodeId: string, stamp: Hlc) returns (vv: VersionedValue)
      modifies this
      ensures vv == Versioned(value, nodeId, stamp)
      ensures vv.value == value && vv.nodeId == nodeId && vv.hlc == stamp && (vv.isLocal <==> nodeId == stamp.node)
      ensures vv.version == vv.timestamp == stamp.physical
      ensures data == old(data)[key := vv]
    {
      vv := VersionedValue(value, stamp.physical, stamp.physical, nodeId, stamp, nodeId == stamp.node);
      data := data[key := vv];
    }

    method Get(key: string) returns (vv: Option<VersionedValue>)
      ensures vv == if key in data then Some(data[key]) else None
    {
      if key in data {
        vv := Some(data[key]);
      } else {
        vv := None;
      }
    }
  }
}
