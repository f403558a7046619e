/** Storage layers (adaptive_checkpointer/backends.py): the in-memory store,
    whose missing keys read as the empty payload, and the tiered backend that
    routes each write to one layer by threshold and probes the layers in order
    on a read.

    Every layer's medium (RAM, local disk, Redis, S3) is modelled by the same
    map-backed store: all four read a missing id as `b''`. */
module Backends {
  import opened Common

  /** `dict.get(event_id, b'')`: a missing key reads as the empty payload. */
  function Get(m: map<int, Bytes>, id: int): (r: Bytes)
    ensures id in m ==> r == m[id]
    ensures r != [] ==> id in m
  {
    if id in m then m[id] else []
  }

  class MemoryStorage {
    var data: map<int, Bytes>

    /** A fresh store holds nothing: every id reads as `b''`. */
    constructor ()
      ensures data == map[]
      ensures forall id :: Get(data, id) == []
    {
      data := map[];
    }

    /** Overwrites the entry for `eventId` and no other. */
    method Save(eventId: int, d: Bytes)
      modifies this
      ensures data == old(data)[eventId := d]
    {
      data := data[eventId := d];
    }

    /** The stored payload, or `b''` for an id never saved. */
    method Load(eventId: int) returns (r: Bytes)
      ensures eventId in data ==> r == data[eventId]
      ensures eventId !in data ==> r == []
    {
      r := if eventId in data then data[eventId] else [];
    }
  }

  /** Load after save returns what was saved, and no other entry moves. */
  method MemoryRoundTrip(m: MemoryStorage, id: int, d: Bytes, other: int)
    returns (r: Bytes, rOther: Bytes)
    modifies m
    ensures r == d
    ensures other != id ==> rOther == Get(old(m.data), other)
  {
    m.Save(id, d);
    r := m.Load(id);
    rOther := m.Load(other);
  }

  /** Loading from a fresh store misses. */
  method MemoryMiss(id: int) returns (r: Bytes)
    ensures r == []
  {
    var m := new MemoryStorage();
    r := m.Load(id);
  }

  // ---------------------------------------------------------------------------
  // Routing and probing over the layers' contents
  // ---------------------------------------------------------------------------

  /** The position of the first threshold `>= id`, or `|ts|` if there is none. */
  function FirstFit(ts: seq<int>, id: int): (k: nat)
    ensures k <= |ts|
    ensures forall j :: 0 <= j < k ==> id > ts[j]
    ensures k < |ts| ==> id <= ts[k]
  {
    if ts == [] then 0
    else if id <= ts[0] then 0
    else
      var k := FirstFit(ts[1..], id);
      assert forall j :: 1 <= j < |ts| ==> ts[j] == ts[1..][j - 1];
      1 + k
  }

  /** The layer `TieredBackend.save` writes to: the first, in list order,
      whose threshold is `>= id`, or the last when none qualifies. */
  function Route(ts: seq<int>, id: int): (k: nat)
    requires |ts| > 0
    ensures k < |ts|
    ensures (exists j :: 0 <= j < |ts| && id <= ts[j]) ==>
      id <= ts[k] && forall j :: 0 <= j < k ==> id > ts[j]
    ensures (forall j :: 0 <= j < |ts| ==> id > ts[j]) ==> k == |ts| - 1
  {
    var k := FirstFit(ts, id);
    if k < |ts| then k else |ts| - 1
  }

  /** What `TieredBackend.load` returns, over the layers' contents: the
      first non-empty payload in list order, or `b''`. */
  function Probe(stores: seq<map<int, Bytes>>, id: int): (r: Bytes)
    ensures r == [] <==> forall k :: 0 <= k < |stores| ==> Get(stores[k], id) == []
    ensures r != [] ==>
      exists k :: (0 <= k < |stores| && Get(stores[k], id) == r
                   && forall j :: 0 <= j < k ==> Get(stores[j], id) == [])
  {
    if stores == [] then []
    else if Get(stores[0], id) != [] then Get(stores[0], id)
    else
      var r := Probe(stores[1..], id);
      assert forall k :: 1 <= k < |stores| ==> stores[k] == stores[1..][k - 1];
      r
  }

  /** The layers' contents after one backend write. */
  function WriteAt(stores: seq<map<int, Bytes>>, k: nat, id: int, d: Bytes): seq<map<int, Bytes>>
    requires k < |stores|
  {
    stores[k := stores[k][id := d]]
  }

  /** Every id a layer holds is one that routes to that layer: what holds
      when ids are written only through `TieredBackend.save` and the layer
      list does not change. */
  ghost predicate Partitioned(stores: seq<map<int, Bytes>>, ts: seq<int>)
    requires |ts| > 0
  {
    forall j, key :: 0 <= j < |stores| && key in stores[j] ==> Route(ts, key) == j
  }

  /** A routed write keeps the layers partitioned. */
  lemma SavePreservesPartition(stores: seq<map<int, Bytes>>, ts: seq<int>, id: int, d: Bytes)
    requires |ts| > 0 && |stores| == |ts|
    requires Partitioned(stores, ts)
    ensures Partitioned(WriteAt(stores, Route(ts, id), id, d), ts)
  {
  }

  /** Round trip: in partitioned layers, a load right after a routed write of a
      non-empty payload returns that payload. */
  lemma RoundTrip(stores: seq<map<int, Bytes>>, ts: seq<int>, id: int, d: Bytes)
    requires |ts| > 0 && |stores| == |ts|
    requires Partitioned(stores, ts)
    requires d != []
    ensures Probe(WriteAt(stores, Route(ts, id), id, d), id) == d
  {
    var k := Route(ts, id);
    var w := WriteAt(stores, k, id, d);
    assert forall j :: 0 <= j < k ==> id !in stores[j] && w[j] == stores[j];
    assert Get(w[k], id) == d;
    var r := Probe(w, id);
    var k' :| 0 <= k' < |w| && Get(w[k'], id) == r
      && forall j :: 0 <= j < k' ==> Get(w[j], id) == [];
    assert k' == k;
  }

  /** Probing depends only on what each layer reads for the id. */
  lemma ProbeDependsOnReads(a: seq<map<int, Bytes>>, b: seq<map<int, Bytes>>, id: int)
    requires |a| == |b|
    requires forall k :: 0 <= k < |a| ==> Get(a[k], id) == Get(b[k], id)
    ensures Probe(a, id) == Probe(b, id)
  {
  }

  /** A saved empty payload cannot be told apart from an absent one. */
  lemma EmptyPayloadIsMiss(stores: seq<map<int, Bytes>>, k: nat, id: int)
    requires k < |stores|
    ensures Probe(WriteAt(stores, k, id, []), id) == Probe(stores[k := stores[k] - {id}], id)
  {
    ProbeDependsOnReads(WriteAt(stores, k, id, []), stores[k := stores[k] - {id}], id);
  }

  /** One probing step: a layer that misses passes the probe on, a layer
      that hits answers it. */
  lemma ProbeStep(stores: seq<map<int, Bytes>>, i: nat, id: int)
    requires i < |stores|
    ensures Get(stores[i], id) == [] ==> Probe(stores[i..], id) == Probe(stores[i + 1..], id)
    ensures Get(stores[i], id) != [] ==> Probe(stores[i..], id) == Get(stores[i], id)
  {
    assert stores[i..][0] == stores[i];
    assert stores[i..][1..] == stores[i + 1..];
  }

  // ---------------------------------------------------------------------------
  // The tiered backend
  // ---------------------------------------------------------------------------

  /** The medium of a layer; it only tells the `add_*_layer` methods apart,
      since every medium is modelled by the same map-backed store. */
  datatype Medium = Ram | Nvme(path: string) | Redis | S3

  /** A `(max_events, backend)` pair of the layer list. */
  datatype Layer = Layer(threshold: int, medium: Medium, backend: MemoryStorage)

  function ThresholdsOf(ls: seq<Layer>): (ts: seq<int>)
    ensures |ts| == |ls| && forall j :: 0 <= j < |ls| ==> ts[j] == ls[j].threshold
  {
    seq(|ls|, j requires 0 <= j < |ls| => ls[j].threshold)
  }

  ghost function BackendsOf(ls: seq<Layer>): set<MemoryStorage> {
    set j | 0 <= j < |ls| :: ls[j].backend
  }

  ghost function StoresOf(ls: seq<Layer>): (s: seq<map<int, Bytes>>)
    reads BackendsOf(ls)
    ensures |s| == |ls| && forall j :: 0 <= j < |ls| ==> s[j] == ls[j].backend.data
  {
    seq(|ls|, j requires 0 <= j < |ls| reads BackendsOf(ls) => ls[j].backend.data)
  }

  class TieredBackend {
    var layers: seq<Layer>

    /** Each layer has a store of its own. */
    ghost predicate Valid()
      reads this
    {
      forall i, j :: 0 <= i < j < |layers| ==> layers[i].backend != layers[j].backend
    }

    function Thresholds(): seq<int>
      reads this
    {
      ThresholdsOf(layers)
    }

    ghost function Backends(): set<MemoryStorage>
      reads this
    {
      BackendsOf(layers)
    }

    /** The contents of the layers, in list order. */
    ghost function Stores(): seq<map<int, Bytes>>
      reads this, Backends()
    {
      StoresOf(layers)
    }

    constructor ()
      ensures Valid() && layers == []
    {
      layers := [];
    }

    /** Appends one layer with a fresh, empty store. */
    method AppendLayer(maxEvents: int, medium: Medium)
      requires Valid()
      modifies this
      ensures Valid()
      ensures |layers| == |old(layers)| + 1 && layers[..|old(layers)|] == old(layers)
      ensures layers[|old(layers)|].threshold == maxEvents && layers[|old(layers)|].medium == medium
      ensures fresh(layers[|old(layers)|].backend)
      ensures Stores() == old(Stores()) + [map[]]
    {
      var b := new MemoryStorage();
      layers := layers + [Layer(maxEvents, medium, b)];
      assert layers[..|old(layers)|] == old(layers);
    }

    /** `add_ram_layer`: appends one layer and returns this same object. */
    method AddRamLayer(maxEvents: int := 10000) returns (self: TieredBackend)
      requires Valid()
      modifies this
      ensures self == this && Valid()
      ensures |layers| == |old(layers)| + 1 && layers[..|old(layers)|] == old(layers)
      ensures layers[|old(layers)|].threshold == maxEvents && layers[|old(layers)|].medium == Ram
      ensures fresh(layers[|old(layers)|].backend)
      ensures Stores() == old(Stores()) + [map[]]
    {
      AppendLayer(maxEvents, Ram);
      self := this;
    }

    /** `add_nvme_layer`: appends one disk layer and returns this same object. */
    method AddNvmeLayer(maxEvents: int, path: string := "/pmem") returns (self: TieredBackend)
      requires Valid()
      modifies this
      ensures self == this && Valid()
      ensures |layers| == |old(layers)| + 1 && layers[..|old(layers)|] == old(layers)
      ensures layers[|old(layers)|].threshold == maxEvents && layers[|old(layers)|].medium == Nvme(path)
      ensures fresh(layers[|old(layers)|].backend)
      ensures Stores() == old(Stores()) + [map[]]
    {
      AppendLayer(maxEvents, Nvme(path));
      self := this;
    }

    /** `add_redis_layer`: appends one Redis layer and returns this same object. */
    method AddRedisLayer(maxEvents: int) returns (self: TieredBackend)
      requires Valid()
      modifies this
      ensures self == this && Valid()
      ensures |layers| == |old(layers)| + 1 && layers[..|old(layers)|] == old(layers)
      ensures layers[|old(layers)|].threshold == maxEvents && layers[|old(layers)|].medium == Redis
      ensures fresh(layers[|old(layers)|].backend)
      ensures Stores() == old(Stores()) + [map[]]
    {
      AppendLayer(maxEvents, Redis);
      self := this;
    }

    /** `add_s3_layer`: appends one S3 layer and returns this same object. */
    method AddS3Layer(maxEvents: int) returns (self: TieredBackend)
      requires Valid()
      modifies this
      ensures self == this && Valid()
      ensures |layers| == |old(layers)| + 1 && layers[..|old(layers)|] == old(layers)
      ensures layers[|old(layers)|].threshold == maxEvents && layers[|old(layers)|].medium == S3
      ensures fresh(layers[|old(layers)|].backend)
      ensures Stores() == old(Stores()) + [map[]]
    {
      AppendLayer(maxEvents, S3);
      self := this;
    }

    /** Writes the payload to exactly one layer, the routed one; every other
        layer and the layer list are unchanged. */
    method Save(eventId: int, d: Bytes)
      requires Valid() && |layers| > 0
      modifies Backends()
      ensures Valid() && layers == old(layers)
      ensures Stores() == WriteAt(old(Stores()), Route(Thresholds(), eventId), eventId, d)
    {
      var i := 0;
      while i < |layers|
        invariant 0 <= i <= |layers|
        invariant forall j :: 0 <= j < i ==> eventId > layers[j].threshold
        invariant Stores() == old(Stores())
      {
        var layer := layers[i];
        if eventId <= layer.threshold {
          layer.backend.Save(eventId, d);
          SavedOneLayer(old(Stores()), i, eventId, d);
          return;
        }
        i := i + 1;
      }
      layers[|layers| - 1].backend.Save(eventId, d);
      SavedOneLayer(old(Stores()), |layers| - 1, eventId, d);
    }

    /** After one backend's `Save`, the contents are `WriteAt` of the old ones. */
    lemma SavedOneLayer(before: seq<map<int, Bytes>>, k: nat, eventId: int, d: Bytes)
      requires Valid() && k < |layers| && |before| == |layers|
      requires layers[k].backend.data == before[k][eventId := d]
      requires forall j :: 0 <= j < |layers| && j != k ==> layers[j].backend.data == before[j]
      ensures Stores() == WriteAt(before, k, eventId, d)
    {
    }

    /** Probes the layers in list order and returns the first non-empty
        payload, or `b''` when every layer misses. */
    method Load(eventId: int) returns (r: Bytes)
      ensures r == Probe(Stores(), eventId)
    {
      ghost var stores := Stores();
      assert |stores| == |layers|;
      assert stores[0..] == stores;
      for i := 0 to |layers|
        invariant Probe(stores, eventId) == Probe(stores[i..], eventId)
      {
        var d := layers[i].backend.Load(eventId);
        assert d == Get(stores[i], eventId);
        ProbeStep(stores, i, eventId);
        if d != [] {
          assert Stores() == stores;
          return d;
        }
      }
      assert stores[|layers|..] == [];
      assert Stores() == stores;
      r := [];
    }
  }

  /** Scenario: layers with thresholds 1000 and then 5000.  Id 6000 exceeds
      both, so it lands in the second (last) layer; a load misses in the
      first layer and finds it in the second. */
  method OverflowScenario(d: Bytes) returns (inFirst: Bytes, inSecond: Bytes, loaded: Bytes)
    requires d != []
    ensures inFirst == [] && inSecond == d && loaded == d
  {
    var t := new TieredBackend();
    var t1 := t.AddRamLayer(1000);
    var t2 := t1.AddRamLayer(5000);
    assert t2.Thresholds() == [1000, 5000];
    t2.Save(6000, d);
    inFirst := t2.layers[0].backend.Load(6000);
    inSecond := t2.layers[1].backend.Load(6000);
    loaded := t2.Load(6000);
  }

  /** Scenario: the round trip needs a fixed layer list.  With one layer of
      threshold 1000, id 6000 falls back to it; once a layer of threshold 5000
      is appended, a re-save of 6000 routes to the new last layer, while a load
      still finds the older payload in the first layer. */
  method StaleAfterNewLayer(d1: Bytes, d2: Bytes) returns (inNew: Bytes, loaded: Bytes)
    requires d1 != []
    ensures inNew == d2
    ensures loaded == d1
  {
    var t := new TieredBackend();
    var t1 := t.AddRamLayer(1000);
    t1.Save(6000, d1);
    var t2 := t1.AddRamLayer(5000);
    assert t2.Thresholds() == [1000, 5000];
    t2.Save(6000, d2);
    assert Get(t2.Stores()[0], 6000) == d1;
    inNew := t2.layers[1].backend.Load(6000);
    loaded := t2.Load(6000);
  }
}
