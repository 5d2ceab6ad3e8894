/** The storage functions of `y-durable-storage.ts` as methods over a mutable
    storage object, each proved to perform the step UpdateLog specifies, and
    the `YDurableStorage` class whose `_transact` queue runs them in order. */
module DurableStorage {
  import opened Wrappers
  import opened Yjs
  import opened UpdateLog
  import KeyCodec

  /** One element of what `getLevelBulkData` returns: the clock decoded from
      the key and the stored value. */
  datatype Datum = Datum(clock: nat, value: Bytes)

  function Values(data: seq<Datum>): (r: seq<Bytes>)
    ensures |r| == |data|
  {
    seq(|data|, i requires 0 <= i < |data| => data[i].value)
  }

  /** The Durable Object storage the class is handed: an ordered key-value
      map changed in place by `put` and `delete`. */
  class Substrate {
    var updates: Updates
    var svRecords: map<string, SvRecord>

    function Model(): Db
      reads this
    {
      Db(updates, svRecords)
    }

    constructor (initial: Db)
      ensures Model() == initial
    {
      updates := initial.updates;
      svRecords := initial.svRecords;
    }

    /** `db.get` of a state-vector key. */
    method GetRecord(docName: string) returns (r: Option<SvRecord>)
      ensures r.Some? <==> docName in svRecords
      ensures r.Some? ==> r.value == svRecords[docName]
    {
      if docName in svRecords {
        r := Some(svRecords[docName]);
      } else {
        r := None;
      }
    }

    /** `db.put` of an update key. */
    method PutUpdate(key: UpdateKey, value: Bytes)
      modifies this
      ensures updates == old(updates)[key := value]
      ensures svRecords == old(svRecords)
    {
      updates := updates[key := value];
    }

    /** `db.put` of a state-vector key. */
    method PutRecord(docName: string, record: SvRecord)
      modifies this
      ensures svRecords == old(svRecords)[docName := record]
      ensures updates == old(updates)
    {
      svRecords := svRecords[docName := record];
    }

    /** `db.delete(keys)`. */
    method DeleteUpdates(keys: seq<UpdateKey>)
      modifies this
      ensures updates == map k | k in old(updates) && k !in keys :: old(updates)[k]
      ensures svRecords == old(svRecords)
    {
      updates := map k | k in updates && k !in keys :: updates[k];
    }

    /** `db.list({start, end, reverse, limit})` over the update keys of one
        document, between the keys of clocks `lo` and `hi`. */
    method List(docName: string, lo: nat, hi: nat, reverse: bool, limit: Option<nat>)
      returns (clocks: seq<nat>, values: seq<Bytes>)
      ensures clocks == Listed(updates, docName, lo, hi, reverse, limit)
      ensures |values| == |clocks|
      ensures forall i :: 0 <= i < |clocks| ==>
                UpdateKey(docName, clocks[i]) in updates
                && values[i] == updates[UpdateKey(docName, clocks[i])]
    {
      var stored := updates;
      clocks := Listed(stored, docName, lo, hi, reverse, limit);
      ListedAreStored(stored, docName, lo, hi, reverse, limit);
      ClocksInSpec(stored, docName, lo, hi);
      assert forall i :: 0 <= i < |clocks| ==> UpdateKey(docName, clocks[i]) in stored;
      values := seq(|clocks|, i requires 0 <= i < |clocks| => stored[UpdateKey(docName, clocks[i])]);
    }
  }

  /** Every listed clock holds an update in the range. */
  lemma ListedAreStored(updates: Updates, docName: string, lo: nat, hi: nat, reverse: bool, limit: Option<nat>)
    ensures forall i :: 0 <= i < |Listed(updates, docName, lo, hi, reverse, limit)| ==>
              Listed(updates, docName, lo, hi, reverse, limit)[i] in ClocksIn(updates, docName, lo, hi)
  {
    var cs := ClocksIn(updates, docName, lo, hi);
    var ls := Listed(updates, docName, lo, hi, reverse, limit);
    forall i | 0 <= i < |ls|
      ensures ls[i] in cs
    {
      if reverse {
        assert ls[i] == cs[|cs| - 1 - i];
      } else {
        assert ls[i] == cs[i];
      }
    }
  }

  /** `getLevelBulkData`: lists the range and collects one datum per entry.
      `gte` and `lt` are the clocks of the update keys bounding the scan. */
  method GetLevelBulkData(db: Substrate, docName: string, gte: nat, lt: nat, reverse: bool, limit: Option<nat>)
    returns (arr: seq<Datum>)
    ensures |arr| == |Listed(db.updates, docName, gte, RangeEnd(lt), reverse, limit)|
    ensures forall i :: 0 <= i < |arr| ==>
              && arr[i].clock == Listed(db.updates, docName, gte, RangeEnd(lt), reverse, limit)[i]
              && UpdateKey(docName, arr[i].clock) in db.updates
              && arr[i].value == db.updates[UpdateKey(docName, arr[i].clock)]
  {
    var clocks, values := db.List(docName, gte, RangeEnd(lt), reverse, limit);
    arr := [];
    for i := 0 to |clocks|
      invariant |arr| == i
      invariant forall j :: 0 <= j < i ==> arr[j] == Datum(clocks[j], values[j])
    {
      arr := arr + [Datum(clocks[i], values[i])];
    }
  }

  /** `getLevelUpdates`: the document's whole log, in ascending clock order. */
  method GetLevelUpdates(db: Substrate, docName: string) returns (datums: seq<Datum>)
    ensures Values(datums) == Log(db.updates, docName)
  {
    datums := GetLevelBulkData(db, docName, 0, KeyCodec.Bits32, false, None);
    var log := Log(db.updates, docName);
    assert Values(datums) == log by {
      forall i | 0 <= i < |log|
        ensures Values(datums)[i] == log[i]
      {
      }
    }
  }

  /** `getCurrentUpdateClock`: a reverse scan with limit 1. */
  method GetCurrentUpdateClock(db: Substrate, docName: string) returns (clock: int)
    ensures clock == CurrentClock(db.updates, docName)
  {
    var datums := GetLevelBulkData(db, docName, 0, KeyCodec.Bits32, true, Some(1));
    if |datums| == 0 {
      clock := -1;
    } else {
      clock := datums[0].clock;
    }
  }

  /** Deleting the listed keys of a range is clearing the range. */
  lemma DeleteListedIsCleared(u: Updates, docName: string, lo: nat, hi: nat, keys: seq<UpdateKey>)
    requires forall k :: k in keys <==> k.docName == docName && k.clock in ClocksIn(u, docName, lo, hi)
    ensures (map k | k in u && k !in keys :: u[k]) == Cleared(u, docName, lo, hi)
  {
    ClocksInSpec(u, docName, lo, hi);
  }

  /** `clearUpdatesRange` / `clearRange` over the update keys of clocks
      `from` and `upTo`: false when it throws. */
  method ClearRange(db: Substrate, docName: string, from: nat, upTo: nat) returns (ok: bool)
    modifies db
    ensures Step(db.Model(), ok) == ClearRangeStep(old(db.Model()), docName, from, RangeEnd(upTo))
  {
    var datums := GetLevelBulkData(db, docName, from, upTo, false, None);
    ghost var cs := ClocksIn(db.updates, docName, from, RangeEnd(upTo));
    assert Listed(db.updates, docName, from, RangeEnd(upTo), false, None) == cs;
    if |datums| > MaxClearKeys {
      ok := false;
    } else {
      var keys := seq(|datums|, i requires 0 <= i < |datums| => UpdateKey(docName, datums[i].clock));
      forall k
        ensures k in keys <==> k.docName == docName && k.clock in cs
      {
        if k.docName == docName && k.clock in cs {
          var i :| 0 <= i < |cs| && cs[i] == k.clock;
          assert keys[i] == k;
        }
      }
      DeleteListedIsCleared(db.updates, docName, from, RangeEnd(upTo), keys);
      db.DeleteUpdates(keys);
      ok := true;
    }
  }

  /** `writeStateVector`. */
  method WriteStateVector(db: Substrate, docName: string, sv: Bytes, clock: nat)
    modifies db
    ensures db.Model() == UpdateLog.WriteStateVector(old(db.Model()), docName, sv, clock)
  {
    db.PutRecord(docName, SvRecord(clock, sv));
  }

  /** `readStateVector`. */
  method ReadStateVector(db: Substrate, docName: string) returns (r: Option<SvRecord>)
    ensures r == UpdateLog.ReadStateVector(db.Model(), docName)
  {
    r := db.GetRecord(docName);
  }

  /** `storeUpdate`. */
  method StoreUpdate(db: Substrate, crdt: Crdt, docName: string, update: Bytes) returns (clock: nat)
    modifies db
    ensures Step(db.Model(), clock) == StoreUpdateStep(crdt, old(db.Model()), docName, update)
  {
    var current := GetCurrentUpdateClock(db, docName);
    if current == -1 {
      var ydoc := ApplyUpdate(FreshDoc(), update);
      assert ydoc == YDoc([update]);
      WriteStateVector(db, docName, crdt.encodeStateVector(ydoc), 0);
    }
    db.PutUpdate(UpdateKey(docName, current + 1), update);
    clock := current + 1;
  }

  /** `flushDocument`: the new clock, or None when clearing throws. */
  method FlushDocument(db: Substrate, crdt: Crdt, docName: string, stateAsUpdate: Bytes, stateVector: Bytes)
    returns (clock: Option<nat>)
    modifies db
    ensures Step(db.Model(), clock) == FlushStep(crdt, old(db.Model()), docName, stateAsUpdate, stateVector)
  {
    var c := StoreUpdate(db, crdt, docName, stateAsUpdate);
    assert RangeEnd(c) == c;
    WriteStateVector(db, docName, stateVector, c);
    var ok := ClearRange(db, docName, 0, c);
    clock := if ok then Some(c) else None;
  }

  /** `mergeUpdates`. */
  method MergeUpdates(crdt: Crdt, updates: seq<Bytes>) returns (merged: Merged)
    ensures merged == Merge(crdt, updates)
  {
    var ydoc := Replay(updates);
    merged := Merged(crdt.encodeStateAsUpdate(ydoc), crdt.encodeStateVector(ydoc));
  }

  // ---------------------------------------------------------------------------
  // The functions the public methods hand to `_transact`

  method FlushDocumentBody(db: Substrate, crdt: Crdt, docName: string) returns (res: Option<Reply>)
    modifies db
    ensures Step(db.Model(), res) == FlushDocumentJobStep(crdt, old(db.Model()), docName)
  {
    var datums := GetLevelUpdates(db, docName);
    var merged := MergeUpdates(crdt, Values(datums));
    var clock := FlushDocument(db, crdt, docName, merged.update, merged.sv);
    res := if clock.Some? then Some(Flushed) else None;
  }

  method GetYDocBody(db: Substrate, crdt: Crdt, docName: string) returns (res: Option<Reply>)
    modifies db
    ensures Step(db.Model(), res) == GetYDocJobStep(crdt, old(db.Model()), docName)
  {
    var datums := GetLevelUpdates(db, docName);
    var ydoc := Replay(Values(datums));
    if |datums| > PreferredTrimSize {
      var clock := FlushDocument(db, crdt, docName, crdt.encodeStateAsUpdate(ydoc), crdt.encodeStateVector(ydoc));
      if clock.None? {
        return None;
      }
    }
    res := Some(Loaded(ydoc));
  }

  method GetStateVectorBody(db: Substrate, crdt: Crdt, docName: string) returns (res: Option<Reply>)
    modifies db
    ensures Step(db.Model(), res) == GetStateVectorJobStep(crdt, old(db.Model()), docName)
  {
    var record := ReadStateVector(db, docName);
    var curClock := -1;
    if record.Some? {
      curClock := GetCurrentUpdateClock(db, docName);
    }
    if record.Some? && record.value.clock == curClock {
      res := Some(StateVector(record.value.sv));
    } else {
      var datums := GetLevelUpdates(db, docName);
      var merged := MergeUpdates(crdt, Values(datums));
      var clock := FlushDocument(db, crdt, docName, merged.update, merged.sv);
      res := if clock.Some? then Some(StateVector(merged.sv)) else None;
    }
  }

  method StoreUpdateBody(db: Substrate, crdt: Crdt, docName: string, update: Bytes) returns (res: Option<Reply>)
    modifies db
    ensures Step(db.Model(), res) == RunJob(crdt, old(db.Model()), StoreUpdateJob(docName, update))
  {
    var clock := StoreUpdate(db, crdt, docName, update);
    res := Some(Stored(clock));
  }

  /** `YDurableStorage`: every public method goes through `_transact`, which
      chains it behind everything submitted before and resolves a thrown
      error to null (None).  `settled` holds what each call resolved to, in
      submission order. */
  class YDurableStorage {
    const db: Substrate
    const crdt: Crdt
    ghost const initial: Db
    ghost var submitted: seq<Job>
    var settled: seq<Option<Reply>>

    /** The storage and the settled results are those of running every
        submitted call, in order, from the initial storage. */
    ghost predicate Valid()
      reads this, db
    {
      RunQueue(initial, Transactions(crdt, submitted)) == Step(db.Model(), settled)
    }

    constructor (storage: Substrate, crdt: Crdt)
      ensures this.db == storage && this.crdt == crdt
      ensures initial == storage.Model() && submitted == [] && settled == []
      ensures Valid()
    {
      this.db := storage;
      this.crdt := crdt;
      this.initial := storage.Model();
      this.submitted := [];
      this.settled := [];
    }

    /** `_transact`. */
    method Transact(job: Job) returns (res: Option<Reply>)
      requires Valid()
      modifies this, db
      ensures Valid()
      ensures submitted == old(submitted) + [job]
      ensures settled == old(settled) + [res]
      ensures Step(db.Model(), res) == RunJob(crdt, old(db.Model()), job)
    {
      ghost var before := db.Model();
      match job {
        case FlushDocumentJob(docName) =>
          res := FlushDocumentBody(db, crdt, docName);
        case GetYDocJob(docName) =>
          res := GetYDocBody(db, crdt, docName);
        case GetStateVectorJob(docName) =>
          res := GetStateVectorBody(db, crdt, docName);
        case StoreUpdateJob(docName, update) =>
          res := StoreUpdateBody(db, crdt, docName, update);
      }
      var t := JobTransaction(crdt, job);
      RunQueueConcat(initial, Transactions(crdt, submitted), [t]);
      assert Transactions(crdt, submitted + [job]) == Transactions(crdt, submitted) + [t];
      assert t(before) == Step(db.Model(), res);
      assert RunQueue(before, [t]) == Step(db.Model(), [res]) by {
        assert [t][1..] == [];
        assert RunQueue(db.Model(), []) == Step(db.Model(), []);
        assert [res] + [] == [res];
      }
      submitted := submitted + [job];
      settled := settled + [res];
    }

    /** `flushDocument`. */
    method FlushDocument(docName: string) returns (res: Option<Reply>)
      requires Valid()
      modifies this, db
      ensures Valid()
      ensures submitted == old(submitted) + [FlushDocumentJob(docName)]
      ensures settled == old(settled) + [res]
      ensures Step(db.Model(), res) == FlushDocumentJobStep(crdt, old(db.Model()), docName)
    {
      res := Transact(FlushDocumentJob(docName));
    }

    /** `getYDoc`. */
    method GetYDoc(docName: string) returns (res: Option<YDoc>)
      requires Valid()
      modifies this, db
      ensures Valid()
      ensures submitted == old(submitted) + [GetYDocJob(docName)]
      ensures |settled| == |old(settled)| + 1
      ensures var step := GetYDocJobStep(crdt, old(db.Model()), docName);
        db.Model() == step.db && res == (if step.out.Some? then Some(step.out.value.doc) else None)
    {
      var r := Transact(GetYDocJob(docName));
      res := if r.Some? then Some(r.value.doc) else None;
    }

    /** `getStateVector`. */
    method GetStateVector(docName: string) returns (res: Option<Bytes>)
      requires Valid()
      modifies this, db
      ensures Valid()
      ensures submitted == old(submitted) + [GetStateVectorJob(docName)]
      ensures |settled| == |old(settled)| + 1
      ensures var step := GetStateVectorJobStep(crdt, old(db.Model()), docName);
        db.Model() == step.db && res == (if step.out.Some? then Some(step.out.value.sv) else None)
    {
      var r := Transact(GetStateVectorJob(docName));
      res := if r.Some? then Some(r.value.sv) else None;
    }

    /** `storeUpdate`. */
    method StoreUpdate(docName: string, update: Bytes) returns (res: Option<nat>)
      requires Valid()
      modifies this, db
      ensures Valid()
      ensures submitted == old(submitted) + [StoreUpdateJob(docName, update)]
      ensures |settled| == |old(settled)| + 1
      ensures var step := StoreUpdateStep(crdt, old(db.Model()), docName, update);
        db.Model() == step.db && res == Some(step.out)
    {
      var r := Transact(StoreUpdateJob(docName, update));
      res := if r.Some? then Some(r.value.clock) else None;
    }
  }
}
