/** The update log of `y-durable-storage.ts` as values: the storage map keyed
    by (document, clock) pairs, every storage operation as a step function
    from one map to the next, and the serial queue of `YDurableStorage` as a
    left-to-right run of jobs.  The key codec (module KeyCodec) shows that the
    encoded-key scans of the source select exactly the clock ranges used here;
    see ListedClocksAreEncodedRange. */
module UpdateLog {
  import opened Wrappers
  import opened Yjs
  import KeyCodec

  /** `PREFERRED_TRIM_SIZE`: getYDoc compacts logs longer than this. */
  const PreferredTrimSize: nat := 300
  /** `clearRange` refuses to delete more keys than this. */
  const MaxClearKeys: nat := 128
  /** Clocks are written in a nine-digit field. */
  const ClockLimit: nat := 1_000_000_000
  /** A whole-document scan sees exactly the clocks below this. */
  const ScanEnd: nat := KeyCodec.UpdateScanEnd

  /** `createDocumentUpdateKey(docName, clock)`. */
  datatype UpdateKey = UpdateKey(docName: string, clock: nat)

  /** The decoded value under `createDocumentStateVectorKey(docName)`. */
  datatype SvRecord = SvRecord(clock: nat, sv: Bytes)

  /** The Durable Object storage map, split by key family. */
  datatype Db = Db(updates: map<UpdateKey, Bytes>, svRecords: map<string, SvRecord>)

  type Updates = map<UpdateKey, Bytes>

  /** Every update key fits the nine-digit clock field. */
  predicate Valid(db: Db) {
    forall k :: k in db.updates ==> k.clock < ClockLimit
  }

  predicate Increasing(s: seq<nat>) {
    forall i, j :: 0 <= i < j < |s| ==> s[i] < s[j]
  }

  predicate Dense(s: seq<nat>) {
    forall i :: 0 <= i < |s| ==> s[i] == i
  }

  // ---------------------------------------------------------------------------
  // Scans

  /** The clocks in [lo, hi) that hold an update of `docName`, ascending:
      the keys `db.list` returns between the update keys of `lo` and `hi`.
      What the scan contains is `ClocksInSpec`. */
  function ClocksIn(updates: Updates, docName: string, lo: nat, hi: nat): (r: seq<nat>)
    ensures |r| <= if hi <= lo then 0 else hi - lo
    decreases hi
  {
    if hi <= lo then []
    else
      var below := ClocksIn(updates, docName, lo, hi - 1);
      if UpdateKey(docName, hi - 1) in updates then below + [hi - 1] else below
  }

  /** A scan lists, in ascending order, exactly the document's clocks in
      the range. */
  lemma {:induction false} ClocksInSpec(updates: Updates, docName: string, lo: nat, hi: nat)
    ensures var r := ClocksIn(updates, docName, lo, hi);
      && Increasing(r)
      && forall c :: (c in r <==> lo <= c < hi && UpdateKey(docName, c) in updates)
    decreases hi
  {
    if hi > lo {
      var below := ClocksIn(updates, docName, lo, hi - 1);
      ClocksInSpec(updates, docName, lo, hi - 1);
      if UpdateKey(docName, hi - 1) in updates {
        var r := below + [hi - 1];
        forall i | 0 <= i < |below|
          ensures r[i] == below[i] < hi - 1
        {
          assert below[i] in below;
        }
        assert forall c :: c in r <==> c in below || c == hi - 1;
      }
    }
  }

  /** The upper clock an update scan's exclusive bound stands for: the
      `BINARY_BITS_32` bound of a whole-document scan admits exactly the
      clocks below ScanEnd, a nine-digit bound is its own clock. */
  function RangeEnd(lt: nat): nat {
    if lt == KeyCodec.Bits32 then ScanEnd else lt
  }

  /** The clocks `getLevelUpdates` visits. */
  function Scanned(updates: Updates, docName: string): seq<nat> {
    ClocksIn(updates, docName, 0, ScanEnd)
  }

  /** The values `getLevelUpdates` returns, in ascending clock order. */
  function Log(updates: Updates, docName: string): (r: seq<Bytes>)
    ensures |r| == |Scanned(updates, docName)|
  {
    var cs := Scanned(updates, docName);
    ClocksInSpec(updates, docName, 0, ScanEnd);
    seq(|cs|, i requires 0 <= i < |cs| => updates[UpdateKey(docName, cs[i])])
  }

  function Reverse<T>(s: seq<T>): (r: seq<T>)
    ensures |r| == |s|
    ensures forall i :: 0 <= i < |s| ==> r[i] == s[|s| - 1 - i]
  {
    if s == [] then [] else Reverse(s[1..]) + [s[0]]
  }

  /** The clocks `db.list({start, end, reverse, limit})` returns over one
      document's update keys. */
  function Listed(updates: Updates, docName: string, lo: nat, hi: nat,
                  reverse: bool, limit: Option<nat>): seq<nat>
  {
    var cs := ClocksIn(updates, docName, lo, hi);
    var ordered := if reverse then Reverse(cs) else cs;
    if limit.Some? && limit.value < |ordered| then ordered[..limit.value] else ordered
  }

  lemma LastIsMax(s: seq<nat>)
    requires Increasing(s) && s != []
    ensures forall x :: x in s ==> x <= s[|s| - 1]
  {
    forall x | x in s
      ensures x <= s[|s| - 1]
    {
      var i :| 0 <= i < |s| && s[i] == x;
      if i < |s| - 1 {
        assert s[i] < s[|s| - 1];
      }
    }
  }

  /** `getCurrentUpdateClock`: the largest scanned clock of the document, or
      -1 when the scan finds none. */
  function CurrentClock(updates: Updates, docName: string): (r: int)
    ensures -1 <= r < ScanEnd
    ensures r == -1 <==> forall c :: 0 <= c < ScanEnd ==> UpdateKey(docName, c) !in updates
    ensures r >= 0 ==> UpdateKey(docName, r) in updates
    ensures forall c :: 0 <= c < ScanEnd && UpdateKey(docName, c) in updates ==> c <= r
  {
    var cs := Scanned(updates, docName);
    ClocksInSpec(updates, docName, 0, ScanEnd);
    if cs == [] then -1
    else
      LastIsMax(cs);
      assert cs[|cs| - 1] in cs;
      cs[|cs| - 1]
  }

  /** Two ascending sequences with the same elements are equal. */
  lemma {:induction false} IncreasingUnique(a: seq<nat>, b: seq<nat>)
    requires Increasing(a) && Increasing(b)
    requires forall x :: x in a <==> x in b
    ensures a == b
    decreases |a|
  {
    if a != [] && b != [] {
      assert a[0] in b && b[0] in a;
      assert a[0] == b[0];
      forall x
        ensures x in a[1..] <==> x in b[1..]
      {
        InTail(a, x);
        InTail(b, x);
      }
      IncreasingUnique(a[1..], b[1..]);
      assert a == [a[0]] + a[1..];
      assert b == [b[0]] + b[1..];
    } else {
      NoMembers(a);
      NoMembers(b);
    }
  }

  lemma NoMembers(s: seq<nat>)
    ensures s == [] <==> forall x :: x !in s
  {
    if s != [] {
      assert s[0] in s;
    }
  }

  lemma InTail(s: seq<nat>, x: nat)
    requires Increasing(s) && s != []
    ensures x in s[1..] <==> x in s && x != s[0]
  {
    if x in s && x != s[0] {
      var i :| 0 <= i < |s| && s[i] == x;
      assert s[1..][i - 1] == x;
    }
  }

  /** Scans are monotone in the keys present. */
  lemma {:induction false} ClocksInMonotone(u: Updates, v: Updates, docName: string, lo: nat, hi: nat)
    requires forall c :: lo <= c < hi && UpdateKey(docName, c) in u ==> UpdateKey(docName, c) in v
    ensures |ClocksIn(u, docName, lo, hi)| <= |ClocksIn(v, docName, lo, hi)|
    decreases hi
  {
    if hi > lo {
      ClocksInMonotone(u, v, docName, lo, hi - 1);
    }
  }

  /** The scans of the source are the clock ranges of this model: for keys in
      the nine-digit field, the encoded update key of clock `c` lies in the
      encoded range [key(from), key(lt)) exactly when `c` lies in
      [from, RangeEnd(lt)). */
  lemma ListedClocksAreEncodedRange(docName: string, from: nat, lt: nat, c: nat)
    requires from < ClockLimit && c < ClockLimit
    requires lt == KeyCodec.Bits32 || lt < ClockLimit
    requires from == 0 || lt != KeyCodec.Bits32
    ensures KeyCodec.InKeyRange(KeyCodec.EncodeKey(KeyCodec.DocumentUpdateKey(docName, c)),
                                KeyCodec.EncodeKey(KeyCodec.DocumentUpdateKey(docName, from)),
                                KeyCodec.EncodeKey(KeyCodec.DocumentUpdateKey(docName, lt)))
            <==> from <= c < RangeEnd(lt)
  {
    assert KeyCodec.Pow10(KeyCodec.PadWidth) == ClockLimit;
    if lt == KeyCodec.Bits32 {
      KeyCodec.UpdateScanBound(docName, c);
    } else {
      KeyCodec.UpdateKeyInClearRange(docName, from, lt, c);
    }
  }

  // ---------------------------------------------------------------------------
  // Storage operations as steps

  datatype Step<T> = Step(db: Db, out: T)

  /** `writeStateVector`. */
  function WriteStateVector(db: Db, docName: string, sv: Bytes, clock: nat): Db {
    db.(svRecords := db.svRecords[docName := SvRecord(clock, sv)])
  }

  /** `readStateVector`: None stands for `{ sv: null, clock: -1 }`. */
  function ReadStateVector(db: Db, docName: string): Option<SvRecord> {
    if docName in db.svRecords then Some(db.svRecords[docName]) else None
  }

  /** `storeUpdate`: the returned clock and the store after the call. */
  function StoreUpdateStep(crdt: Crdt, db: Db, docName: string, update: Bytes): Step<nat> {
    var clock := CurrentClock(db.updates, docName);
    var seeded := if clock == -1
                  then WriteStateVector(db, docName, crdt.encodeStateVector(YDoc([update])), 0)
                  else db;
    Step(seeded.(updates := seeded.updates[UpdateKey(docName, clock + 1) := update]), clock + 1)
  }

  /** The update map without the document's keys in [lo, hi). */
  function Cleared(updates: Updates, docName: string, lo: nat, hi: nat): Updates {
    map k | k in updates && !(k.docName == docName && lo <= k.clock < hi) :: updates[k]
  }

  /** `clearUpdatesRange`: false when `clearRange` throws. */
  function ClearRangeStep(db: Db, docName: string, lo: nat, hi: nat): Step<bool> {
    if |ClocksIn(db.updates, docName, lo, hi)| > MaxClearKeys then Step(db, false)
    else Step(db.(updates := Cleared(db.updates, docName, lo, hi)), true)
  }

  /** `flushDocument` (the module-level function): the new clock, or None
      when the clearing step throws after the merged update and the state
      vector have been written. */
  function FlushStep(crdt: Crdt, db: Db, docName: string, update: Bytes, sv: Bytes): Step<Option<nat>> {
    var stored := StoreUpdateStep(crdt, db, docName, update);
    var clock := stored.out;
    var cleared := ClearRangeStep(WriteStateVector(stored.db, docName, sv, clock), docName, 0, clock);
    Step(cleared.db, if cleared.out then Some(clock) else None)
  }

  // ---------------------------------------------------------------------------
  // The public operations of YDurableStorage, and their queue

  datatype Job =
    | FlushDocumentJob(docName: string)
    | GetYDocJob(docName: string)
    | GetStateVectorJob(docName: string)
    | StoreUpdateJob(docName: string, update: Bytes)

  /** What a job that did not throw resolves to. */
  datatype Reply = Flushed | Loaded(doc: YDoc) | StateVector(sv: Bytes) | Stored(clock: nat)

  /** `YDurableStorage.flushDocument`. */
  function FlushDocumentJobStep(crdt: Crdt, db: Db, docName: string): Step<Option<Reply>> {
    var merged := Merge(crdt, Log(db.updates, docName));
    var flushed := FlushStep(crdt, db, docName, merged.update, merged.sv);
    Step(flushed.db, if flushed.out.Some? then Some(Flushed) else None)
  }

  /** `YDurableStorage.getYDoc`. */
  function GetYDocJobStep(crdt: Crdt, db: Db, docName: string): Step<Option<Reply>> {
    var log := Log(db.updates, docName);
    var doc := YDoc(log);
    if |log| > PreferredTrimSize then
      var flushed := FlushStep(crdt, db, docName, crdt.encodeStateAsUpdate(doc), crdt.encodeStateVector(doc));
      Step(flushed.db, if flushed.out.Some? then Some(Loaded(doc)) else None)
    else
      Step(db, Some(Loaded(doc)))
  }

  /** `YDurableStorage.getStateVector`. */
  function GetStateVectorJobStep(crdt: Crdt, db: Db, docName: string): Step<Option<Reply>> {
    var record := ReadStateVector(db, docName);
    var curClock := if record.Some? then CurrentClock(db.updates, docName) else -1;
    if record.Some? && record.value.clock == curClock then
      Step(db, Some(StateVector(record.value.sv)))
    else
      var merged := Merge(crdt, Log(db.updates, docName));
      var flushed := FlushStep(crdt, db, docName, merged.update, merged.sv);
      Step(flushed.db, if flushed.out.Some? then Some(StateVector(merged.sv)) else None)
  }

  /** One job inside `_transact`: a thrown error resolves to None. */
  function RunJob(crdt: Crdt, db: Db, job: Job): Step<Option<Reply>> {
    match job
    case FlushDocumentJob(docName) => FlushDocumentJobStep(crdt, db, docName)
    case GetYDocJob(docName) => GetYDocJobStep(crdt, db, docName)
    case GetStateVectorJob(docName) => GetStateVectorJobStep(crdt, db, docName)
    case StoreUpdateJob(docName, update) =>
      var stored := StoreUpdateStep(crdt, db, docName, update);
      Step(stored.db, Some(Stored(stored.out)))
  }

  /** A function handed to `_transact`: it runs against the store and
      resolves to a reply, or throws (None). */
  type Transaction = Db -> Step<Option<Reply>>

  function JobTransaction(crdt: Crdt, job: Job): Transaction {
    db => RunJob(crdt, db, job)
  }

  /** The transactions a sequence of calls submits. */
  function Transactions(crdt: Crdt, jobs: seq<Job>): (r: seq<Transaction>)
    ensures |r| == |jobs|
    ensures forall i :: 0 <= i < |jobs| ==> r[i] == JobTransaction(crdt, jobs[i])
  {
    seq(|jobs|, i requires 0 <= i < |jobs| => JobTransaction(crdt, jobs[i]))
  }

  /** The `tr` chain: transactions run one after another in submission
      order, each on the store the previous one left. */
  function RunQueue(db: Db, txns: seq<Transaction>): (r: Step<seq<Option<Reply>>>)
    ensures |r.out| == |txns|
    decreases |txns|
  {
    if txns == [] then Step(db, [])
    else
      var first := txns[0](db);
      var rest := RunQueue(first.db, txns[1..]);
      Step(rest.db, [first.out] + rest.out)
  }

  // ---------------------------------------------------------------------------
  // storeUpdate

  /** storeUpdate writes at one past the largest clock and so appends to the
      document's log; no other update changes, and a state-vector record is
      written only on the document's first update, with clock 0. */
  lemma StoreUpdateAppendsToLog(crdt: Crdt, db: Db, docName: string, update: Bytes)
    requires CurrentClock(db.updates, docName) + 1 < ScanEnd
    ensures var st := StoreUpdateStep(crdt, db, docName, update);
      && st.out == CurrentClock(db.updates, docName) + 1
      && UpdateKey(docName, st.out) !in db.updates
      && Scanned(st.db.updates, docName) == Scanned(db.updates, docName) + [st.out]
      && Log(st.db.updates, docName) == Log(db.updates, docName) + [update]
      && st.db.updates.Keys == db.updates.Keys + {UpdateKey(docName, st.out)}
      && (forall k :: k in db.updates ==> st.db.updates[k] == db.updates[k])
      && (st.out == 0 <==> Scanned(db.updates, docName) == [])
      && st.db.svRecords == (if st.out == 0
                             then db.svRecords[docName := SvRecord(0, crdt.encodeStateVector(YDoc([update])))]
                             else db.svRecords)
  {
    var st := StoreUpdateStep(crdt, db, docName, update);
    StoreUpdateLog(crdt, db, docName, update);
    ClocksInSpec(db.updates, docName, 0, ScanEnd);
    var before := Scanned(db.updates, docName);
    assert before != [] ==> before[0] in before;
  }

  /** The scan after storeUpdate is the scan before, then the new clock. */
  lemma StoreUpdateScan(crdt: Crdt, db: Db, docName: string, update: Bytes)
    requires CurrentClock(db.updates, docName) + 1 < ScanEnd
    ensures var st := StoreUpdateStep(crdt, db, docName, update);
      Scanned(st.db.updates, docName) == Scanned(db.updates, docName) + [st.out]
  {
    var st := StoreUpdateStep(crdt, db, docName, update);
    var c := st.out;
    var before := Scanned(db.updates, docName);
    var after := Scanned(st.db.updates, docName);
    ClocksInSpec(db.updates, docName, 0, ScanEnd);
    ClocksInSpec(st.db.updates, docName, 0, ScanEnd);
    assert c == CurrentClock(db.updates, docName) + 1;
    assert st.db.updates == db.updates[UpdateKey(docName, c) := update];
    forall x | x in before
      ensures x < c
    {
      assert 0 <= x < ScanEnd;
      assert UpdateKey(docName, x) in db.updates;
      assert x <= CurrentClock(db.updates, docName);
    }
    assert Increasing(before + [c]);
    IncreasingUnique(after, before + [c]);
  }

  lemma StoreUpdateLog(crdt: Crdt, db: Db, docName: string, update: Bytes)
    requires CurrentClock(db.updates, docName) + 1 < ScanEnd
    ensures var st := StoreUpdateStep(crdt, db, docName, update);
      && Scanned(st.db.updates, docName) == Scanned(db.updates, docName) + [st.out]
      && Log(st.db.updates, docName) == Log(db.updates, docName) + [update]
  {
    var st := StoreUpdateStep(crdt, db, docName, update);
    StoreUpdateScan(crdt, db, docName, update);
    var before := Scanned(db.updates, docName);
    var after := Scanned(st.db.updates, docName);
    var la := Log(st.db.updates, docName);
    var lb := Log(db.updates, docName);
    assert st.db.updates == db.updates[UpdateKey(docName, st.out) := update];
    ClocksInSpec(st.db.updates, docName, 0, ScanEnd);
    forall i | 0 <= i < |la|
      ensures la[i] == (lb + [update])[i]
    {
      if i < |lb| {
        assert after[i] == before[i] < after[|lb|] == st.out;
      }
    }
  }

  /** Clocks start at 0 and have no gaps: on a log whose clocks are
      0, 1, ..., n-1, storeUpdate writes at n. */
  lemma StoreUpdateKeepsClocksDense(crdt: Crdt, db: Db, docName: string, update: Bytes)
    requires Dense(Scanned(db.updates, docName))
    requires |Scanned(db.updates, docName)| < ScanEnd
    ensures var st := StoreUpdateStep(crdt, db, docName, update);
      && st.out == |Scanned(db.updates, docName)|
      && Dense(Scanned(st.db.updates, docName))
  {
    var cs := Scanned(db.updates, docName);
    assert CurrentClock(db.updates, docName) == |cs| - 1;
    StoreUpdateAppendsToLog(crdt, db, docName, update);
  }

  /** The jobs a sequence of `storeUpdate` calls submits. */
  function StoreJobs(docName: string, updates: seq<Bytes>): (r: seq<Job>)
    ensures |r| == |updates|
    ensures forall i :: 0 <= i < |r| ==> r[i] == StoreUpdateJob(docName, updates[i])
  {
    seq(|updates|, i requires 0 <= i < |updates| => StoreUpdateJob(docName, updates[i]))
  }

  /** Storing updates one after another on a dense log appends them in order
      and hands out consecutive clocks. */
  lemma {:induction false} StoreUpdatesBuildLog(crdt: Crdt, db: Db, docName: string, updates: seq<Bytes>)
    requires Dense(Scanned(db.updates, docName))
    requires |Scanned(db.updates, docName)| + |updates| <= ScanEnd
    ensures var r := RunQueue(db, Transactions(crdt, StoreJobs(docName, updates)));
      && Log(r.db.updates, docName) == Log(db.updates, docName) + updates
      && Dense(Scanned(r.db.updates, docName))
      && r.out == StoredReplies(|Scanned(db.updates, docName)|, |updates|)
    decreases |updates|
  {
    var txns := Transactions(crdt, StoreJobs(docName, updates));
    if updates == [] {
      assert Log(db.updates, docName) + updates == Log(db.updates, docName);
    } else {
      var n := |Scanned(db.updates, docName)|;
      var st := StoreUpdateStep(crdt, db, docName, updates[0]);
      StoreUpdateKeepsClocksDense(crdt, db, docName, updates[0]);
      StoreUpdateAppendsToLog(crdt, db, docName, updates[0]);
      assert |Scanned(st.db.updates, docName)| == n + 1;
      assert txns[1..] == Transactions(crdt, StoreJobs(docName, updates[1..]));
      StoreUpdatesBuildLog(crdt, st.db, docName, updates[1..]);
      var rest := RunQueue(st.db, txns[1..]);
      assert txns[0](db) == Step(st.db, Some(Stored(n)));
      var r := RunQueue(db, txns);
      assert r == Step(rest.db, [Some(Stored(n))] + rest.out);
      ConsAppend(Log(db.updates, docName), updates);
    }
  }

  /** The replies of `count` successful storeUpdate calls starting at clock
      `first`. */
  function StoredReplies(first: nat, count: nat): (r: seq<Option<Reply>>)
    ensures |r| == count
    ensures forall i :: 0 <= i < count ==> r[i] == Some(Stored(first + i))
    decreases count
  {
    if count == 0 then [] else [Some(Stored(first))] + StoredReplies(first + 1, count - 1)
  }

  lemma ConsAppend<T>(l: seq<T>, s: seq<T>)
    requires s != []
    ensures l + s == (l + [s[0]]) + s[1..]
  {
    assert s == [s[0]] + s[1..];
  }

  /** As written, a document whose largest scanned clock is ScanEnd - 1 keeps
      writing at ScanEnd, a clock no scan sees: the stored update is missing
      from the log and the next storeUpdate overwrites it. */
  lemma StoreUpdatePastScanEndIsLost(crdt: Crdt, db: Db, docName: string, first: Bytes, second: Bytes)
    requires UpdateKey(docName, ScanEnd - 1) in db.updates
    ensures var s1 := StoreUpdateStep(crdt, db, docName, first);
            var s2 := StoreUpdateStep(crdt, s1.db, docName, second);
      && s1.out == ScanEnd && s2.out == ScanEnd
      && Log(s1.db.updates, docName) == Log(db.updates, docName)
      && s2.db.updates[UpdateKey(docName, ScanEnd)] == second
  {
    var s1 := StoreUpdateStep(crdt, db, docName, first);
    assert CurrentClock(db.updates, docName) == ScanEnd - 1;
    assert s1.db.updates == db.updates[UpdateKey(docName, ScanEnd) := first];
    var before := Scanned(db.updates, docName);
    var after := Scanned(s1.db.updates, docName);
    ClocksInSpec(db.updates, docName, 0, ScanEnd);
    ClocksInSpec(s1.db.updates, docName, 0, ScanEnd);
    IncreasingUnique(after, before);
    assert CurrentClock(s1.db.updates, docName) == ScanEnd - 1;
    var la := Log(s1.db.updates, docName);
    var lb := Log(db.updates, docName);
    forall i | 0 <= i < |la|
      ensures la[i] == lb[i]
    {
      assert after[i] in after;
    }
  }

  // ---------------------------------------------------------------------------
  // clearRange

  /** clearRange throws, changing nothing, exactly when more than 128 keys lie
      in the range; otherwise it deletes exactly those keys. */
  lemma ClearRangeOutcome(db: Db, docName: string, lo: nat, hi: nat)
    ensures var r := ClearRangeStep(db, docName, lo, hi);
      && (r.out <==> |ClocksIn(db.updates, docName, lo, hi)| <= MaxClearKeys)
      && (!r.out ==> r.db == db)
      && r.db.svRecords == db.svRecords
      && (r.out ==> ClocksIn(r.db.updates, docName, lo, hi) == [])
      && (r.out ==> forall k :: k in r.db.updates <==>
                      (k in db.updates && !(k.docName == docName && lo <= k.clock < hi)))
      && (forall k :: k in r.db.updates ==> k in db.updates && r.db.updates[k] == db.updates[k])
  {
    var r := ClearRangeStep(db, docName, lo, hi);
    if r.out {
      ClocksInSpec(r.db.updates, docName, lo, hi);
      NoMembers(ClocksIn(r.db.updates, docName, lo, hi));
    }
  }

  // ---------------------------------------------------------------------------
  // flushDocument

  /** flushDocument stores the merged update at the next clock and records
      the state vector under that clock; clearing the older entries succeeds
      exactly when the document had at most 128 scanned updates, and then the
      merged update is the document's only scanned entry.  When clearing
      throws, the older entries all survive next to the merged update. */
  lemma FlushOutcome(crdt: Crdt, db: Db, docName: string, update: Bytes, sv: Bytes)
    ensures var f := FlushStep(crdt, db, docName, update, sv);
      f.out.Some? <==> |Scanned(db.updates, docName)| <= MaxClearKeys
    ensures var f := FlushStep(crdt, db, docName, update, sv);
      f.out.Some? ==> f.out.value == CurrentClock(db.updates, docName) + 1
    ensures var c := CurrentClock(db.updates, docName) + 1;
            var f := FlushStep(crdt, db, docName, update, sv);
      f.out.Some? && c < ScanEnd ==>
        Scanned(f.db.updates, docName) == [c] && Log(f.db.updates, docName) == [update]
    ensures var c := CurrentClock(db.updates, docName) + 1;
            var f := FlushStep(crdt, db, docName, update, sv);
      f.out.None? ==> f.db.updates == db.updates[UpdateKey(docName, c) := update]
    ensures var c := CurrentClock(db.updates, docName) + 1;
            var f := FlushStep(crdt, db, docName, update, sv);
      f.db.svRecords == db.svRecords[docName := SvRecord(c, sv)]
    ensures var c := CurrentClock(db.updates, docName) + 1;
            var f := FlushStep(crdt, db, docName, update, sv);
      forall k :: k in f.db.updates ==>
        k in db.updates[UpdateKey(docName, c) := update]
        && f.db.updates[k] == db.updates[UpdateKey(docName, c) := update][k]
    ensures var f := FlushStep(crdt, db, docName, update, sv);
      forall k: UpdateKey :: k.docName != docName ==> (k in f.db.updates <==> k in db.updates)
  {
    var c := CurrentClock(db.updates, docName) + 1;
    var st := StoreUpdateStep(crdt, db, docName, update);
    assert st.out == c;
    var stored := db.updates[UpdateKey(docName, c) := update];
    assert st.db.updates == stored;
    var written := WriteStateVector(st.db, docName, sv, c);
    assert written.svRecords == db.svRecords[docName := SvRecord(c, sv)];
    ClocksBelowNext(db.updates, docName, update);
    assert |ClocksIn(written.updates, docName, 0, c)| == |Scanned(db.updates, docName)|;
    var cl := ClearRangeStep(written, docName, 0, c);
    assert FlushStep(crdt, db, docName, update, sv) == Step(cl.db, if cl.out then Some(c) else None);
    if cl.out {
      assert cl.db.updates == Cleared(stored, docName, 0, c);
      if c < ScanEnd {
        ClearedBelowNext(db.updates, docName, update);
      }
    }
  }

  /** Below the next clock, the scan after storing there is the scan before. */
  lemma ClocksBelowNext(u: Updates, docName: string, update: Bytes)
    ensures var c := CurrentClock(u, docName) + 1;
      ClocksIn(u[UpdateKey(docName, c) := update], docName, 0, c) == Scanned(u, docName)
  {
    var c := CurrentClock(u, docName) + 1;
    var below := ClocksIn(u[UpdateKey(docName, c) := update], docName, 0, c);
    var scanned := Scanned(u, docName);
    ClocksInSpec(u[UpdateKey(docName, c) := update], docName, 0, c);
    ClocksInSpec(u, docName, 0, ScanEnd);
    forall x
      ensures x in below <==> x in scanned
    {
    }
    IncreasingUnique(below, scanned);
  }

  /** Storing at the next clock and clearing everything below it leaves the
      stored update as the only scanned entry. */
  lemma ClearedBelowNext(u: Updates, docName: string, update: Bytes)
    requires CurrentClock(u, docName) + 1 < ScanEnd
    ensures var c := CurrentClock(u, docName) + 1;
            var w := Cleared(u[UpdateKey(docName, c) := update], docName, 0, c);
      Scanned(w, docName) == [c] && Log(w, docName) == [update]
  {
    var c := CurrentClock(u, docName) + 1;
    var w := Cleared(u[UpdateKey(docName, c) := update], docName, 0, c);
    var after := Scanned(w, docName);
    ClocksInSpec(w, docName, 0, ScanEnd);
    forall x
      ensures x in after <==> x in [c]
    {
    }
    IncreasingUnique(after, [c]);
  }

  // ---------------------------------------------------------------------------
  // getYDoc

  /** getYDoc replays every scanned update, in ascending clock order, into a
      fresh document.  Up to 300 updates nothing is written; beyond that the
      compaction always throws at the 128-key cap: the call resolves to None,
      the merged update and its state vector are written at the next clock
      and every older entry survives. */
  lemma GetYDocOutcome(crdt: Crdt, db: Db, docName: string)
    ensures var r := GetYDocJobStep(crdt, db, docName);
            var log := Log(db.updates, docName);
            var c := CurrentClock(db.updates, docName) + 1;
      && (|log| <= PreferredTrimSize ==> r.db == db && r.out == Some(Loaded(YDoc(log))))
      && (|log| > PreferredTrimSize ==>
            && r.out == None
            && r.db.updates == db.updates[UpdateKey(docName, c) := crdt.encodeStateAsUpdate(YDoc(log))]
            && r.db.svRecords == db.svRecords[docName := SvRecord(c, crdt.encodeStateVector(YDoc(log)))]
            && (c < ScanEnd ==> Log(r.db.updates, docName) == log + [crdt.encodeStateAsUpdate(YDoc(log))]))
  {
    var log := Log(db.updates, docName);
    if |log| > PreferredTrimSize {
      var doc := YDoc(log);
      FlushOutcome(crdt, db, docName, crdt.encodeStateAsUpdate(doc), crdt.encodeStateVector(doc));
      if CurrentClock(db.updates, docName) + 1 < ScanEnd {
        StoreUpdateAppendsToLog(crdt, db, docName, crdt.encodeStateAsUpdate(doc));
      }
    }
  }

  // ---------------------------------------------------------------------------
  // getStateVector

  /** getStateVector serves the recorded state vector, writing nothing, when
      the record exists and its clock is the document's current clock;
      otherwise it merges the log, flushes it and answers the merged state
      vector, or None when the flush throws. */
  lemma GetStateVectorOutcome(crdt: Crdt, db: Db, docName: string)
    ensures var r := GetStateVectorJobStep(crdt, db, docName);
            var log := Log(db.updates, docName);
            var c := CurrentClock(db.updates, docName) + 1;
            var cached := docName in db.svRecords
                          && db.svRecords[docName].clock == CurrentClock(db.updates, docName);
      && (cached ==> r == Step(db, Some(StateVector(db.svRecords[docName].sv))))
      && (!cached ==>
            && r.out == (if |log| <= MaxClearKeys then Some(StateVector(Merge(crdt, log).sv)) else None)
            && r.db.svRecords == db.svRecords[docName := SvRecord(c, Merge(crdt, log).sv)]
            && (r.out.Some? && c < ScanEnd ==> Log(r.db.updates, docName) == [Merge(crdt, log).update]))
  {
    var log := Log(db.updates, docName);
    var merged := Merge(crdt, log);
    FlushOutcome(crdt, db, docName, merged.update, merged.sv);
  }

  /** On a document with neither updates nor a state-vector record,
      getStateVector writes the merged empty log as an update at clock 0 and a
      state-vector record with clock 0. */
  lemma GetStateVectorCreatesMissingDocument(crdt: Crdt, db: Db, docName: string)
    requires docName !in db.svRecords
    requires Scanned(db.updates, docName) == []
    ensures var r := GetStateVectorJobStep(crdt, db, docName);
            var empty := Merge(crdt, []);
      && r.out == Some(StateVector(empty.sv))
      && r.db.updates == db.updates[UpdateKey(docName, 0) := empty.update]
      && r.db.svRecords == db.svRecords[docName := SvRecord(0, empty.sv)]
  {
    assert Log(db.updates, docName) == [];
    GetStateVectorOutcome(crdt, db, docName);
    FlushOutcome(crdt, db, docName, Merge(crdt, []).update, Merge(crdt, []).sv);
    var r := GetStateVectorJobStep(crdt, db, docName);
    assert r.db.updates == db.updates[UpdateKey(docName, 0) := Merge(crdt, []).update] by {
      forall k | k in db.updates && k.docName == docName
        ensures k.clock >= ScanEnd
      {
      }
    }
  }

  /** A state vector getStateVector answers is the one now on record, under
      the document's current clock: asking again reads the record, writes
      nothing and answers the same vector. */
  lemma GetStateVectorIsCachedAfterwards(crdt: Crdt, db: Db, docName: string)
    requires CurrentClock(db.updates, docName) + 1 < ScanEnd
    ensures var r := GetStateVectorJobStep(crdt, db, docName);
      r.out.Some? ==> GetStateVectorJobStep(crdt, r.db, docName) == Step(r.db, r.out)
  {
    var r := GetStateVectorJobStep(crdt, db, docName);
    GetStateVectorOutcome(crdt, db, docName);
    var log := Log(db.updates, docName);
    var merged := Merge(crdt, log);
    FlushOutcome(crdt, db, docName, merged.update, merged.sv);
    if r.out.Some? && !(docName in db.svRecords
                        && db.svRecords[docName].clock == CurrentClock(db.updates, docName)) {
      var c := CurrentClock(db.updates, docName) + 1;
      assert Scanned(r.db.updates, docName) == [c];
      assert CurrentClock(r.db.updates, docName) == c;
    }
  }

  /** After a successful flushDocument the next getStateVector is served
      from the record: it writes nothing and answers the merged vector. */
  lemma FlushedDocumentServesCachedStateVector(crdt: Crdt, db: Db, docName: string)
    requires CurrentClock(db.updates, docName) + 1 < ScanEnd
    ensures var r := FlushDocumentJobStep(crdt, db, docName);
      r.out.Some? ==>
        GetStateVectorJobStep(crdt, r.db, docName)
          == Step(r.db, Some(StateVector(Merge(crdt, Log(db.updates, docName)).sv)))
  {
    var r := FlushDocumentJobStep(crdt, db, docName);
    var merged := Merge(crdt, Log(db.updates, docName));
    FlushOutcome(crdt, db, docName, merged.update, merged.sv);
    if r.out.Some? {
      var c := CurrentClock(db.updates, docName) + 1;
      assert Scanned(r.db.updates, docName) == [c];
      assert CurrentClock(r.db.updates, docName) == c;
    }
  }

  // ---------------------------------------------------------------------------
  // The queue

  /** `r` differs from `db` only in the keys of `docName`. */
  ghost predicate Confined(db: Db, r: Db, docName: string) {
    && (forall k: UpdateKey :: k.docName != docName ==>
          (k in r.updates <==> k in db.updates)
          && (k in db.updates ==> r.updates[k] == db.updates[k]))
    && (forall n :: n != docName ==>
          (n in r.svRecords <==> n in db.svRecords)
          && (n in db.svRecords ==> r.svRecords[n] == db.svRecords[n]))
  }

  /** Every job touches only its own document's keys. */
  lemma JobIsPerDocument(crdt: Crdt, db: Db, job: Job)
    ensures Confined(db, RunJob(crdt, db, job).db, job.docName)
  {
    var log := Log(db.updates, job.docName);
    var merged := Merge(crdt, log);
    match job
    case FlushDocumentJob(d) =>
      FlushIsConfined(crdt, db, d, merged.update, merged.sv);
    case GetYDocJob(d) =>
      if |log| > PreferredTrimSize {
        FlushIsConfined(crdt, db, d, crdt.encodeStateAsUpdate(YDoc(log)), crdt.encodeStateVector(YDoc(log)));
      }
    case GetStateVectorJob(d) =>
      FlushIsConfined(crdt, db, d, merged.update, merged.sv);
    case StoreUpdateJob(d, u) =>
      StoreUpdateIsConfined(crdt, db, d, u);
  }

  lemma StoreUpdateIsConfined(crdt: Crdt, db: Db, docName: string, update: Bytes)
    ensures Confined(db, StoreUpdateStep(crdt, db, docName, update).db, docName)
  {
  }

  lemma FlushIsConfined(crdt: Crdt, db: Db, docName: string, update: Bytes, sv: Bytes)
    ensures Confined(db, FlushStep(crdt, db, docName, update, sv).db, docName)
  {
    var c := CurrentClock(db.updates, docName) + 1;
    var f := FlushStep(crdt, db, docName, update, sv);
    FlushOutcome(crdt, db, docName, update, sv);
    assert forall k :: k in f.db.updates && k.docName != docName ==> k in db.updates && f.db.updates[k] == db.updates[k];
  }

  /** Every job keeps the store inside the nine-digit clock field. */
  lemma RunJobPreservesValid(crdt: Crdt, db: Db, job: Job)
    requires Valid(db)
    ensures Valid(RunJob(crdt, db, job).db)
  {
    var docName := job.docName;
    var log := Log(db.updates, docName);
    var merged := Merge(crdt, log);
    FlushOutcome(crdt, db, docName, merged.update, merged.sv);
    FlushOutcome(crdt, db, docName, crdt.encodeStateAsUpdate(YDoc(log)), crdt.encodeStateVector(YDoc(log)));
  }

  lemma {:induction false} RunQueuePreservesValid(crdt: Crdt, db: Db, jobs: seq<Job>)
    requires Valid(db)
    ensures Valid(RunQueue(db, Transactions(crdt, jobs)).db)
    decreases |jobs|
  {
    if jobs != [] {
      RunJobPreservesValid(crdt, db, jobs[0]);
      assert Transactions(crdt, jobs)[1..] == Transactions(crdt, jobs[1..]);
      RunQueuePreservesValid(crdt, RunJob(crdt, db, jobs[0]).db, jobs[1..]);
    }
  }

  /** Once a document has more than 128 scanned updates, no job removes any
      of them and flushDocument on it always resolves to None: the log is
      never compacted again. */
  lemma LongLogIsNeverCompacted(crdt: Crdt, db: Db, job: Job, docName: string)
    requires |Scanned(db.updates, docName)| > MaxClearKeys
    ensures var r := RunJob(crdt, db, job);
      && (forall k :: k in db.updates && k.docName == docName && k.clock < ScanEnd ==>
            k in r.db.updates && r.db.updates[k] == db.updates[k])
      && |Scanned(r.db.updates, docName)| > MaxClearKeys
      && (job == FlushDocumentJob(docName) ==> r.out == None)
  {
    var r := RunJob(crdt, db, job);
    var d := job.docName;
    var log := Log(db.updates, d);
    var merged := Merge(crdt, log);
    JobIsPerDocument(crdt, db, job);
    FlushOutcome(crdt, db, d, merged.update, merged.sv);
    FlushOutcome(crdt, db, d, crdt.encodeStateAsUpdate(YDoc(log)), crdt.encodeStateVector(YDoc(log)));
    ClocksInSpec(db.updates, docName, 0, ScanEnd);
    ClocksInMonotone(db.updates, r.db.updates, docName, 0, ScanEnd);
  }

  /** Running two batches of transactions in turn is running their
      concatenation. */
  lemma {:induction false} RunQueueConcat(db: Db, a: seq<Transaction>, b: seq<Transaction>)
    ensures var ra := RunQueue(db, a);
            var rb := RunQueue(ra.db, b);
            RunQueue(db, a + b) == Step(rb.db, ra.out + rb.out)
    decreases |a|
  {
    if a == [] {
      assert a + b == b;
      var rb := RunQueue(db, b);
      assert [] + rb.out == rb.out;
      assert rb == Step(rb.db, rb.out);
    } else {
      assert (a + b)[0] == a[0];
      assert (a + b)[1..] == a[1..] + b;
      var first := a[0](db);
      RunQueueConcat(first.db, a[1..], b);
      var ra := RunQueue(first.db, a[1..]);
      var rb := RunQueue(ra.db, b);
      assert [first.out] + (ra.out + rb.out) == ([first.out] + ra.out) + rb.out;
    }
  }

  /** Transaction i resolves exactly as it would on its own against the
      store the first i transactions left, whether or not any of them threw:
      a failure never stalls or reorders the queue. */
  lemma RunQueueNth(db: Db, txns: seq<Transaction>, i: nat)
    requires i < |txns|
    ensures RunQueue(db, txns).out[i] == txns[i](RunQueue(db, txns[..i]).db).out
  {
    assert txns == txns[..i] + txns[i..];
    RunQueueConcat(db, txns[..i], txns[i..]);
    assert |RunQueue(db, txns[..i]).out| == i;
  }
}
