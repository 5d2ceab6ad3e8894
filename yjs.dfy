/** The CRDT library as the update log and the server consume it.  A
    document is observed only through the updates applied to it since it was
    created; the library's encoders are left uninterpreted, as function
    values supplied by the caller. */
module Yjs {

  type Byte = bv8
  type Bytes = seq<Byte>

  /** A `Y.Doc`: the updates applied to a freshly created document, in the
      order they were applied. */
  datatype YDoc = YDoc(applied: seq<Bytes>)

  /** `new Y.Doc()`. */
  function FreshDoc(): YDoc {
    YDoc([])
  }

  /** `Y.applyUpdate(doc, update)`. */
  function ApplyUpdate(doc: YDoc, update: Bytes): YDoc {
    YDoc(doc.applied + [update])
  }

  /** `Y.encodeStateAsUpdate` and `Y.encodeStateVector`. */
  datatype Crdt = Crdt(encodeStateAsUpdate: YDoc -> Bytes, encodeStateVector: YDoc -> Bytes)

  /** The pair `mergeUpdates` returns. */
  datatype Merged = Merged(update: Bytes, sv: Bytes)

  /** What `mergeUpdates(updates)` computes: a fresh document with every
      update applied in order, encoded both ways. */
  function Merge(crdt: Crdt, updates: seq<Bytes>): Merged {
    var doc := YDoc(updates);
    Merged(crdt.encodeStateAsUpdate(doc), crdt.encodeStateVector(doc))
  }

  /** Applying updates one at a time to a fresh document, as the replay loops
      of `mergeUpdates` and `getYDoc` do. */
  method Replay(updates: seq<Bytes>) returns (doc: YDoc)
    ensures doc == YDoc(updates)
  {
    doc := FreshDoc();
    for i := 0 to |updates|
      invariant doc.applied == updates[..i]
    {
      doc := ApplyUpdate(doc, updates[i]);
    }
    assert updates[..|updates|] == updates;
  }
}
